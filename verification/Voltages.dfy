/** The voltage check of the electrical test and its recovery from a stuck contactor. Both call
    each other: the check reports a missing Type-2 voltage to the recovery, which switches the
    contactor and checks again. Voltages are real numbers; the readings are an input. */
module Voltages {
  import opened Lines

  const ON_THRESHOLD: real := 200.0
  const OFF_THRESHOLD: real := 5.0
  const MAX_COUNTER: nat := 15

  /** Three voltages, for L1, L2 and L3. */
  type Triple = s: seq<real> | |s| == 3 witness [0.0, 0.0, 0.0]

  /** What the monitors and the energy meter say; not all chargers have a meter. */
  datatype Reading = Reading(type2: Triple, meter: Option<Triple>)

  type Readings = nat -> Reading

  /** The phases on which voltage is expected, as indices 0, 1 and 2. */
  type Expected = set<nat>

  datatype Verdict = Good | Missing | Fatal

  function MeterOf(r: Reading): Triple {
    if r.meter.Some? then r.meter.value else r.type2
  }

  predicate Wrong(on: bool, voltage: real) {
    if on then voltage < ON_THRESHOLD else voltage > OFF_THRESHOLD
  }

  /** What is wrong with one phase; Type-2 is looked at first. */
  function PhaseVerdict(r: Reading, type2: Expected, meter: Expected, i: nat): Verdict
    requires i < 3
  {
    if Wrong(i in type2, r.type2[i]) then (if i in type2 then Missing else Fatal)
    else if Wrong(i in MeterPhases(r, type2, meter), MeterOf(r)[i]) then Fatal
    else Good
  }

  /** Without a meter, its check repeats the one of Type-2. */
  function MeterPhases(r: Reading, type2: Expected, meter: Expected): Expected {
    if r.meter.Some? then meter else type2
  }

  /** `v` is the verdict of the first phase on which something is wrong. */
  ghost predicate IsVerdict(r: Reading, type2: Expected, meter: Expected, v: Verdict) {
    if v.Good? then forall i | 0 <= i < 3 :: PhaseVerdict(r, type2, meter, i).Good?
    else exists i | 0 <= i < 3 ::
      PhaseVerdict(r, type2, meter, i) == v && forall j | 0 <= j < i :: PhaseVerdict(r, type2, meter, j).Good?
  }

  method Judge(r: Reading, type2: Expected, meter: Expected) returns (v: Verdict)
    ensures IsVerdict(r, type2, meter, v)
  {
    var meterVoltages, meterPhases := MeterOf(r), MeterPhases(r, type2, meter);
    for i := 0 to 3
      invariant forall j | 0 <= j < i :: PhaseVerdict(r, type2, meter, j).Good?
    {
      if i in type2 && r.type2[i] < ON_THRESHOLD {
        assert PhaseVerdict(r, type2, meter, i).Missing?;
        return Missing;
      } else if i !in type2 && r.type2[i] > OFF_THRESHOLD {
        assert PhaseVerdict(r, type2, meter, i).Fatal?;
        return Fatal;
      }
      if i in meterPhases && meterVoltages[i] < ON_THRESHOLD {
        assert PhaseVerdict(r, type2, meter, i).Fatal?;
        return Fatal;
      } else if i !in meterPhases && meterVoltages[i] > OFF_THRESHOLD {
        assert PhaseVerdict(r, type2, meter, i).Fatal?;
        return Fatal;
      }
    }
    return Good;
  }

  /** Nothing is wrong if and only if each voltage is on or off as expected, by Type-2 and, where
      there is one, by the meter. */
  lemma GoodMeans(r: Reading, type2: Expected, meter: Expected, v: Verdict)
    requires IsVerdict(r, type2, meter, v)
    ensures v.Good? <==> forall i | 0 <= i < 3 ::
      && (if i in type2 then r.type2[i] >= 200.0 else r.type2[i] <= 5.0)
      && (r.meter.Some? ==> if i in meter then r.meter.value[i] >= 200.0 else r.meter.value[i] <= 5.0)
  {
    forall i | 0 <= i < 3
      ensures PhaseVerdict(r, type2, meter, i).Good? <==>
        && (if i in type2 then r.type2[i] >= 200.0 else r.type2[i] <= 5.0)
        && (r.meter.Some? ==> if i in meter then r.meter.value[i] >= 200.0 else r.meter.value[i] <= 5.0)
    {
    }
  }

  const ALL: Expected := {0, 1, 2}

  /** All three Type-2 voltages and, where there is a meter, all three of its voltages are at or
      above the threshold. */
  ghost predicate AllOn(r: Reading) {
    forall i | 0 <= i < 3 :: r.type2[i] >= ON_THRESHOLD && (r.meter.Some? ==> r.meter.value[i] >= ON_THRESHOLD)
  }

  /** Only Type-2 has anything missing, up to the first phase on which it has. */
  ghost predicate Type2Missing(r: Reading) {
    exists i | 0 <= i < 3 ::
      r.type2[i] < ON_THRESHOLD &&
      forall j | 0 <= j < i :: r.type2[j] >= ON_THRESHOLD && (r.meter.Some? ==> r.meter.value[j] >= ON_THRESHOLD)
  }

  lemma VerdictMeans(r: Reading, v: Verdict)
    requires IsVerdict(r, ALL, ALL, v)
    ensures v.Good? <==> AllOn(r)
    ensures v.Missing? <==> Type2Missing(r)
  {
    forall i | 0 <= i < 3
      ensures i in ALL
      ensures PhaseVerdict(r, ALL, ALL, i).Good? <==>
        r.type2[i] >= ON_THRESHOLD && (r.meter.Some? ==> r.meter.value[i] >= ON_THRESHOLD)
      ensures PhaseVerdict(r, ALL, ALL, i).Missing? <==> r.type2[i] < ON_THRESHOLD
    {
    }
  }

  /** The check of reading `n` with the recovery as its callback; `next` is the first reading
      not used. It succeeds exactly if, of the readings that the recovery has tries left for,
      one has all voltages and all before it only lack Type-2 voltages. */
  method VerifyVoltages(readings: Readings, n: nat, counter: nat) returns (ok: bool, next: nat)
    requires counter <= MAX_COUNTER
    ensures n < next <= n + 1 + (MAX_COUNTER - counter)
    ensures ok <==> AllOn(readings(next - 1))
    ensures forall i | n <= i < next - 1 :: Type2Missing(readings(i))
    ensures !ok && Type2Missing(readings(next - 1)) ==> next == n + 1 + (MAX_COUNTER - counter)
    decreases MAX_COUNTER - counter, 1
  {
    var v := Judge(readings(n), ALL, ALL);
    VerdictMeans(readings(n), v);
    match v
    case Good => ok, next := true, n + 1;
    case Fatal => ok, next := false, n + 1;
    case Missing => ok, next := ClearContactor(readings, n, counter);
  }

  method ClearContactor(readings: Readings, n: nat, counter: nat) returns (ok: bool, next: nat)
    requires counter <= MAX_COUNTER && Type2Missing(readings(n)) && !AllOn(readings(n))
    ensures n < next <= n + 1 + (MAX_COUNTER - counter)
    ensures ok <==> AllOn(readings(next - 1))
    ensures forall i | n <= i < next - 1 :: Type2Missing(readings(i))
    ensures !ok && Type2Missing(readings(next - 1)) ==> next == n + 1 + (MAX_COUNTER - counter)
    decreases MAX_COUNTER - counter, 0
  {
    if counter >= MAX_COUNTER {
      return false, n + 1;
    }
    ok, next := VerifyVoltages(readings, n + 1, counter + 1);
  }

  /** The check as the test starts it: at most sixteen readings, and where it returns without a
      fatal error the last of them had all voltages. */
  method VerifyAllPhases(readings: Readings) returns (ok: bool, taken: nat)
    ensures 1 <= taken <= 16
    ensures ok <==> AllOn(readings(taken - 1))
    ensures ok <==> exists k: nat | k < 16 :: AllOn(readings(k)) && forall i: nat | i < k :: Type2Missing(readings(i))
  {
    ok, taken := VerifyVoltages(readings, 0, 0);
    if ok {
      assert AllOn(readings(taken - 1));
    } else {
      forall k: nat | k < 16 && AllOn(readings(k)) ensures !(forall i: nat | i < k :: Type2Missing(readings(i))) {
        assert k < taken - 1 ==> !Type2Missing(readings(k));
        assert k > taken - 1 ==> !Type2Missing(readings(taken - 1));
      }
    }
  }
}
