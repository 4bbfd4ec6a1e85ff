/** The power sequencing of the tester: the outlet relay is switched only while both power
    relays are off. The calls of the test procedures are composed with the queue and the
    worker; any put, wait, timeout and round may interleave. */
module Interlock {
  import opened Lines
  import opened ActionLoop
  import opened TesterQueue

  datatype Line = L1 | L2 | L3
  datatype Outlet = Basic | Smart | Pro | CEE

  const POWER_L1 := Position("00D", 0)
  const POWER_L23 := Position("01A", 0)
  const OUTLET := Position("02A", 0)

  const ALL_OFF: Command := [Off, Off]

  /** What a caller does next; `Wait(n)` waits for the events of the last `n` puts. */
  datatype Op = Queue(item: Item) | Wait(n: nat) | Raise

  datatype Call =
    | WarpPower(phases: set<Line>)
    | PowerOff
    | PowerOn(outlet: Outlet, phases: set<Line>)
    | Relays(items: seq<Item>)

  function L23Command(phases: set<Line>): Command {
    if L2 in phases && L3 in phases then [Pulse, Pulse]
    else if L2 in phases then [Off, Pulse]
    else if L3 in phases then [Pulse, Off]
    else ALL_OFF
  }

  function OutletCommand(outlet: Outlet): Command {
    match outlet
    case Pro => [Off, Pulse]
    case CEE => ALL_OFF
    case _ => [Pulse, Off]
  }

  function ConnectWarpPower(phases: set<Line>): seq<Op> {
    if phases == {} then [Queue(Item(POWER_L1, ALL_OFF)), Queue(Item(POWER_L23, ALL_OFF)), Wait(2)]
    else if L1 !in phases then [Raise]
    else [Queue(Item(POWER_L1, [Pulse, Pulse])), Queue(Item(POWER_L23, L23Command(phases))), Wait(2)]
  }

  function ConnectOutlet(outlet: Outlet): seq<Op> {
    [Queue(Item(OUTLET, OutletCommand(outlet))), Wait(1)]
  }

  /** Voltage monitors, front panel, type 2 PE, CP-PE state and meter state. */
  function ResetRelays(): seq<Op> {
    [Queue(Item(Position("01B", 0), ALL_OFF)), Queue(Item(Position("01C", 0), ALL_OFF)), Wait(2)] +
    [Queue(Item(Position("03A", 0), [Off, Unchanged])), Wait(1)] +
    [Queue(Item(Position("03A", 1), [Unchanged, Off])), Wait(1)] +
    [Queue(Item(Position("01D", 0), [Off, Off, Off, Off])), Wait(1)] +
    [Queue(Item(Position("00A", 0), [On, On])), Queue(Item(Position("00B", 0), ALL_OFF)),
     Queue(Item(Position("00C", 0), ALL_OFF)), Wait(3)]
  }

  /** A call that drives other relays and waits for all of them. */
  function ConnectRelays(items: seq<Item>): seq<Op> {
    seq(|items|, i requires 0 <= i < |items| => Queue(items[i])) + [Wait(|items|)]
  }

  function Script(call: Call): seq<Op> {
    match call
    case WarpPower(phases) => ConnectWarpPower(phases)
    case PowerOff => ConnectWarpPower({}) + ConnectOutlet(CEE) + ResetRelays()
    case PowerOn(outlet, phases) =>
      ConnectWarpPower({}) + ConnectOutlet(outlet) + ResetRelays() + ConnectWarpPower(phases)
    case Relays(items) => ConnectRelays(items)
  }

  predicate Guarded(p: Position) {
    p == POWER_L1 || p == POWER_L23 || p == OUTLET
  }

  // ---------------------------------------------------------------------------------------
  // The composed system

  datatype System = System(tester: Tester, todo: seq<Op>)

  const START := System(PREPARED, [])

  /** `Proceed` is the caller's next operation, `GiveUp` ends the call under way with an error (a
      wait that timed out, or anything else), `Work` is the worker's. */
  datatype Act = Issue(call: Call) | Proceed | GiveUp | Work(move: Move)

  /** The events of the last `n` of `puts` puts. */
  function LastEvents(puts: nat, n: nat): set<nat> {
    if n == 0 || puts == 0 then {} else {puts - 1} + LastEvents(puts - 1, n - 1)
  }

  predicate Waited(t: Tester, n: nat) {
    n <= |t.puts| && LastEvents(|t.puts|, n) <= t.worker.fired
  }

  predicate CanHappen(s: System, a: Act) {
    match a
    case Issue(call) =>
      s.todo == [] && (call.Relays? ==> forall i | 0 <= i < |call.items| :: !Guarded(call.items[i].position))
    case Proceed => s.todo != [] && (s.todo[0].Wait? ==> Waited(s.tester, s.todo[0].n))
    case GiveUp => s.todo != []
    case Work(move) => !move.Put? && Possible(s.tester, move)
  }

  function Happen(s: System, a: Act): System
    requires CanHappen(s, a)
  {
    match a
    case Issue(call) => s.(todo := Script(call))
    case Proceed => (
      match s.todo[0]
      case Queue(item) => System(Do(s.tester, Put(item)), s.todo[1..])
      case Wait(_) => s.(todo := s.todo[1..])
      case Raise => s.(todo := []))
    case GiveUp => s.(todo := [])
    case Work(move) => s.(tester := Do(s.tester, move))
  }

  function Outcome(run: seq<Act>): Option<System> {
    if run == [] then Some(START)
    else
      var s, a := Outcome(run[..|run| - 1]), run[|run| - 1];
      if s.Some? && CanHappen(s.value, a) then Some(Happen(s.value, a)) else None
  }

  /** All outlet commands before put `n` were completed or replaced by completed ones. */
  ghost predicate OutletDone(puts: seq<Item>, n: nat, fired: set<nat>)
    requires n <= |puts|
  {
    LastBefore(puts, n, OUTLET).Some? ==> LastBefore(puts, n, OUTLET).value in fired
  }

  /** The last command for `p` before put `n` was off, and completed. */
  ghost predicate OffDone(puts: seq<Item>, n: nat, fired: set<nat>, p: Position)
    requires n <= |puts|
  {
    var k := LastBefore(puts, n, p);
    k.Some? && k.value in fired && puts[k.value].command == ALL_OFF
  }

  ghost predicate PowerOffDone(puts: seq<Item>, n: nat, fired: set<nat>)
    requires n <= |puts|
  {
    OffDone(puts, n, fired, POWER_L1) && OffDone(puts, n, fired, POWER_L23)
  }

  predicate SwitchesPower(item: Item) {
    (item.position == POWER_L1 || item.position == POWER_L23) && item.command != ALL_OFF
  }

  predicate ConnectsPower(a: Act) {
    a.Issue? && a.call.WarpPower? && a.call.phases != {}
  }

  /** No call has been given up since the last `power_on` or `power_off` was issued. */
  predicate Clean(run: seq<Act>) {
    run == [] ||
    var a := run[|run| - 1];
    !a.GiveUp? && ((a.Issue? && (a.call.PowerOn? || a.call.PowerOff?)) || Clean(run[..|run| - 1]))
  }

  /** The test procedures connect power on their own only while every call since the last
      `power_on` or `power_off` has returned: an error in one of them ends the procedure. */
  predicate CallersOrder(run: seq<Act>) {
    run == [] ||
    var before := run[..|run| - 1];
    CallersOrder(before) && (ConnectsPower(run[|run| - 1]) ==> Clean(before))
  }

  /** The way of the test procedures: an error ends the test, and what is called after it, to
      clean up or from the manual window, is `power_off` or `power_on`. */
  predicate ErrorsEndTests(run: seq<Act>) {
    forall i, j | 0 <= i < j < |run| && run[i].GiveUp? && run[j].Issue? :: run[j].call.PowerOn? || run[j].call.PowerOff?
  }

  lemma {:induction false} NoErrorIsClean(run: seq<Act>)
    requires forall i | 0 <= i < |run| :: !run[i].GiveUp?
    ensures Clean(run)
  {
    if run != [] {
      NoErrorIsClean(run[..|run| - 1]);
    }
  }

  lemma {:induction false} TestsKeepOrder(run: seq<Act>)
    requires ErrorsEndTests(run)
    ensures CallersOrder(run)
  {
    if run != [] {
      var before := run[..|run| - 1];
      TestsKeepOrder(before);
      if ConnectsPower(run[|run| - 1]) {
        NoErrorIsClean(before);
      }
    }
  }

  /** The last outlet command has completed. */
  ghost predicate OutletSettled(s: System) {
    OutletDone(s.tester.puts, |s.tester.puts|, s.tester.worker.fired)
  }

  /** In terms of the worker: power is connected directly only with the outlet settled. */
  ghost predicate Disciplined(run: seq<Act>) {
    run == [] ||
    var before := run[..|run| - 1];
    Disciplined(before) &&
    (ConnectsPower(run[|run| - 1]) && Outcome(before).Some? ==> OutletSettled(Outcome(before).value))
  }

  /** The worker is about to run an outlet command that has not completed yet, and the last
      completed command of a power relay was not off, or there was none. */
  ghost predicate Unsafe(s: System) {
    && RunsNewOutlet(s)
    && !(LastIsOff(s, POWER_L1) && LastIsOff(s, POWER_L23))
  }

  ghost predicate RunsNewOutlet(s: System) {
    var w := s.tester.worker;
    w.phase.Round? && w.phase.next < |w.order| && w.order[w.phase.next] == OUTLET &&
    OUTLET in w.actions && w.actions[OUTLET] !in w.fired
  }

  ghost predicate LastIsOff(s: System, p: Position) {
    var d := LastDone(s.tester.worker.log, p);
    d.Some? && d.value < |s.tester.puts| && s.tester.puts[d.value].command == ALL_OFF
  }

  // ---------------------------------------------------------------------------------------
  // The caller: what its script relies on

  /** Each put of the script is allowed by the puts and events before it, when every wait of
      the script has returned with its events set. */
  ghost predicate Allowed(puts: seq<Item>, fired: set<nat>, todo: seq<Op>)
    decreases |todo|
  {
    todo == [] ||
    match todo[0]
    case Queue(item) =>
      && (item.position == OUTLET ==> PowerOffDone(puts, |puts|, fired))
      && (SwitchesPower(item) ==> OutletDone(puts, |puts|, fired))
      && Allowed(puts + [item], fired, todo[1..])
    case Wait(n) => Allowed(puts, fired + LastEvents(|puts|, n), todo[1..])
    case Raise => true
  }

  lemma {:induction false} AllowedWithMore(puts: seq<Item>, fired: set<nat>, more: set<nat>, todo: seq<Op>)
    requires Allowed(puts, fired, todo) && fired <= more
    ensures Allowed(puts, more, todo)
    decreases |todo|
  {
    if todo != [] {
      match todo[0]
      case Queue(item) => AllowedWithMore(puts + [item], fired, more, todo[1..]);
      case Wait(n) => AllowedWithMore(puts, fired + LastEvents(|puts|, n), more + LastEvents(|puts|, n), todo[1..]);
      case Raise =>
    }
  }

  lemma {:induction false} WaitThen(puts: seq<Item>, fired: set<nat>, n: nat, rest: seq<Op>)
    requires Allowed(puts, fired + LastEvents(|puts|, n), rest)
    ensures Allowed(puts, fired, [Wait(n)] + rest)
  {
    assert ([Wait(n)] + rest)[1..] == rest;
  }

  /** Operations on other relays only. */
  ghost predicate Harmless(todo: seq<Op>) {
    forall i | 0 <= i < |todo| :: !todo[i].Raise? && (todo[i].Queue? ==> !Guarded(todo[i].item.position))
  }

  /** Other relays may be switched at any time. */
  lemma {:induction false} HarmlessIsAllowed(puts: seq<Item>, fired: set<nat>, todo: seq<Op>)
    requires Harmless(todo)
    ensures Allowed(puts, fired, todo)
    decreases |todo|
  {
    if todo != [] {
      match todo[0]
      case Queue(item) => HarmlessIsAllowed(puts + [item], fired, todo[1..]);
      case Wait(n) => HarmlessIsAllowed(puts, fired + LastEvents(|puts|, n), todo[1..]);
    }
  }

  /** Power may be connected once the last outlet command has completed. */
  lemma {:induction false} WarpPowerIsAllowed(puts: seq<Item>, fired: set<nat>, phases: set<Line>)
    requires phases != {} ==> OutletDone(puts, |puts|, fired)
    ensures Allowed(puts, fired, ConnectWarpPower(phases))
  {
    var todo := ConnectWarpPower(phases);
    if todo[0].Queue? {
      var a, b := todo[0].item, todo[1].item;
      assert todo == [Queue(a)] + ([Queue(b)] + ([Wait(2)] + []));
      LastBeforeGrown(puts, a, |puts|, OUTLET);
      WaitThen(puts + [a] + [b], fired, 2, []);
    }
  }

  lemma {:induction false} HarmlessThenPower(puts: seq<Item>, fired: set<nat>, todo: seq<Op>, phases: set<Line>)
    requires Harmless(todo) && OutletDone(puts, |puts|, fired)
    ensures Allowed(puts, fired, todo + ConnectWarpPower(phases))
    decreases |todo|
  {
    var rest := ConnectWarpPower(phases);
    if todo == [] {
      assert todo + rest == rest;
      WarpPowerIsAllowed(puts, fired, phases);
    } else {
      assert todo + rest == [todo[0]] + (todo[1..] + rest);
      match todo[0]
      case Queue(item) =>
        LastBeforeGrown(puts, item, |puts|, OUTLET);
        HarmlessThenPower(puts + [item], fired, todo[1..], phases);
      case Wait(n) =>
        HarmlessThenPower(puts, fired + LastEvents(|puts|, n), todo[1..], phases);
        WaitThen(puts, fired, n, todo[1..] + rest);
    }
  }

  /** After power was switched off and this has completed, the outlet may be switched; what
      comes next can rely on its completion. */
  lemma {:induction false} FrontIsAllowed(puts: seq<Item>, fired: set<nat>, outlet: Outlet, rest: seq<Op>)
    requires forall p: seq<Item>, f: set<nat> | OutletDone(p, |p|, f) :: Allowed(p, f, rest)
    ensures Allowed(puts, fired, ConnectWarpPower({}) + (ConnectOutlet(outlet) + rest))
  {
    var a, b, c := Item(POWER_L1, ALL_OFF), Item(POWER_L23, ALL_OFF), Item(OUTLET, OutletCommand(outlet));
    var pa, n := puts + [a], |puts|;
    var pb := pa + [b];
    var pc := pb + [c];
    var f2 := fired + LastEvents(n + 2, 2);
    var f3 := f2 + LastEvents(n + 3, 1);
    assert LastEvents(n + 2, 2) == {n + 1} + ({n} + LastEvents(n, 0));
    assert n in f2 && n + 1 in f2;
    assert LastBefore(pb, n + 2, POWER_L23) == Some(n + 1);
    assert LastBefore(pb, n + 2, POWER_L1) == Some(n) by {
      assert LastBefore(pb, n + 1, POWER_L1) == Some(n);
    }
    assert LastBefore(pc, n + 3, OUTLET) == Some(n + 2);
    assert n + 2 in f3;
    assert Allowed(pc, f3, rest);
    WaitThen(pc, f2, 1, rest);
    WaitThen(pb, fired, 2, [Queue(c)] + ([Wait(1)] + rest));
    assert ConnectWarpPower({}) + (ConnectOutlet(outlet) + rest)
      == [Queue(a)] + ([Queue(b)] + ([Wait(2)] + ([Queue(c)] + ([Wait(1)] + rest))));
  }

  /** Every call, started when the discipline permits it, relies on what it has waited for. */
  lemma {:induction false} ScriptIsAllowed(puts: seq<Item>, fired: set<nat>, call: Call)
    requires call.WarpPower? && call.phases != {} ==> OutletDone(puts, |puts|, fired)
    requires call.Relays? ==> forall i | 0 <= i < |call.items| :: !Guarded(call.items[i].position)
    ensures Allowed(puts, fired, Script(call))
  {
    match call
    case WarpPower(phases) => WarpPowerIsAllowed(puts, fired, phases);
    case Relays(items) => HarmlessIsAllowed(puts, fired, ConnectRelays(items));
    case PowerOff =>
      forall p: seq<Item>, f: set<nat> ensures Allowed(p, f, ResetRelays()) {
        HarmlessIsAllowed(p, f, ResetRelays());
      }
      FrontIsAllowed(puts, fired, CEE, ResetRelays());
      Assoc(ConnectWarpPower({}), ConnectOutlet(CEE), ResetRelays());
    case PowerOn(outlet, phases) =>
      var rest := ResetRelays() + ConnectWarpPower(phases);
      forall p: seq<Item>, f: set<nat> | OutletDone(p, |p|, f) ensures Allowed(p, f, rest) {
        HarmlessThenPower(p, f, ResetRelays(), phases);
      }
      FrontIsAllowed(puts, fired, outlet, rest);
      Assoc(ConnectWarpPower({}) + ConnectOutlet(outlet), ResetRelays(), ConnectWarpPower(phases));
      Assoc(ConnectWarpPower({}), ConnectOutlet(outlet), rest);
  }

  // ---------------------------------------------------------------------------------------
  // A call that returns leaves the outlet settled

  /** When every wait of the script has returned, the last outlet command has completed. */
  ghost predicate Settles(puts: seq<Item>, fired: set<nat>, todo: seq<Op>)
    decreases |todo|
  {
    if todo == [] then OutletDone(puts, |puts|, fired)
    else
      match todo[0]
      case Queue(item) => Settles(puts + [item], fired, todo[1..])
      case Wait(n) => Settles(puts, fired + LastEvents(|puts|, n), todo[1..])
      case Raise => OutletDone(puts, |puts|, fired)
  }

  lemma {:induction false} SettlesWithMore(puts: seq<Item>, fired: set<nat>, more: set<nat>, todo: seq<Op>)
    requires Settles(puts, fired, todo) && fired <= more
    ensures Settles(puts, more, todo)
    decreases |todo|
  {
    if todo != [] {
      match todo[0]
      case Queue(item) => SettlesWithMore(puts + [item], fired, more, todo[1..]);
      case Wait(n) => SettlesWithMore(puts, fired + LastEvents(|puts|, n), more + LastEvents(|puts|, n), todo[1..]);
      case Raise =>
    }
  }

  ghost predicate LeavesOutlet(todo: seq<Op>) {
    forall i | 0 <= i < |todo| && todo[i].Queue? :: todo[i].item.position != OUTLET
  }

  lemma {:induction false} LeavingOutletSettles(puts: seq<Item>, fired: set<nat>, todo: seq<Op>)
    requires LeavesOutlet(todo) && OutletDone(puts, |puts|, fired)
    ensures Settles(puts, fired, todo)
    decreases |todo|
  {
    if todo != [] {
      match todo[0]
      case Queue(item) =>
        LastBeforeGrown(puts, item, |puts|, OUTLET);
        LeavingOutletSettles(puts + [item], fired, todo[1..]);
      case Wait(n) => LeavingOutletSettles(puts, fired + LastEvents(|puts|, n), todo[1..]);
      case Raise =>
    }
  }

  lemma {:induction false} QueueSettles(puts: seq<Item>, fired: set<nat>, item: Item, rest: seq<Op>)
    ensures Settles(puts, fired, [Queue(item)] + rest) == Settles(puts + [item], fired, rest)
  {
    assert ([Queue(item)] + rest)[1..] == rest;
  }

  lemma {:induction false} FrontSettles(puts: seq<Item>, fired: set<nat>, outlet: Outlet, rest: seq<Op>)
    requires LeavesOutlet(rest)
    ensures Settles(puts, fired, ConnectWarpPower({}) + (ConnectOutlet(outlet) + rest))
  {
    var a, b, c := Item(POWER_L1, ALL_OFF), Item(POWER_L23, ALL_OFF), Item(OUTLET, OutletCommand(outlet));
    var pb := puts + [a] + [b];
    var pc := pb + [c];
    var f2 := fired + LastEvents(|pb|, 2);
    assert LastBefore(pc, |pc|, OUTLET) == Some(|pb|);
    assert LastEvents(|pc|, 1) == {|pb|} + LastEvents(|pb|, 0);
    LeavingOutletSettles(pc, f2 + LastEvents(|pc|, 1), rest);
    QueueSettles(pb, f2, c, [Wait(1)] + rest);
    QueueSettles(puts + [a], fired, b, [Wait(2)] + ([Queue(c)] + ([Wait(1)] + rest)));
    QueueSettles(puts, fired, a, [Queue(b)] + ([Wait(2)] + ([Queue(c)] + ([Wait(1)] + rest))));
    assert ConnectWarpPower({}) + (ConnectOutlet(outlet) + rest)
      == [Queue(a)] + ([Queue(b)] + ([Wait(2)] + ([Queue(c)] + ([Wait(1)] + rest))));
  }

  /** `power_on` and `power_off` settle the outlet from any state, all other calls leave it as it
      is. */
  lemma {:induction false} ScriptSettles(puts: seq<Item>, fired: set<nat>, call: Call)
    requires call.PowerOn? || call.PowerOff? || OutletDone(puts, |puts|, fired)
    requires call.Relays? ==> forall i | 0 <= i < |call.items| :: !Guarded(call.items[i].position)
    ensures Settles(puts, fired, Script(call))
  {
    match call
    case WarpPower(phases) => LeavingOutletSettles(puts, fired, Script(call));
    case Relays(items) => LeavingOutletSettles(puts, fired, Script(call));
    case PowerOff =>
      FrontSettles(puts, fired, CEE, ResetRelays());
      Assoc(ConnectWarpPower({}), ConnectOutlet(CEE), ResetRelays());
    case PowerOn(outlet, phases) =>
      var rest := ResetRelays() + ConnectWarpPower(phases);
      FrontSettles(puts, fired, outlet, rest);
      Assoc(ConnectWarpPower({}) + ConnectOutlet(outlet), ResetRelays(), ConnectWarpPower(phases));
      Assoc(ConnectWarpPower({}), ConnectOutlet(outlet), rest);
  }

  ghost predicate WillSettle(s: System) {
    Settles(s.tester.puts, s.tester.worker.fired, s.todo)
  }

  lemma {:induction false} ActSettles(s: System, a: Act)
    requires CanHappen(s, a) && !a.GiveUp?
    requires WillSettle(s) || (a.Issue? && (a.call.PowerOn? || a.call.PowerOff?))
    ensures WillSettle(Happen(s, a))
  {
    var t := s.tester;
    match a
    case Issue(call) => ScriptSettles(t.puts, t.worker.fired, call);
    case Proceed =>
      if s.todo[0].Wait? {
        assert t.worker.fired + LastEvents(|t.puts|, s.todo[0].n) == t.worker.fired;
      }
    case Work(m) =>
      FiredGrows(t, m);
      SettlesWithMore(t.puts, t.worker.fired, Do(t, m).worker.fired, s.todo);
  }

  /** While no call has been given up, the outlet is settled or the call under way settles it. */
  lemma {:induction false} CleanRunSettles(run: seq<Act>, s: System)
    requires Outcome(run) == Some(s) && Clean(run)
    ensures WillSettle(s)
  {
    if run != [] {
      var before, a := run[..|run| - 1], run[|run| - 1];
      var r := Outcome(before).value;
      if !(a.Issue? && (a.call.PowerOn? || a.call.PowerOff?)) {
        CleanRunSettles(before, r);
      }
      ActSettles(r, a);
    }
  }

  /** So callers that keep to their order connect power directly only with the outlet settled. */
  lemma {:induction false} CallersAreDisciplined(run: seq<Act>)
    requires Outcome(run).Some? && CallersOrder(run)
    ensures Disciplined(run)
  {
    if run != [] {
      var before := run[..|run| - 1];
      CallersAreDisciplined(before);
      if ConnectsPower(run[|run| - 1]) {
        CleanRunSettles(before, Outcome(before).value);
      }
    }
  }

  // ---------------------------------------------------------------------------------------
  // The invariant of the composed system

  /** Every outlet command was put with power off, and every power-on with the outlet done. */
  ghost predicate PutInOrder(t: Tester) {
    forall n | 0 <= n < |t.puts| :: PutAt(t.puts, n, t.worker.fired)
  }

  ghost predicate PutAt(puts: seq<Item>, n: nat, fired: set<nat>)
    requires n < |puts|
  {
    && (puts[n].position == OUTLET ==> PowerOffDone(puts, n, fired))
    && (SwitchesPower(puts[n]) ==> OutletDone(puts, n, fired))
  }

  /** Power was installed before the outlet, so each round runs it first. */
  ghost predicate PowerFirst(w: Worker) {
    forall i | 0 <= i < |w.order| && w.order[i] == OUTLET :: POWER_L1 in w.order[..i]
  }

  ghost predicate Kept(s: System) {
    && Sound(s.tester)
    && PutInOrder(s.tester)
    && PowerFirst(s.tester.worker)
    && Allowed(s.tester.puts, s.tester.worker.fired, s.todo)
  }

  lemma {:induction false} PutAtGrown(puts: seq<Item>, item: Item, n: nat, fired: set<nat>)
    requires n < |puts| && PutAt(puts, n, fired)
    ensures PutAt(puts + [item], n, fired)
  {
    LastBeforeGrown(puts, item, n, OUTLET);
    LastBeforeGrown(puts, item, n, POWER_L1);
    LastBeforeGrown(puts, item, n, POWER_L23);
  }

  lemma {:induction false} QueueKeeps(s: System)
    requires Kept(s) && s.todo != [] && s.todo[0].Queue?
    ensures Kept(Happen(s, Proceed))
  {
    var t, item := s.tester, s.todo[0].item;
    var u := Do(t, Put(item));
    PutKeeps(t, item);
    forall n | 0 <= n < |u.puts| ensures PutAt(u.puts, n, u.worker.fired) {
      if n < |t.puts| {
        assert PutAt(t.puts, n, t.worker.fired);
        PutAtGrown(t.puts, item, n, t.worker.fired);
      } else {
        LastBeforeGrown(t.puts, item, n, OUTLET);
        LastBeforeGrown(t.puts, item, n, POWER_L1);
        LastBeforeGrown(t.puts, item, n, POWER_L23);
      }
    }
  }

  lemma {:induction false} ProceedKeeps(s: System)
    requires Kept(s) && CanHappen(s, Proceed)
    ensures Kept(Happen(s, Proceed))
  {
    match s.todo[0]
    case Queue(_) => QueueKeeps(s);
    case Wait(n) =>
      var fired := s.tester.worker.fired;
      assert fired + LastEvents(|s.tester.puts|, n) == fired;
    case Raise =>
  }

  lemma {:induction false} TakeKeepsPowerFirst(t: Tester)
    requires Sound(t) && PutInOrder(t) && PowerFirst(t.worker) && Possible(t, Take)
    ensures PowerFirst(Do(t, Take).worker)
  {
    var p, w, v := t.puts[t.taken].position, t.worker, Do(t, Take).worker;
    assert Knows(t, POWER_L1);
    assert PutAt(t.puts, t.taken, w.fired);
    forall i | 0 <= i < |v.order| && v.order[i] == OUTLET ensures POWER_L1 in v.order[..i] {
      assert i < |w.order| ==> v.order[..i] == w.order[..i];
      assert i >= |w.order| ==> v.order[..i] == w.order && POWER_L1 in w.actions;
    }
  }

  lemma {:induction false} WorkKeeps(s: System, m: Move)
    requires Kept(s) && CanHappen(s, Work(m))
    ensures Kept(Happen(s, Work(m)))
  {
    var t := s.tester;
    var u := Do(t, m);
    MoveKeeps(t, m);
    FiredGrows(t, m);
    AllowedWithMore(t.puts, t.worker.fired, u.worker.fired, s.todo);
    forall n | 0 <= n < |u.puts| ensures PutAt(u.puts, n, u.worker.fired) {
      assert PutAt(t.puts, n, t.worker.fired);
    }
    if m.Take? {
      TakeKeepsPowerFirst(t);
    } else {
      assert u.worker.order == t.worker.order;
    }
  }

  lemma {:induction false} DisciplinedRunKept(run: seq<Act>, s: System)
    requires Outcome(run) == Some(s) && Disciplined(run)
    ensures Kept(s)
  {
    if run == [] {
      EveryRunIsSound([], PREPARED);
    } else {
      var before, a := run[..|run| - 1], run[|run| - 1];
      var r := Outcome(before).value;
      DisciplinedRunKept(before, r);
      match a
      case Issue(call) => ScriptIsAllowed(r.tester.puts, r.tester.worker.fired, call);
      case Proceed => ProceedKeeps(r);
      case GiveUp =>
      case Work(m) => WorkKeeps(r, m);
    }
  }

  /** Whatever the callers in their order, the worker and the devices do. */
  lemma {:induction false} EveryRunKept(run: seq<Act>, s: System)
    requires Outcome(run) == Some(s) && CallersOrder(run)
    ensures Kept(s)
  {
    CallersAreDisciplined(run);
    DisciplinedRunKept(run, s);
  }

  // ---------------------------------------------------------------------------------------
  // The promises

  /** `e` is the last outlet command that the worker has taken, and has not completed; `k` is
      the off command for a power relay before it. Then any command for that relay since `k`
      that the worker has taken is off. */
  lemma {:induction false} TakenPowerIsOff(puts: seq<Item>, taken: nat, fired: set<nat>, p: Position, e: nat,
    k: nat, d: nat)
    requires d < taken <= |puts| && puts[d].position == p && (p == POWER_L1 || p == POWER_L23)
    requires LastBefore(puts, taken, OUTLET) == Some(e) && e !in fired
    requires LastBefore(puts, e, p) == Some(k) && puts[k].command == ALL_OFF && k <= d
    requires PutAt(puts, d, fired)
    ensures puts[d].command == ALL_OFF
  {
    assert e < d ==> LastBefore(puts, d, OUTLET) == Some(e);
    assert d < e ==> d == k;
  }

  lemma {:induction false} SettledRunIsSafe(run: seq<Act>, s: System)
    requires Outcome(run) == Some(s) && Disciplined(run)
    ensures !Unsafe(s)
    ensures RunsNewOutlet(s) ==> forall p | p in {POWER_L1, POWER_L23} ::
      p in s.tester.worker.actions && s.tester.worker.actions[p] < |s.tester.puts| &&
      s.tester.puts[s.tester.worker.actions[p]].command == ALL_OFF
  {
    DisciplinedRunKept(run, s);
    var t := s.tester;
    if RunsNewOutlet(s) {
      var e := t.worker.actions[OUTLET];
      forall p | p in {POWER_L1, POWER_L23}
        ensures LastIsOff(s, p)
        ensures p in t.worker.actions && t.worker.actions[p] < |t.puts| &&
          t.puts[t.worker.actions[p]].command == ALL_OFF
      {
        assert Knows(t, OUTLET) && Knows(t, p);
        assert PutAt(t.puts, e, t.worker.fired);
        var k := LastBefore(t.puts, e, p).value;
        assert Passed(t, k);
        var d, i := LastDone(t.worker.log, p).value, t.worker.actions[p];
        assert PutAt(t.puts, d, t.worker.fired) && PutAt(t.puts, i, t.worker.fired);
        TakenPowerIsOff(t.puts, t.taken, t.worker.fired, p, e, k, d);
        TakenPowerIsOff(t.puts, t.taken, t.worker.fired, p, e, k, i);
      }
    }
  }

  /** In every run of callers that keep to their order, an outlet command that has not completed
      is run only while the last completed and the installed command of both power relays are
      off. */
  lemma {:induction false} OutletRunsWithPowerOff(run: seq<Act>, s: System)
    requires Outcome(run) == Some(s) && CallersOrder(run)
    ensures !Unsafe(s)
    ensures RunsNewOutlet(s) ==> forall p | p in {POWER_L1, POWER_L23} ::
      p in s.tester.worker.actions && s.tester.worker.actions[p] < |s.tester.puts| &&
      s.tester.puts[s.tester.worker.actions[p]].command == ALL_OFF
  {
    CallersAreDisciplined(run);
    SettledRunIsSafe(run, s);
  }

  lemma {:induction false} OneMore(run: seq<Act>, s: System, a: Act)
    requires Outcome(run) == Some(s) && CanHappen(s, a)
    ensures Outcome(run + [a]) == Some(Happen(s, a))
  {
    assert (run + [a])[..|run|] == run;
  }

  /** In a round, an outlet command that has not completed waits at `order[i]`; power is
      installed on, and has completed or is yet to run before the outlet. */
  ghost predicate Approaches(s: System, i: nat, j: nat, x: nat) {
    var t, w := s.tester, s.tester.worker;
    && w.phase.Round? && w.phase.next <= i < |w.order| && w.order[i] == OUTLET
    && OUTLET in w.actions && w.actions[OUTLET] !in w.fired
    && POWER_L1 in w.actions && w.actions[POWER_L1] == x && x < |t.puts| && t.puts[x].command != ALL_OFF
    && j < i && w.order[j] == POWER_L1
    && (w.phase.next <= j || LastDone(w.log, POWER_L1) == Some(x))
  }

  lemma {:induction false} ApproachStep(s: System, i: nat, j: nat, x: nat)
    requires Approaches(s, i, j, x) && s.tester.worker.phase.next < i
    requires Possible(s.tester, Reply(true))
    requires var q := s.tester.worker.order[s.tester.worker.phase.next];
      q != OUTLET && Knows(s.tester, q) && Knows(s.tester, OUTLET) && Knows(s.tester, POWER_L1)
    ensures var v := Happen(s, Work(Reply(true)));
      Approaches(v, i, j, x) && v.tester.worker.phase.next == s.tester.worker.phase.next + 1
  {
    ReplyKnows(s.tester, true, POWER_L1);
  }

  lemma {:induction false} SoundApproachStep(s: System, i: nat, j: nat, x: nat)
    requires Sound(s.tester) && Approaches(s, i, j, x) && s.tester.worker.phase.next < i
    ensures CanHappen(s, Work(Reply(true)))
    ensures var v := Happen(s, Work(Reply(true)));
      Sound(v.tester) && Approaches(v, i, j, x) && v.tester.worker.phase.next == s.tester.worker.phase.next + 1
  {
    assert Knows(s.tester, s.tester.worker.order[s.tester.worker.phase.next]);
    assert Knows(s.tester, OUTLET) && Knows(s.tester, POWER_L1);
    ReplyKeeps(s.tester, true);
    ApproachStep(s, i, j, x);
  }

  lemma {:induction false} Approach(run: seq<Act>, s: System, i: nat, j: nat, x: nat)
    returns (more: seq<Act>, v: System)
    requires Outcome(run) == Some(s) && Sound(s.tester) && Approaches(s, i, j, x)
    ensures forall k | 0 <= k < |more| :: more[k] == Work(Reply(true))
    ensures Outcome(run + more) == Some(v) && Unsafe(v)
    decreases i - s.tester.worker.phase.next
  {
    if s.tester.worker.phase.next == i {
      more, v := [], s;
      assert run + more == run;
    } else {
      SoundApproachStep(s, i, j, x);
      OneMore(run, s, Work(Reply(true)));
      var rest;
      rest, v := Approach(run + [Work(Reply(true))], Happen(s, Work(Reply(true))), i, j, x);
      more := [Work(Reply(true))] + rest;
      Assoc(run, [Work(Reply(true))], rest);
    }
  }

  /** The order is needed: were a procedure to go on after an outlet command was given up without
      completing, the power that it connects could reach the relay before the outlet command is
      retried, with every device answering. */
  lemma {:induction false} UnsettledOutletIsUnsafe(run: seq<Act>, s: System) returns (more: seq<Act>, v: System)
    requires Outcome(run) == Some(s) && Disciplined(run)
    requires s.todo == [] && s.tester.worker.phase.Head? && s.tester.taken == |s.tester.puts|
    requires !OutletSettled(s)
    ensures Outcome(run + [Issue(WarpPower({L1})), Proceed, Work(Take)] + more) == Some(v) && Unsafe(v)
    ensures forall k | 0 <= k < |more| :: more[k] == Work(Reply(true))
  {
    DisciplinedRunKept(run, s);
    var t, item := s.tester, Item(POWER_L1, [Pulse, Pulse]);
    var x := |t.puts|;
    var s1 := Happen(s, Issue(WarpPower({L1})));
    assert s1.todo[0] == Queue(item);
    var s2 := Happen(s1, Proceed);
    PutKeeps(t, item);
    BeginKeeps(s2.tester, Take);
    var s3 := Happen(s2, Work(Take));
    OneMore(run, s, Issue(WarpPower({L1})));
    OneMore(run + [Issue(WarpPower({L1}))], s1, Proceed);
    OneMore(run + [Issue(WarpPower({L1}))] + [Proceed], s2, Work(Take));
    var all := run + [Issue(WarpPower({L1})), Proceed, Work(Take)];
    assert all == run + [Issue(WarpPower({L1}))] + [Proceed] + [Work(Take)];
    var i, j := Arrives(s, s3, x);
    more, v := Approach(all, s3, i, j, x);
  }

  /** What an unsettled outlet means for the worker when all puts are taken. */
  lemma {:induction false} UnsettledMeans(s: System) returns (i: nat, j: nat)
    requires Kept(s) && !OutletSettled(s) && s.tester.taken == |s.tester.puts|
    ensures var w := s.tester.worker;
      && OUTLET in w.actions && w.actions[OUTLET] !in w.fired && POWER_L1 in w.actions
      && j < i < |w.order| && w.order[i] == OUTLET && w.order[j] == POWER_L1
  {
    var t, w := s.tester, s.tester.worker;
    var e := LastBefore(t.puts, |t.puts|, OUTLET).value;
    assert PutAt(t.puts, e, w.fired);
    assert Knows(t, OUTLET) && Knows(t, POWER_L1);
    assert OUTLET in w.order;
    i :| 0 <= i < |w.order| && w.order[i] == OUTLET;
    j :| 0 <= j < i && w.order[..i][j] == POWER_L1;
  }

  lemma {:induction false} Arrives(s: System, v: System, x: nat) returns (i: nat, j: nat)
    requires Kept(s) && !OutletSettled(s) && x == s.tester.taken == |s.tester.puts| && s.tester.worker.phase.Head?
    requires v.tester == Do(Do(s.tester, Put(Item(POWER_L1, [Pulse, Pulse]))), Take)
    ensures Approaches(v, i, j, x)
  {
    i, j := UnsettledMeans(s);
    assert v.tester.worker.order == s.tester.worker.order;
  }

  // ---------------------------------------------------------------------------------------
  // Such a run exists

  /** No procedure has connected power on its own. */
  ghost predicate NoDirectPower(run: seq<Act>) {
    forall k | 0 <= k < |run| && run[k].Issue? :: !run[k].call.WarpPower?
  }

  lemma {:induction false} NoDirectPowerIsInOrder(run: seq<Act>)
    requires NoDirectPower(run)
    ensures CallersOrder(run)
  {
    if run != [] {
      NoDirectPowerIsInOrder(run[..|run| - 1]);
    }
  }

  ghost predicate At(run: seq<Act>, s: System) {
    Outcome(run) == Some(s) && NoDirectPower(run)
  }

  lemma {:induction false} Next(run: seq<Act>, s: System, a: Act) returns (r: seq<Act>, v: System)
    requires At(run, s) && CanHappen(s, a) && (a.Issue? ==> !a.call.WarpPower?)
    ensures At(r, v) && v == Happen(s, a)
  {
    OneMore(run, s, a);
    r, v := run + [a], Happen(s, a);
  }

  /** These functions are installed in this order, and none has failed. */
  ghost predicate Holds(
    w: Worker, order: seq<Position>, ids: map<Position, nat>, events: map<Position, nat>, fired: set<nat>, phase: Phase)
  {
    && w.order == order && w.actions == ids && w.events == events && w.fired == fired && w.phase == phase
    && w.tries.Keys == ids.Keys && forall p | p in w.tries :: w.tries[p] == TRY_COUNT
  }

  lemma {:induction false} PowerOffIsQueued() returns (run: seq<Act>, s: System)
    ensures At(run, s)
    ensures s.tester == Tester([Item(POWER_L1, ALL_OFF), Item(POWER_L23, ALL_OFF)], 0, FRESH)
    ensures s.todo == [Wait(2)] + (ConnectOutlet(CEE) + ResetRelays())
  {
    var rest := ConnectOutlet(CEE) + ResetRelays();
    run, s := [], START;
    run, s := Next(run, s, Issue(PowerOff));
    Assoc(ConnectWarpPower({}), ConnectOutlet(CEE), ResetRelays());
    assert s.todo == [Queue(Item(POWER_L1, ALL_OFF)), Queue(Item(POWER_L23, ALL_OFF)), Wait(2)] + rest;
    run, s := Next(run, s, Proceed);
    run, s := Next(run, s, Proceed);
    assert s.todo == [Wait(2)] + rest;
  }

  lemma {:induction false} PowerGoesOff(before: seq<Act>, b: System) returns (run: seq<Act>, s: System)
    requires At(before, b) && b.tester == Tester([Item(POWER_L1, ALL_OFF), Item(POWER_L23, ALL_OFF)], 0, FRESH)
    ensures At(run, s) && s.tester.puts == b.tester.puts && s.tester.taken == 2 && s.todo == b.todo
    ensures Holds(s.tester.worker, [POWER_L1, POWER_L23], map[POWER_L1 := 0, POWER_L23 := 1], map[], {0, 1}, Head)
  {
    run, s := Next(before, b, Work(Take));
    assert Holds(s.tester.worker, [POWER_L1], map[POWER_L1 := 0], map[POWER_L1 := 0], {}, Round(0));
    run, s := Next(run, s, Work(Reply(true)));
    assert Holds(s.tester.worker, [POWER_L1], map[POWER_L1 := 0], map[], {0}, Head);
    run, s := Next(run, s, Work(Take));
    assert Holds(s.tester.worker, [POWER_L1, POWER_L23], map[POWER_L1 := 0, POWER_L23 := 1], map[POWER_L23 := 1],
      {0}, Round(0));
    run, s := Next(run, s, Work(Reply(true)));
    run, s := Next(run, s, Work(Reply(true)));
  }

  /** In the next round the power relays answer and the outlet relay does not. */
  lemma {:induction false} OutletFailsOnce(before: seq<Act>, b: System) returns (run: seq<Act>, s: System)
    requires At(before, b) && |b.tester.puts| == 3 && b.tester.taken == 2 && b.tester.puts[2].position == OUTLET
    requires Holds(b.tester.worker, [POWER_L1, POWER_L23], map[POWER_L1 := 0, POWER_L23 := 1], map[], {0, 1}, Head)
    ensures At(run, s) && s.tester.puts == b.tester.puts && s.tester.taken == 3 && s.todo == b.todo
    ensures s.tester.worker.phase.Head? && s.tester.worker.fired == {0, 1}
  {
    run, s := Next(before, b, Work(Take));
    var order, ids := [POWER_L1, POWER_L23, OUTLET], map[POWER_L1 := 0, POWER_L23 := 1, OUTLET := 2];
    assert Holds(s.tester.worker, order, ids, map[OUTLET := 2], {0, 1}, Round(0));
    run, s := Next(run, s, Work(Reply(true)));
    assert Holds(s.tester.worker, order, ids, map[OUTLET := 2], {0, 1}, Round(1));
    run, s := Next(run, s, Work(Reply(true)));
    assert Holds(s.tester.worker, order, ids, map[OUTLET := 2], {0, 1}, Round(2));
    run, s := Next(run, s, Work(Reply(false)));
  }

  /** `power_off` can time out on its outlet command and leave it to the worker to retry. */
  lemma {:induction false} OutletCanBeLeftUnsettled() returns (run: seq<Act>, s: System)
    ensures Outcome(run) == Some(s) && CallersOrder(run)
    ensures s.todo == [] && s.tester.worker.phase.Head? && s.tester.taken == |s.tester.puts| && !OutletSettled(s)
  {
    run, s := PowerOffIsQueued();
    run, s := PowerGoesOff(run, s);
    assert LastEvents(2, 2) == {1} + ({0} + LastEvents(0, 0));
    run, s := Next(run, s, Proceed);
    assert s.todo == ConnectOutlet(CEE) + ResetRelays();
    run, s := Next(run, s, Proceed);
    run, s := Next(run, s, GiveUp);
    run, s := OutletFailsOnce(run, s);
    NoDirectPowerIsInOrder(run);
    assert LastBefore(s.tester.puts, 3, OUTLET) == Some(2);
  }
}
