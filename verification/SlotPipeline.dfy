/** The four-slot tester of the Ethernet Brick: stage after stage edits the dictionaries of the
    slots that are still in the race, and only what is left at the end gets its labels. What
    the devices answer in each stage is an input. */
module SlotPipeline {
  import opened Lines

  type Slot = nat
  type Port = string

  datatype SecureBoot = Unreadable | Active | Inactive

  /** An access point name and its passphrase. */
  datatype Access = Access(ssid: string, passphrase: string)

  /** What a locked brick prints when it is reset. */
  datatype Recovered = Recovered(uid: string, passphrase: string)

  /** The outcome of every stage for a slot, also where the stage does not apply to it. */
  datatype Outcome = Outcome(
    secureBoot: SecureBoot, recovered: Option<Recovered>, flashed: bool, access: Option<Access>,
    wifi: bool, voltage: int, tests: bool, secured: bool)

  type Outcomes = Slot -> Outcome

  datatype Report = Report(voltage: Option<int>, ended: bool)

  /** A written report file: the slot, the name in its path, and whether it is marked. */
  datatype ReportFile = ReportFile(slot: Slot, ssid: string, failure: bool, report: Report)

  // ---------------------------------------------------------------------------------------
  // What the stages mean for one slot

  datatype Check = Recovery | Flash | ReadAccess | Wifi | Voltage | Tests | Securing

  /** A locked brick is recovered, one with secure boot is not flashed again; all others run
      through the whole sequence. */
  function Checks(o: Outcome): set<Check> {
    {Wifi, Voltage, Tests, Securing} +
    match o.secureBoot
    case Unreadable => {Recovery}
    case Active => {ReadAccess}
    case Inactive => {Flash, ReadAccess}
  }

  /** 3.3 V within five per cent, in millivolts. */
  predicate VoltageInRange(voltage: int) {
    3300 * 95 <= voltage * 100 <= 3300 * 105
  }

  predicate Passed(o: Outcome, c: Check) {
    match c
    case Recovery => o.recovered.Some?
    case Flash => o.flashed
    case ReadAccess => o.access.Some?
    case Wifi => o.wifi
    case Voltage => VoltageInRange(o.voltage)
    case Tests => o.tests
    case Securing => o.secured
  }

  ghost predicate PassedAll(o: Outcome) {
    forall c | c in Checks(o) :: Passed(o, c)
  }

  /** The slot got as far as a name. */
  ghost predicate Named(o: Outcome) {
    forall c | c in Checks(o) && (c.Recovery? || c.Flash? || c.ReadAccess?) :: Passed(o, c)
  }

  function LockedAccess(prefix: string, r: Recovered): Access {
    Access(prefix + "-" + r.uid, r.passphrase)
  }

  function AccessOf(prefix: string, o: Outcome): Option<Access> {
    if !o.secureBoot.Unreadable? then o.access
    else if o.recovered.None? then None
    else Some(LockedAccess(prefix, o.recovered.value))
  }

  lemma NamedHasAccess(prefix: string, o: Outcome)
    ensures Named(o) <==> AccessOf(prefix, o).Some? && (o.secureBoot.Inactive? ==> o.flashed)
  {
    assert o.secureBoot.Unreadable? ==> Recovery in Checks(o);
    assert !o.secureBoot.Unreadable? ==> ReadAccess in Checks(o);
    assert o.secureBoot.Inactive? ==> Flash in Checks(o);
  }

  lemma PassedAllMeans(o: Outcome)
    ensures PassedAll(o) <==> Named(o) && o.wifi && 3135 <= o.voltage <= 3465 && o.tests && o.secured
    ensures Named(o) <==>
      if o.secureBoot == Unreadable then o.recovered.Some?
      else o.access.Some? && (o.secureBoot == Inactive ==> o.flashed)
  {
    NamedHasAccess("", o);
    assert {Wifi, Voltage, Tests, Securing} <= Checks(o);
    if Named(o) && o.wifi && VoltageInRange(o.voltage) && o.tests && o.secured {
      forall c | c in Checks(o) ensures Passed(o, c) {
      }
    }
  }

  // ---------------------------------------------------------------------------------------

  function Get<V>(m: map<Slot, V>, k: Slot): Option<V> {
    if k in m then Some(m[k]) else None
  }

  /** What the dictionaries hold for one slot. */
  datatype Entry = Entry(port: Option<Port>, ssid: Option<string>, passphrase: Option<string>, report: Option<Report>)

  const NO_REPORT := Report(None, false)

  function Drop(e: Entry, passes: bool): Entry {
    if passes then e else e.(port := None)
  }

  function WithAccess(port: Port, a: Access): Entry {
    Entry(Some(port), Some(a.ssid), Some(a.passphrase), Some(NO_REPORT))
  }

  function ReadAccessOf(e: Entry, o: Outcome): Entry {
    if e.port.None? then e
    else if o.access.None? then e.(port := None, report := Some(NO_REPORT))
    else WithAccess(e.port.value, o.access.value)
  }

  function Measure(e: Entry, o: Outcome): Entry {
    if e.port.None? || e.report.None? then e
    else Drop(e.(report := Some(e.report.value.(voltage := Some(o.voltage)))), VoltageInRange(o.voltage))
  }

  function Secure(e: Entry, o: Outcome): Entry {
    if e.port.None? || e.report.None? then e
    else if o.secured then e.(report := Some(e.report.value.(ended := true)))
    else Drop(e, false)
  }

  /** A recovered brick joins the others with what it printed. */
  function Rejoin(prefix: string, e: Entry, locked: Option<Port>, found: Option<Recovered>): Entry {
    if locked.Some? && found.Some? then WithAccess(locked.value, LockedAccess(prefix, found.value)) else e
  }

  // What has happened to a slot that started at `port`, stage by stage

  function Unnamed(port: Option<Port>): Entry {
    Entry(port, None, None, None)
  }

  function AfterFlash(port: Option<Port>, o: Outcome): Entry {
    match o.secureBoot
    case Unreadable => Unnamed(None)
    case Active => Unnamed(port)
    case Inactive => Drop(Unnamed(port), o.flashed)
  }

  /** The brick of the slot is locked and tells its name. */
  predicate IsLocked(port: Option<Port>, o: Outcome) {
    o.secureBoot.Unreadable? && port.Some? && o.recovered.Some?
  }

  function AfterAccess(prefix: string, port: Option<Port>, o: Outcome): Entry {
    var locked := IsLocked(port, o);
    Rejoin(prefix, ReadAccessOf(AfterFlash(port, o), o), if locked then port else None,
      if locked then o.recovered else None)
  }

  function AfterVoltage(prefix: string, port: Option<Port>, o: Outcome): Entry {
    Measure(Drop(AfterAccess(prefix, port, o), o.wifi), o)
  }

  function AfterAll(prefix: string, port: Option<Port>, o: Outcome): Entry {
    Secure(Drop(AfterVoltage(prefix, port, o), o.tests), o)
  }

  /** The report holds a voltage if the slot got as far, and an end if it passed. */
  ghost function FinalReport(o: Outcome): Report {
    Report(if o.wifi then Some(o.voltage) else None, PassedAll(o))
  }

  /** A slot is left at the end, at its own port, exactly if it passed all checks that apply to
      it; it has a name, passphrase and report exactly if it got as far as a name. */
  lemma SlotMeans(prefix: string, port: Option<Port>, o: Outcome)
    ensures
      var e := AfterAll(prefix, port, o);
      && e.port == (if PassedAll(o) then port else None)
      && (port.Some? && Named(o) ==>
           && AccessOf(prefix, o).Some?
           && e.ssid == Some(AccessOf(prefix, o).value.ssid)
           && e.passphrase == Some(AccessOf(prefix, o).value.passphrase)
           && e.report == Some(FinalReport(o)))
      && (port.None? || !Named(o) ==> e.ssid == None && e.passphrase == None)
  {
    NamedHasAccess(prefix, o);
    PassedAllMeans(o);
  }

  /** The loops over a dictionary visit its slots in some order; `todo` holds those to come. */
  class Tester {
    var serial: map<Slot, Port>
    var ssid: map<Slot, string>
    var passphrase: map<Slot, string>
    var reports: map<Slot, Report>
    var files: seq<ReportFile>

    ghost function View(k: Slot): Entry
      reads this
    {
      Entry(Get(serial, k), Get(ssid, k), Get(passphrase, k), Get(reports, k))
    }

    /** Every slot in the race has a report. */
    ghost predicate Reported()
      reads this
    {
      forall k: Slot :: View(k).port.Some? ==> View(k).report.Some?
    }

    lemma ReportedKeys()
      requires Reported()
      ensures serial.Keys <= reports.Keys
    {
      forall k | k in serial ensures k in reports {
        assert View(k).port.Some?;
      }
    }

    constructor (ports: map<Slot, Port>)
      ensures serial == ports && ssid == map[] && passphrase == map[] && reports == map[] && files == []
    {
      serial, ssid, passphrase, reports, files := ports, map[], map[], map[], [];
    }

    /** A stage that runs on all slots and drops those for which it fails. */
    method DropFailed(o: Outcomes, c: Check)
      modifies this`serial
      ensures forall k: Slot :: View(k) == Drop(old(View(k)), Passed(o(k), c))
    {
      var todo := serial.Keys;
      while todo != {}
        invariant todo <= serial.Keys
        invariant forall k: Slot :: View(k) == if k in todo then old(View(k)) else Drop(old(View(k)), Passed(o(k), c))
        decreases |todo|
      {
        var k :| k in todo;
        todo := todo - {k};
        if !Passed(o(k), c) {
          serial := serial - {k};
        }
      }
    }

    method Pop(k: Slot) returns (port: Port)
      requires k in serial
      modifies this`serial
      ensures port == old(serial)[k] && Get(serial, k).None?
      ensures forall j: Slot | j != k :: Get(serial, j) == old(Get(serial, j))
    {
      port := serial[k];
      serial := serial - {k};
    }

    /** The slots without an answer and those with secure boot leave the dictionary. */
    method CheckSecureBoot(o: Outcomes) returns (secured: map<Slot, Port>, lockedOrEmpty: map<Slot, Port>)
      modifies this`serial
      ensures forall k: Slot :: View(k) == Drop(old(View(k)), o(k).secureBoot.Inactive?)
      ensures forall k: Slot :: Get(secured, k) == if o(k).secureBoot.Active? then old(Get(serial, k)) else None
      ensures forall k: Slot ::
        Get(lockedOrEmpty, k) == if o(k).secureBoot.Unreadable? then old(Get(serial, k)) else None
    {
      secured, lockedOrEmpty := map[], map[];
      var todo := serial.Keys;
      while todo != {}
        invariant todo <= serial.Keys
        invariant forall k: Slot ::
          Get(serial, k) == if k in todo || o(k).secureBoot.Inactive? then old(Get(serial, k)) else None
        invariant forall k: Slot ::
          Get(secured, k) == if o(k).secureBoot.Active? && k !in todo then old(Get(serial, k)) else None
        invariant forall k: Slot ::
          Get(lockedOrEmpty, k) == if o(k).secureBoot.Unreadable? && k !in todo then old(Get(serial, k)) else None
        decreases |todo|
      {
        var k :| k in todo;
        todo := todo - {k};
        match o(k).secureBoot
        case Unreadable =>
          var port := Pop(k);
          lockedOrEmpty := lockedOrEmpty[k := port];
        case Active =>
          var port := Pop(k);
          secured := secured[k := port];
        case Inactive =>
      }
    }

    /** Bricks that do not answer are reset, and print their UID and passphrase if they are
        locked rather than missing. */
    method RecoverLocked(o: Outcomes, lockedOrEmpty: map<Slot, Port>)
      returns (locked: map<Slot, Port>, found: map<Slot, Recovered>)
      ensures forall k: Slot :: Get(locked, k) == if o(k).recovered.Some? then Get(lockedOrEmpty, k) else None
      ensures forall k: Slot :: Get(found, k) == if k in lockedOrEmpty then o(k).recovered else None
    {
      locked, found := map[], map[];
      var todo := lockedOrEmpty.Keys;
      while todo != {}
        invariant todo <= lockedOrEmpty.Keys
        invariant forall k: Slot ::
          Get(locked, k) == if o(k).recovered.Some? && k !in todo then Get(lockedOrEmpty, k) else None
        invariant forall k: Slot :: Get(found, k) == if k in lockedOrEmpty && k !in todo then o(k).recovered else None
        decreases |todo|
      {
        var k :| k in todo;
        todo := todo - {k};
        if o(k).recovered.Some? {
          locked, found := locked[k := lockedOrEmpty[k]], found[k := o(k).recovered.value];
        }
      }
    }

    /** The bricks with secure boot come back in for the tests. */
    method Update(secured: map<Slot, Port>)
      modifies this`serial
      ensures forall k: Slot ::
        View(k) == if k in secured then old(View(k)).(port := Some(secured[k])) else old(View(k))
    {
      serial := serial + secured;
    }

    /** All slots of the dictionary get a report; those that tell their name stay. */
    method ReadAccesses(o: Outcomes)
      requires ssid == map[] && passphrase == map[] && reports == map[]
      modifies this`serial, this`ssid, this`passphrase, this`reports
      ensures forall k: Slot :: View(k) == ReadAccessOf(old(View(k)), o(k))
    {
      reports := map k | k in serial :: NO_REPORT;
      var todo := serial.Keys;
      while todo != {}
        invariant todo <= serial.Keys
        invariant forall k: Slot ::
          View(k) == if k in todo then old(View(k)).(report := Some(NO_REPORT)) else ReadAccessOf(old(View(k)), o(k))
        decreases |todo|
      {
        var k :| k in todo;
        ReadAccess(k, o(k));
        todo := todo - {k};
      }
    }

    method ReadAccess(k: Slot, o: Outcome)
      requires k in serial
      modifies this`serial, this`ssid, this`passphrase
      ensures View(k) ==
        if o.access.None? then old(View(k)).(port := None)
        else old(View(k)).(ssid := Some(o.access.value.ssid), passphrase := Some(o.access.value.passphrase))
      ensures forall j: Slot | j != k :: View(j) == old(View(j))
    {
      match o.access
      case None => serial := serial - {k};
      case Some(a) => ssid, passphrase := ssid[k := a.ssid], passphrase[k := a.passphrase];
    }

    method AddLocked(prefix: string, locked: map<Slot, Port>, found: map<Slot, Recovered>)
      requires locked.Keys == found.Keys
      modifies this`serial, this`ssid, this`passphrase, this`reports
      ensures forall k: Slot :: View(k) == Rejoin(prefix, old(View(k)), Get(locked, k), Get(found, k))
    {
      var todo := locked.Keys;
      while todo != {}
        invariant todo <= locked.Keys
        invariant forall k: Slot ::
          View(k) == if k in todo then old(View(k)) else Rejoin(prefix, old(View(k)), Get(locked, k), Get(found, k))
        decreases |todo|
      {
        var k :| k in todo;
        AddOne(k, locked[k], prefix + "-" + found[k].uid, found[k].passphrase);
        todo := todo - {k};
      }
    }

    method AddOne(k: Slot, port: Port, name: string, secret: string)
      modifies this`serial, this`ssid, this`passphrase, this`reports
      ensures View(k) == WithAccess(port, Access(name, secret))
      ensures forall j: Slot | j != k :: View(j) == old(View(j))
    {
      ssid, passphrase := ssid[k := name], passphrase[k := secret];
      serial, reports := serial[k := port], reports[k := NO_REPORT];
    }

    method RecordVoltage(k: Slot, voltage: int)
      requires k in reports
      modifies this`reports
      ensures reports.Keys == old(reports).Keys
      ensures View(k) == old(View(k)).(report := Some(old(reports)[k].(voltage := Some(voltage))))
      ensures forall j: Slot | j != k :: View(j) == old(View(j))
    {
      reports := reports[k := reports[k].(voltage := Some(voltage))];
    }

    /** The voltage of every slot goes into its report; slots out of range are dropped. */
    method MeasureVoltages(o: Outcomes)
      requires Reported()
      modifies this`serial, this`reports
      ensures forall k: Slot :: View(k) == Measure(old(View(k)), o(k))
    {
      ReportedKeys();
      var failed, todo := {}, serial.Keys;
      while todo != {}
        invariant serial == old(serial) && todo <= serial.Keys <= reports.Keys && failed <= serial.Keys
        invariant forall k: Slot ::
          Drop(View(k), k !in failed) == if k in todo then old(View(k)) else Measure(old(View(k)), o(k))
        decreases |todo|
      {
        var k :| k in todo;
        assert Drop(View(k), k !in failed) == old(View(k));
        todo := todo - {k};
        RecordVoltage(k, o(k).voltage);
        if !VoltageInRange(o(k).voltage) {
          failed := failed + {k};
        }
      }
      assert forall k: Slot :: Drop(View(k), k !in failed) == Measure(old(View(k)), o(k));
      serial := serial - failed;
    }

    method EncryptAndSecure(o: Outcomes)
      requires Reported()
      modifies this`serial, this`reports
      ensures forall k: Slot :: View(k) == Secure(old(View(k)), o(k))
    {
      ReportedKeys();
      var todo := serial.Keys;
      while todo != {}
        invariant todo <= serial.Keys <= reports.Keys
        invariant forall k: Slot :: View(k) == if k in todo then old(View(k)) else Secure(old(View(k)), o(k))
        decreases |todo|
      {
        var k :| k in todo;
        assert View(k) == old(View(k));
        todo := todo - {k};
        if !o(k).secured {
          serial := serial - {k};
        } else {
          reports := reports[k := reports[k].(ended := true)];
        }
      }
    }

    /** One report file for each slot with a name. */
    method WriteReports()
      requires ssid.Keys <= reports.Keys && files == []
      modifies this`files
      ensures |files| == |ssid|
      ensures forall i, j | 0 <= i < j < |files| :: files[i].slot != files[j].slot
      ensures forall k | k in ssid :: ReportFile(k, ssid[k], k !in serial, reports[k]) in files
    {
      var todo := ssid.Keys;
      while todo != {}
        invariant todo <= ssid.Keys
        invariant |files| == |ssid.Keys| - |todo|
        invariant forall i | 0 <= i < |files| :: files[i].slot !in todo
        invariant forall i, j | 0 <= i < j < |files| :: files[i].slot != files[j].slot
        invariant forall k | k in ssid && k !in todo :: ReportFile(k, ssid[k], k !in serial, reports[k]) in files
        decreases |todo|
      {
        var k :| k in todo;
        todo := todo - {k};
        files := files + [ReportFile(k, ssid[k], k !in serial, reports[k])];
      }
    }

    /** From the check of secure boot to stage 0. */
    method Flash(o: Outcomes) returns (locked: map<Slot, Port>, found: map<Slot, Recovered>)
      requires ssid == map[] && passphrase == map[] && reports == map[]
      modifies this`serial
      ensures forall k: Slot :: View(k) == AfterFlash(old(Get(serial, k)), o(k))
      ensures forall k: Slot ::
        Get(locked, k) == if IsLocked(old(Get(serial, k)), o(k)) then old(Get(serial, k)) else None
      ensures forall k: Slot :: Get(found, k) == if IsLocked(old(Get(serial, k)), o(k)) then o(k).recovered else None
    {
      var secured, lockedOrEmpty := CheckSecureBoot(o);
      locked, found := RecoverLocked(o, lockedOrEmpty);
      DropFailed(o, Check.Flash);
      forall k: Slot ensures k in lockedOrEmpty <==> o(k).secureBoot.Unreadable? && old(Get(serial, k)).Some? {
        assert Get(lockedOrEmpty, k).Some? <==> k in lockedOrEmpty;
      }
      forall k: Slot ensures k in secured <==> o(k).secureBoot.Active? && old(Get(serial, k)).Some? {
        assert Get(secured, k).Some? <==> k in secured;
      }
      Update(secured);
    }

    /** From the check of secure boot to the names. */
    method Provision(prefix: string, o: Outcomes)
      requires ssid == map[] && passphrase == map[] && reports == map[]
      modifies this`serial, this`ssid, this`passphrase, this`reports
      ensures forall k: Slot :: View(k) == AfterAccess(prefix, old(Get(serial, k)), o(k))
    {
      var locked, found := Flash(o);
      ReadAccesses(o);
      assert locked.Keys == found.Keys by {
        forall k: Slot ensures k in locked <==> k in found {
          assert Get(locked, k).Some? <==> Get(found, k).Some?;
        }
      }
      AddLocked(prefix, locked, found);
    }

    method Test(o: Outcomes)
      requires Reported()
      modifies this`serial, this`reports
      ensures forall k: Slot :: View(k) == Secure(Drop(Measure(Drop(old(View(k)), o(k).wifi), o(k)), o(k).tests), o(k))
    {
      DropFailed(o, Wifi);
      MeasureVoltages(o);
      DropFailed(o, Tests);
      EncryptAndSecure(o);
    }

    /** All stages. */
    method RunStages(prefix: string, o: Outcomes)
      requires ssid == map[] && passphrase == map[] && reports == map[]
      modifies this`serial, this`ssid, this`passphrase, this`reports
      ensures forall k: Slot :: View(k) == AfterAll(prefix, old(Get(serial, k)), o(k))
    {
      Provision(prefix, o);
      Test(o);
    }

    /** The whole sequence. A slot can reach label printing exactly if it passed every check
        that applies to it, and then at its own port and with its own name and passphrase. Each
        slot with a name has exactly one report, marked as failure exactly if a later check
        failed. */
    method Run(prefix: string, o: Outcomes)
      requires ssid == map[] && passphrase == map[] && reports == map[] && files == []
      modifies this
      ensures forall k: Slot :: k in serial <==> k in old(serial) && PassedAll(o(k))
      ensures forall k | k in serial :: serial[k] == old(serial)[k] && k in ssid
      ensures forall k: Slot :: k in ssid <==> k in old(serial) && Named(o(k))
      ensures passphrase.Keys == ssid.Keys
      ensures forall k | k in ssid :: AccessOf(prefix, o(k)) == Some(Access(ssid[k], passphrase[k]))
      ensures forall k | k in ssid && o(k).secureBoot == Unreadable ::
        o(k).recovered.Some? && ssid[k] == prefix + "-" + o(k).recovered.value.uid &&
        passphrase[k] == o(k).recovered.value.passphrase
      ensures forall k | k in ssid && o(k).secureBoot != Unreadable ::
        o(k).access.Some? && ssid[k] == o(k).access.value.ssid && passphrase[k] == o(k).access.value.passphrase
      ensures |files| == |ssid| && forall i, j | 0 <= i < j < |files| :: files[i].slot != files[j].slot
      ensures forall k | k in ssid ::
        var report := Report(if o(k).wifi then Some(o(k).voltage) else None, PassedAll(o(k)));
        ReportFile(k, ssid[k], !PassedAll(o(k)), report) in files
    {
      RunStages(prefix, o);
      forall k: Slot
        ensures k in serial <==> k in old(serial) && PassedAll(o(k))
        ensures k in serial ==> serial[k] == old(serial)[k]
        ensures k in ssid <==> k in old(serial) && Named(o(k))
        ensures k in passphrase <==> k in ssid
        ensures k in ssid ==> AccessOf(prefix, o(k)) == Some(Access(ssid[k], passphrase[k]))
        ensures k in ssid ==> k in reports && reports[k] == FinalReport(o(k))
      {
        assert View(k) == AfterAll(prefix, old(Get(serial, k)), o(k));
        SlotMeans(prefix, old(Get(serial, k)), o(k));
      }
      forall k | k in serial ensures k in ssid {
        PassedAllMeans(o(k));
      }
      WriteReports();
    }
  }
}
