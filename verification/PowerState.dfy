/** What the calls of the tester have switched when they return: the last completed command of the
    power relays and the outlet relay, in every run of callers and worker. */
module PowerState {
  import opened Lines
  import opened ActionLoop
  import opened TesterQueue
  import opened Interlock

  /** The last command that was completed on a relay. */
  function LastCompleted(s: System, p: Position): Option<Command> {
    var d := LastDone(s.tester.worker.log, p);
    if d.Some? && d.value < |s.tester.puts| then Some(s.tester.puts[d.value].command) else None
  }

  // ---- What a script leaves behind ----

  /** The last command for the relay is `c`, and it has completed. */
  ghost predicate Switched(puts: seq<Item>, fired: set<nat>, p: Position, c: Command) {
    var k := LastBefore(puts, |puts|, p);
    k.Some? && k.value in fired && puts[k.value].command == c
  }

  /** When every wait of the script has returned, the last command for the relay is `c`, and it has
      completed. */
  ghost predicate Switches(puts: seq<Item>, fired: set<nat>, todo: seq<Op>, p: Position, c: Command)
    decreases |todo|
  {
    if todo == [] then Switched(puts, fired, p, c)
    else
      match todo[0]
      case Queue(item) => Switches(puts + [item], fired, todo[1..], p, c)
      case Wait(n) => Switches(puts, fired + LastEvents(|puts|, n), todo[1..], p, c)
      case Raise => false
  }

  lemma {:induction false} SwitchesWithMore(
    puts: seq<Item>, fired: set<nat>, more: set<nat>, todo: seq<Op>, p: Position, c: Command)
    requires Switches(puts, fired, todo, p, c) && fired <= more
    ensures Switches(puts, more, todo, p, c)
    decreases |todo|
  {
    if todo != [] {
      match todo[0]
      case Queue(item) => SwitchesWithMore(puts + [item], fired, more, todo[1..], p, c);
      case Wait(n) =>
        SwitchesWithMore(puts, fired + LastEvents(|puts|, n), more + LastEvents(|puts|, n), todo[1..], p, c);
    }
  }

  /** The script goes through and has nothing for the relay. */
  ghost predicate LeavesAlone(todo: seq<Op>, p: Position) {
    forall i | 0 <= i < |todo| :: !todo[i].Raise? && (todo[i].Queue? ==> todo[i].item.position != p)
  }

  lemma {:induction false} LeavingSwitches(puts: seq<Item>, fired: set<nat>, todo: seq<Op>, p: Position, c: Command)
    requires LeavesAlone(todo, p) && Switched(puts, fired, p, c)
    ensures Switches(puts, fired, todo, p, c)
    decreases |todo|
  {
    if todo != [] {
      match todo[0]
      case Queue(item) =>
        LastBeforeGrown(puts, item, |puts|, p);
        LeavingSwitches(puts + [item], fired, todo[1..], p, c);
      case Wait(n) => LeavingSwitches(puts, fired + LastEvents(|puts|, n), todo[1..], p, c);
    }
  }

  /** The script leads to `c` from wherever it starts. */
  ghost predicate Forces(todo: seq<Op>, p: Position, c: Command) {
    forall puts: seq<Item>, fired: set<nat> :: Switches(puts, fired, todo, p, c)
  }

  ghost predicate GoesThrough(todo: seq<Op>) {
    forall i | 0 <= i < |todo| :: !todo[i].Raise?
  }

  lemma {:induction false} SwitchesThen(
    puts: seq<Item>, fired: set<nat>, a: seq<Op>, b: seq<Op>, p: Position, c: Command)
    requires GoesThrough(a) && Forces(b, p, c)
    ensures Switches(puts, fired, a + b, p, c)
    decreases |a|
  {
    if a == [] {
      assert a + b == b;
    } else {
      assert (a + b)[0] == a[0] && (a + b)[1..] == a[1..] + b;
      match a[0]
      case Queue(item) => SwitchesThen(puts + [item], fired, a[1..], b, p, c);
      case Wait(n) => SwitchesThen(puts, fired + LastEvents(|puts|, n), a[1..], b, p, c);
    }
  }

  lemma {:induction false} ForcesThen(a: seq<Op>, b: seq<Op>, p: Position, c: Command)
    requires GoesThrough(a) && Forces(b, p, c)
    ensures Forces(a + b, p, c)
  {
    forall puts: seq<Item>, fired: set<nat> ensures Switches(puts, fired, a + b, p, c) {
      SwitchesThen(puts, fired, a, b, p, c);
    }
  }

  /** Two commands and the wait for both. */
  lemma {:induction false} PairForces(x: Item, y: Item, rest: seq<Op>, p: Position, c: Command)
    requires x.position != y.position && LeavesAlone(rest, p)
    requires (p == x.position && c == x.command) || (p == y.position && c == y.command)
    ensures Forces([Queue(x), Queue(y), Wait(2)] + rest, p, c)
  {
    forall puts: seq<Item>, fired: set<nat> ensures Switches(puts, fired, [Queue(x), Queue(y), Wait(2)] + rest, p, c) {
      var todo, n := [Queue(x), Queue(y), Wait(2)] + rest, |puts|;
      var all := puts + [x] + [y];
      var done := fired + LastEvents(n + 2, 2);
      assert LastEvents(n + 2, 2) == {n + 1} + ({n} + LastEvents(n, 0));
      assert LastBefore(all, n + 1, x.position) == Some(n);
      assert Switched(all, done, p, c);
      LeavingSwitches(all, done, rest, p, c);
      assert todo[1..][1..][1..] == rest;
      assert Switches(puts + [x] + [y], fired, todo[1..][1..], p, c);
    }
  }

  /** One command and the wait for it. */
  lemma {:induction false} OneForces(x: Item, rest: seq<Op>)
    requires LeavesAlone(rest, x.position)
    ensures Forces([Queue(x), Wait(1)] + rest, x.position, x.command)
  {
    forall puts: seq<Item>, fired: set<nat>
      ensures Switches(puts, fired, [Queue(x), Wait(1)] + rest, x.position, x.command)
    {
      var todo, n := [Queue(x), Wait(1)] + rest, |puts|;
      var done := fired + LastEvents(n + 1, 1);
      assert LastEvents(n + 1, 1) == {n} + LastEvents(n, 0);
      assert Switched(puts + [x], done, x.position, x.command);
      LeavingSwitches(puts + [x], done, rest, x.position, x.command);
      assert todo[1..][1..] == rest;
      assert Switches(puts + [x], fired, todo[1..], x.position, x.command);
    }
  }

  // ---- The other relays that `power_on` and `power_off` reset ----

  /** The relays that a reset sets, with what it sets them to. */
  function ResetTo(): seq<Item> {
    [Item(Position("01B", 0), [Off, Off]), Item(Position("01C", 0), [Off, Off]),
     Item(Position("03A", 0), [Off, Unchanged]), Item(Position("03A", 1), [Unchanged, Off]),
     Item(Position("01D", 0), [Off, Off, Off, Off]),
     Item(Position("00A", 0), [On, On]), Item(Position("00B", 0), [Off, Off]), Item(Position("00C", 0), [Off, Off])]
  }

  /** Three commands and the wait for all of them. */
  lemma {:induction false} TripleForces(x: Item, y: Item, z: Item, rest: seq<Op>, p: Position, c: Command)
    requires x.position != y.position && y.position != z.position && x.position != z.position && LeavesAlone(rest, p)
    requires Item(p, c) == x || Item(p, c) == y || Item(p, c) == z
    ensures Forces([Queue(x), Queue(y), Queue(z), Wait(3)] + rest, p, c)
  {
    forall puts: seq<Item>, fired: set<nat>
      ensures Switches(puts, fired, [Queue(x), Queue(y), Queue(z), Wait(3)] + rest, p, c)
    {
      var todo, n := [Queue(x), Queue(y), Queue(z), Wait(3)] + rest, |puts|;
      var all := puts + [x] + [y] + [z];
      var done := fired + LastEvents(n + 3, 3);
      assert LastEvents(n + 2, 2) == {n + 1} + ({n} + LastEvents(n, 0));
      assert LastEvents(n + 3, 3) == {n + 2} + LastEvents(n + 2, 2);
      assert LastBefore(all, n + 1, x.position) == Some(n);
      assert LastBefore(all, n + 2, x.position) == Some(n);
      assert LastBefore(all, n + 2, y.position) == Some(n + 1);
      assert Switched(all, done, p, c);
      LeavingSwitches(all, done, rest, p, c);
      assert todo[1..][1..][1..][1..] == rest;
      assert Switches(puts + [x] + [y], fired, todo[1..][1..], p, c);
    }
  }

  /** A script that drives none of these relays. */
  ghost predicate LeavesReset(todo: seq<Op>) {
    forall i | 0 <= i < |ResetTo()| :: LeavesAlone(todo, ResetTo()[i].position)
  }

  lemma {:induction false} ResetForces(rest: seq<Op>, i: nat)
    requires LeavesReset(rest) && i < |ResetTo()|
    ensures Forces(ResetRelays() + rest, ResetTo()[i].position, ResetTo()[i].command)
  {
    var r := ResetTo();
    var p, c := r[i].position, r[i].command;
    var a, b, d := [Queue(r[0]), Queue(r[1]), Wait(2)], [Queue(r[2]), Wait(1)], [Queue(r[3]), Wait(1)];
    var e, f := [Queue(r[4]), Wait(1)], [Queue(r[5]), Queue(r[6]), Queue(r[7]), Wait(3)];
    assert ResetRelays() == (((a + b) + d) + e) + f;
    Assoc(((a + b) + d) + e, f, rest);
    Assoc((a + b) + d, e, f + rest);
    Assoc(a + b, d, e + (f + rest));
    Assoc(a, b, d + (e + (f + rest)));
    assert LeavesAlone(rest, p);
    if i >= 5 {
      TripleForces(r[5], r[6], r[7], rest, p, c);
    }
    if i == 4 {
      OneForces(r[4], f + rest);
    } else if i > 4 {
      ForcesThen(e, f + rest, p, c);
    }
    if i == 3 {
      OneForces(r[3], e + (f + rest));
    } else if i > 3 {
      ForcesThen(d, e + (f + rest), p, c);
    }
    if i == 2 {
      OneForces(r[2], d + (e + (f + rest)));
    } else if i > 2 {
      ForcesThen(b, d + (e + (f + rest)), p, c);
    }
    if i < 2 {
      PairForces(r[0], r[1], b + (d + (e + (f + rest))), p, c);
    } else {
      ForcesThen(a, b + (d + (e + (f + rest))), p, c);
    }
  }

  // ---- The calls ----

  lemma {:induction false} WarpPowerForces(phases: set<Line>)
    requires phases == {} || L1 in phases
    ensures Forces(ConnectWarpPower(phases), POWER_L1, if phases == {} then ALL_OFF else [Pulse, Pulse])
    ensures Forces(ConnectWarpPower(phases), POWER_L23, if phases == {} then ALL_OFF else L23Command(phases))
  {
    var todo := ConnectWarpPower(phases);
    var x, y := todo[0].item, todo[1].item;
    assert todo == [Queue(x), Queue(y), Wait(2)] + [];
    PairForces(x, y, [], POWER_L1, x.command);
    PairForces(x, y, [], POWER_L23, y.command);
  }

  lemma {:induction false} PowerOffForces()
    ensures var todo := Script(PowerOff);
      Forces(todo, POWER_L1, ALL_OFF) && Forces(todo, POWER_L23, ALL_OFF) && Forces(todo, OUTLET, OutletCommand(CEE))
  {
    var rest := ConnectOutlet(CEE) + ResetRelays();
    var x, y := Item(POWER_L1, ALL_OFF), Item(POWER_L23, ALL_OFF);
    Assoc(ConnectWarpPower({}), ConnectOutlet(CEE), ResetRelays());
    PairForces(x, y, rest, POWER_L1, ALL_OFF);
    PairForces(x, y, rest, POWER_L23, ALL_OFF);
    OneForces(Item(OUTLET, OutletCommand(CEE)), ResetRelays());
    ForcesThen(ConnectWarpPower({}), rest, OUTLET, OutletCommand(CEE));
  }

  lemma {:induction false} PowerOnForces(outlet: Outlet, phases: set<Line>)
    requires L1 in phases
    ensures var todo := Script(PowerOn(outlet, phases));
      && Forces(todo, POWER_L1, [Pulse, Pulse]) && Forces(todo, POWER_L23, L23Command(phases))
      && Forces(todo, OUTLET, OutletCommand(outlet))
  {
    var off, o, reset, on := ConnectWarpPower({}), ConnectOutlet(outlet), ResetRelays(), ConnectWarpPower(phases);
    WarpPowerForces(phases);
    ForcesThen((off + o) + reset, on, POWER_L1, [Pulse, Pulse]);
    ForcesThen((off + o) + reset, on, POWER_L23, L23Command(phases));
    OneForces(Item(OUTLET, OutletCommand(outlet)), reset + on);
    ForcesThen(off, o + (reset + on), OUTLET, OutletCommand(outlet));
    Assoc(off + o, reset, on);
    Assoc(off, o, reset + on);
  }

  // ---- Runs ----

  lemma {:induction false} AlwaysSound(run: seq<Act>, s: System)
    requires Outcome(run) == Some(s)
    ensures Sound(s.tester)
  {
    if run == [] {
      EveryRunIsSound([], PREPARED);
    } else {
      var before, a := run[..|run| - 1], run[|run| - 1];
      var r := Outcome(before).value;
      AlwaysSound(before, r);
      match a
      case Work(m) => MoveKeeps(r.tester, m);
      case Proceed =>
        if r.todo[0].Queue? {
          PutKeeps(r.tester, r.todo[0].item);
        }
      case _ =>
    }
  }

  /** Neither given up nor followed by another call. */
  ghost predicate Undisturbed(more: seq<Act>) {
    forall k | 0 <= k < |more| :: !more[k].GiveUp? && !more[k].Issue?
  }

  lemma {:induction false} ActSwitches(s: System, a: Act, p: Position, c: Command)
    requires CanHappen(s, a) && !a.GiveUp? && !a.Issue?
    requires Switches(s.tester.puts, s.tester.worker.fired, s.todo, p, c)
    ensures var v := Happen(s, a); Switches(v.tester.puts, v.tester.worker.fired, v.todo, p, c)
  {
    var t := s.tester;
    match a
    case Proceed =>
      if s.todo[0].Wait? {
        assert t.worker.fired + LastEvents(|t.puts|, s.todo[0].n) == t.worker.fired;
      }
    case Work(m) =>
      FiredGrows(t, m);
      SwitchesWithMore(t.puts, t.worker.fired, Do(t, m).worker.fired, s.todo, p, c);
  }

  lemma {:induction false} DuringCall(run: seq<Act>, call: Call, more: seq<Act>, s: System, p: Position, c: Command)
    requires Outcome(run + [Issue(call)] + more) == Some(s) && Undisturbed(more) && Forces(Script(call), p, c)
    ensures Switches(s.tester.puts, s.tester.worker.fired, s.todo, p, c)
    decreases |more|
  {
    var all := run + [Issue(call)] + more;
    var before, a := all[..|all| - 1], all[|all| - 1];
    var r := Outcome(before).value;
    if more == [] {
      assert a == Issue(call);
      assert Switches(s.tester.puts, s.tester.worker.fired, Script(call), p, c);
    } else {
      var less := more[..|more| - 1];
      assert before == run + [Issue(call)] + less;
      assert a == more[|more| - 1];
      DuringCall(run, call, less, r, p, c);
      ActSwitches(r, a, p, c);
    }
  }

  /** A command whose event is set, and after which none was put, is the last completed one. */
  lemma {:induction false} SwitchedIsCompleted(s: System, p: Position, c: Command)
    requires Sound(s.tester) && Switched(s.tester.puts, s.tester.worker.fired, p, c)
    ensures LastCompleted(s, p) == Some(c)
  {
    var t := s.tester;
    var k := LastBefore(t.puts, |t.puts|, p).value;
    assert Knows(t, p) && Passed(t, k);
  }

  lemma {:induction false} CallSwitches(run: seq<Act>, call: Call, more: seq<Act>, s: System, p: Position, c: Command)
    requires Outcome(run + [Issue(call)] + more) == Some(s) && Undisturbed(more) && s.todo == []
    requires Forces(Script(call), p, c)
    ensures LastCompleted(s, p) == Some(c)
  {
    DuringCall(run, call, more, s, p, c);
    AlwaysSound(run + [Issue(call)] + more, s);
    SwitchedIsCompleted(s, p, c);
  }

  // ---- The promises ----

  /** When `power_on` has returned, L1 is on, L2 and L3 exactly as asked for, and the outlet relay
      selects the outlet; channel by channel, whatever came before and however it interleaved. */
  lemma {:induction false} PowerOnSwitches(run: seq<Act>, outlet: Outlet, phases: set<Line>, more: seq<Act>, s: System)
    requires L1 in phases
    requires Outcome(run + [Issue(PowerOn(outlet, phases))] + more) == Some(s) && Undisturbed(more) && s.todo == []
    ensures LastCompleted(s, Position("00D", 0)) == Some([Pulse, Pulse])
    ensures LastCompleted(s, Position("01A", 0)) ==
      Some([if L3 in phases then Pulse else Off, if L2 in phases then Pulse else Off])
    ensures LastCompleted(s, Position("02A", 0)) ==
      Some([if outlet == Basic || outlet == Smart then Pulse else Off, if outlet == Pro then Pulse else Off])
  {
    PowerOnForces(outlet, phases);
    CallSwitches(run, PowerOn(outlet, phases), more, s, POWER_L1, [Pulse, Pulse]);
    CallSwitches(run, PowerOn(outlet, phases), more, s, POWER_L23, L23Command(phases));
    CallSwitches(run, PowerOn(outlet, phases), more, s, OUTLET, OutletCommand(outlet));
  }

  /** When `power_off` has returned, all channels of the three relays are off. */
  lemma {:induction false} PowerOffSwitches(run: seq<Act>, more: seq<Act>, s: System)
    requires Outcome(run + [Issue(PowerOff)] + more) == Some(s) && Undisturbed(more) && s.todo == []
    ensures LastCompleted(s, Position("00D", 0)) == Some([Off, Off])
    ensures LastCompleted(s, Position("01A", 0)) == Some([Off, Off])
    ensures LastCompleted(s, Position("02A", 0)) == Some([Off, Off])
  {
    PowerOffForces();
    CallSwitches(run, PowerOff, more, s, POWER_L1, ALL_OFF);
    CallSwitches(run, PowerOff, more, s, POWER_L23, ALL_OFF);
    CallSwitches(run, PowerOff, more, s, OUTLET, OutletCommand(CEE));
  }

  /** When a test procedure has connected power on its own, the power relays are as asked for. */
  lemma {:induction false} WarpPowerSwitches(run: seq<Act>, phases: set<Line>, more: seq<Act>, s: System)
    requires phases == {} || L1 in phases
    requires Outcome(run + [Issue(WarpPower(phases))] + more) == Some(s) && Undisturbed(more) && s.todo == []
    ensures LastCompleted(s, Position("00D", 0)) == Some(if phases == {} then [Off, Off] else [Pulse, Pulse])
    ensures LastCompleted(s, Position("01A", 0)) ==
      Some([if L3 in phases then Pulse else Off, if L2 in phases then Pulse else Off])
  {
    WarpPowerForces(phases);
    CallSwitches(run, WarpPower(phases), more, s, POWER_L1, if phases == {} then ALL_OFF else [Pulse, Pulse]);
    CallSwitches(run, WarpPower(phases), more, s, POWER_L23, if phases == {} then ALL_OFF else L23Command(phases));
  }

  /** Both also leave the voltage monitors and the front panel off, the type 2 PE connected, CP-PE
      in state A and the meter at Type 2, L1. */
  lemma {:induction false} RelaysAreReset(run: seq<Act>, call: Call, more: seq<Act>, s: System, i: nat)
    requires call.PowerOff? || (call.PowerOn? && L1 in call.phases)
    requires Outcome(run + [Issue(call)] + more) == Some(s) && Undisturbed(more) && s.todo == [] && i < |ResetTo()|
    ensures LastCompleted(s, ResetTo()[i].position) == Some(ResetTo()[i].command)
  {
    var p, c := ResetTo()[i].position, ResetTo()[i].command;
    var off, reset := ConnectWarpPower({}), ResetRelays();
    if call.PowerOff? {
      ResetForces([], i);
      assert reset + [] == reset;
      ForcesThen(off + ConnectOutlet(CEE), reset, p, c);
    } else {
      var front, on := off + ConnectOutlet(call.outlet), ConnectWarpPower(call.phases);
      ResetForces(on, i);
      ForcesThen(front, reset + on, p, c);
      Assoc(front, reset, on);
    }
    CallSwitches(run, call, more, s, p, c);
  }
}
