/** Callers and the worker of the tester joined by the queue: what a put is for, and when the
    event that a caller waits for can never be set. */
module TesterQueue {
  import opened Lines
  import opened ActionLoop

  /** What one channel of a device is told: nothing, a lasting value, or a monoflop pulse. */
  datatype Setting = Unchanged | Off | On | Pulse

  type Command = seq<Setting>

  /** A queued action; its function and its event are named by its index in the puts. */
  datatype Item = Item(position: Position, command: Command)

  datatype Tester = Tester(puts: seq<Item>, taken: nat, worker: Worker)

  const PREPARED := Tester([], 0, FRESH)

  datatype Move = Put(item: Item) | Take | Tick | Reply(ok: bool) | TearDown

  predicate Possible(t: Tester, m: Move) {
    match m
    case Put(_) => true
    case Take => t.worker.phase.Head? && t.taken < |t.puts|
    case Tick => t.worker.phase.Head? && t.taken == |t.puts|
    case Reply(ok) => Enabled(t.worker, Run(ok))
    case TearDown => t.worker.phase.Head?
  }

  function Do(t: Tester, m: Move): Tester
    requires Possible(t, m)
  {
    match m
    case Put(item) => t.(puts := t.puts + [item])
    case Take =>
      t.(taken := t.taken + 1, worker := Apply(t.worker, Begin(Some(Action(t.puts[t.taken].position, t.taken)))))
    case Tick => t.(worker := Apply(t.worker, Begin(None)))
    case Reply(ok) => t.(worker := Apply(t.worker, Run(ok)))
    case TearDown => t.(worker := Apply(t.worker, Stop))
  }

  function After(moves: seq<Move>): Option<Tester> {
    if moves == [] then Some(PREPARED)
    else
      var t, m := After(moves[..|moves| - 1]), moves[|moves| - 1];
      if t.Some? && Possible(t.value, m) then Some(Do(t.value, m)) else None
  }

  ghost predicate Reaches(moves: seq<Move>, t: Tester) {
    After(moves) == Some(t)
  }

  /** The last of the first `n` puts that is for position `p`. */
  function LastBefore(puts: seq<Item>, n: nat, p: Position): (r: Option<nat>)
    requires n <= |puts|
    ensures r.Some? ==> r.value < n && puts[r.value].position == p
    ensures forall j | (if r.Some? then r.value + 1 else 0) <= j < n :: puts[j].position != p
  {
    if n == 0 then None else if puts[n - 1].position == p then Some(n - 1) else LastBefore(puts, n - 1, p)
  }

  lemma {:induction false} LastBeforeGrown(puts: seq<Item>, item: Item, n: nat, p: Position)
    requires n <= |puts|
    ensures LastBefore(puts + [item], n, p) == LastBefore(puts, n, p)
  {
    if n != 0 {
      LastBeforeGrown(puts, item, n - 1, p);
    }
  }

  /** What the worker knows about a position, in terms of the puts. */
  ghost predicate Knows(t: Tester, p: Position) {
    var w := t.worker;
    && t.taken <= |t.puts|
    && LastBefore(t.puts, t.taken, p) == (if p in w.actions then Some(w.actions[p]) else None)
    && (p in w.events ==> p in w.actions && w.events[p] == w.actions[p] && w.events[p] !in w.fired)
    && (p in w.actions && p !in w.events ==> w.actions[p] in w.fired)
    && var d := LastDone(w.log, p);
       d.Some? ==> p in w.actions && d.value <= w.actions[p] && d.value in w.fired && t.puts[d.value].position == p
  }

  /** The function of a set event has completed, and no older one for its position since. */
  ghost predicate Passed(t: Tester, e: nat) {
    e < t.taken <= |t.puts| &&
    var d := LastDone(t.worker.log, t.puts[e].position);
    d.Some? && e <= d.value
  }

  ghost predicate Sound(t: Tester) {
    && Shape(t.worker)
    && t.taken <= |t.puts|
    && (forall p :: Knows(t, p))
    && (forall e | e in t.worker.fired :: Passed(t, e))
  }

  lemma {:induction false} PutKeeps(t: Tester, item: Item)
    requires Sound(t)
    ensures Sound(Do(t, Put(item)))
  {
    var u := Do(t, Put(item));
    forall p ensures Knows(u, p) {
      assert Knows(t, p);
      LastBeforeGrown(t.puts, item, t.taken, p);
    }
    forall e | e in u.worker.fired ensures Passed(u, e) {
      assert Passed(t, e);
    }
  }

  lemma {:induction false} BeginKnows(t: Tester, m: Move, p: Position)
    requires (m.Take? || m.Tick?) && Possible(t, m) && Knows(t, p)
    requires forall e | e in t.worker.fired :: e < t.taken
    ensures Knows(Do(t, m), p) && LastDone(Do(t, m).worker.log, p) == LastDone(t.worker.log, p)
  {
    if m.Take? {
      Snoc(t.worker.log, Installed(t.puts[t.taken].position, t.taken));
    }
  }

  lemma {:induction false} BeginKeeps(t: Tester, m: Move)
    requires Sound(t) && (m.Take? || m.Tick?) && Possible(t, m)
    ensures Sound(Do(t, m))
  {
    assert SetsEvents(t.worker) by {
      assert forall p | p in t.worker.actions :: Knows(t, p);
    }
    var u := Do(t, m);
    StartShape(t.worker, if m.Take? then Some(Action(t.puts[t.taken].position, t.taken)) else None);
    assert forall e | e in t.worker.fired :: Passed(t, e);
    forall p ensures Knows(u, p) && LastDone(u.worker.log, p) == LastDone(t.worker.log, p) {
      assert Knows(t, p);
      BeginKnows(t, m, p);
    }
    forall e | e in u.worker.fired ensures Passed(u, e) {
      assert Passed(t, e);
    }
  }

  lemma {:induction false} ReplyKnows(t: Tester, ok: bool, p: Position)
    requires Possible(t, Reply(ok)) && Knows(t, p) && Knows(t, t.worker.order[t.worker.phase.next])
    ensures Knows(Do(t, Reply(ok)), p)
    ensures var w, v, q := t.worker, Do(t, Reply(ok)).worker, t.worker.order[t.worker.phase.next];
      v.fired == w.fired + (if ok then {w.actions[q]} else {}) &&
      LastDone(v.log, p) == if ok && p == q then Some(w.actions[q]) else LastDone(w.log, p)
  {
    var w := t.worker;
    var q := w.order[w.phase.next];
    Snoc(w.log, Ran(q, w.actions[q], ok));
  }

  lemma {:induction false} ReplyKeeps(t: Tester, ok: bool)
    requires Sound(t) && Possible(t, Reply(ok))
    ensures Sound(Do(t, Reply(ok)))
  {
    var w, u := t.worker, Do(t, Reply(ok));
    var q := w.order[w.phase.next];
    assert Knows(t, q);
    assert SetsEvents(w) && EventsMatch(w) by {
      assert forall p | p in w.actions :: Knows(t, p);
    }
    RunShape(w, ok);
    forall p ensures Knows(u, p) {
      assert Knows(t, p);
      ReplyKnows(t, ok, p);
    }
    forall e | e in u.worker.fired ensures Passed(u, e) {
      ReplyKnows(t, ok, q);
      if e in w.fired {
        assert Passed(t, e) && Knows(t, t.puts[e].position);
        ReplyKnows(t, ok, t.puts[e].position);
      }
    }
  }

  lemma {:induction false} MoveKeeps(t: Tester, m: Move)
    requires Sound(t) && Possible(t, m)
    ensures Sound(Do(t, m))
  {
    match m
    case Put(item) => PutKeeps(t, item);
    case Reply(ok) => ReplyKeeps(t, ok);
    case TearDown =>
      var u := Do(t, m);
      assert forall p :: Knows(t, p) ==> Knows(u, p);
      assert forall e :: Passed(t, e) ==> Passed(u, e);
    case _ => BeginKeeps(t, m);
  }

  lemma {:induction false} EveryRunIsSound(moves: seq<Move>, t: Tester)
    requires Reaches(moves, t)
    ensures Sound(t)
  {
    if moves == [] {
      forall p ensures Knows(t, p) {
      }
    } else {
      var before := moves[..|moves| - 1];
      EveryRunIsSound(before, After(before).value);
      MoveKeeps(After(before).value, moves[|moves| - 1]);
    }
  }

  // ---------------------------------------------------------------------------------------

  /** The worker has taken an event from the queue, has not set it, and does not hold it. */
  ghost predicate Lost(t: Tester, e: nat) {
    && e < t.taken <= |t.puts|
    && e !in t.worker.fired
    && var p := t.puts[e].position; !(p in t.worker.events && t.worker.events[p] == e)
  }

  /** An action for the same position was taken after it. */
  ghost predicate Overtaken(t: Tester, e: nat) {
    exists j :: e < j < t.taken && t.taken <= |t.puts| && t.puts[j].position == t.puts[e].position
  }

  /** An event is lost exactly when another action for its position was taken before the one
      queued with it could complete. */
  lemma {:induction false} LostMeansOvertaken(moves: seq<Move>, t: Tester, e: nat)
    requires Reaches(moves, t) && e < t.taken
    ensures e < |t.puts| && (Lost(t, e) <==> e !in t.worker.fired && Overtaken(t, e))
  {
    EveryRunIsSound(moves, t);
    var p := t.puts[e].position;
    assert Knows(t, p);
    var last := t.worker.actions[p];
    assert e <= last;
    assert e < last ==> Overtaken(t, e);
  }

  /** A lost event is never set, however the run goes on. */
  lemma {:induction false} LostForever(moves: seq<Move>, m: Move, t: Tester, e: nat)
    requires Reaches(moves, t) && Lost(t, e) && Possible(t, m)
    ensures Lost(Do(t, m), e)
  {
    EveryRunIsSound(moves, t);
    var p := t.puts[e].position;
    assert Knows(t, p);
    if m.Reply? {
      var q := t.worker.order[t.worker.phase.next];
      assert Knows(t, q);
      ReplyKnows(t, m.ok, q);
    }
  }

  /** Every put for a position came after all earlier events for it were set. */
  ghost predicate CallersWait(moves: seq<Move>) {
    moves == [] ||
    var before, m := moves[..|moves| - 1], moves[|moves| - 1];
    CallersWait(before) &&
    (m.Put? && After(before).Some? ==>
       var t := After(before).value;
       forall i | 0 <= i < |t.puts| && t.puts[i].position == m.item.position :: i in t.worker.fired)
  }

  ghost predicate OlderFired(t: Tester) {
    forall i, j | 0 <= i < j < |t.puts| && t.puts[i].position == t.puts[j].position :: i in t.worker.fired
  }

  lemma {:induction false} FiredGrows(t: Tester, m: Move)
    requires Possible(t, m)
    ensures t.worker.fired <= Do(t, m).worker.fired
  {
  }

  lemma {:induction false} WaitingOrdersEvents(moves: seq<Move>, t: Tester)
    requires Reaches(moves, t) && CallersWait(moves)
    ensures OlderFired(t)
  {
    if moves != [] {
      var before, m := moves[..|moves| - 1], moves[|moves| - 1];
      WaitingOrdersEvents(before, After(before).value);
      FiredGrows(After(before).value, m);
    }
  }

  /** If callers wait before they use a position again, every event they put is queued, held
      by the worker, or set. */
  lemma {:induction false} WaitingLosesNoEvent(moves: seq<Move>, t: Tester, e: nat)
    requires Reaches(moves, t) && CallersWait(moves) && e < |t.puts|
    ensures !Lost(t, e)
  {
    EveryRunIsSound(moves, t);
    WaitingOrdersEvents(moves, t);
    if e < t.taken {
      LostMeansOvertaken(moves, t, e);
    }
  }
}
