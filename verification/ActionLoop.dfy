/** The worker thread of the tester: it is fed actions through a queue, keeps one installed
    function, one pending event and one try counter for each position, and runs all installed
    functions once in every round. Functions and events are named by the number of the put
    that queued them. */
module ActionLoop {
  import opened Lines

  const TRY_COUNT: int := 3

  /** A device of the tester and the part of it that an action drives. */
  datatype Position = Position(path: string, part: nat)

  datatype Action = Action(position: Position, id: nat)

  /** What an observer of the devices sees. */
  datatype Entry = Installed(position: Position, id: nat) | Ran(position: Position, id: nat, ok: bool)

  /** The worker waits at the loop head, or is about to run the function at `order[next]`, or
      has died from an action that could not be completed, or was told to stop. */
  datatype Phase = Head | Round(next: nat) | Failed | Stopped

  datatype Worker = Worker(
    order: seq<Position>, actions: map<Position, nat>, events: map<Position, nat>,
    tries: map<Position, int>, fired: set<nat>, log: seq<Entry>, phase: Phase)

  const FRESH := Worker([], map[], map[], map[], {}, [], Head)

  datatype Step = Begin(feed: Option<Action>) | Run(ok: bool) | Stop

  function PhaseAt(order: seq<Position>, n: nat): Phase {
    if n < |order| then Round(n) else Head
  }

  function Install(w: Worker, a: Action): Worker {
    w.(order := if a.position in w.actions then w.order else w.order + [a.position],
       actions := w.actions[a.position := a.id],
       events := w.events[a.position := a.id],
       tries := w.tries[a.position := TRY_COUNT],
       log := w.log + [Installed(a.position, a.id)])
  }

  function StartRound(w: Worker, feed: Option<Action>): Worker {
    var v := if feed.Some? then Install(w, feed.value) else w;
    v.(phase := PhaseAt(v.order, 0))
  }

  /** The installed function at the next position has returned, or raised an exception. */
  function RunNext(w: Worker, ok: bool): Worker
    requires Enabled(w, Run(ok))
  {
    var p := w.order[w.phase.next];
    var v := w.(log := w.log + [Ran(p, w.actions[p], ok)]);
    if ok then
      v.(fired := if p in w.events then w.fired + {w.events[p]} else w.fired,
         events := w.events - {p},
         tries := w.tries[p := TRY_COUNT],
         phase := PhaseAt(w.order, w.phase.next + 1))
    else
      var left := w.tries[p] - 1;
      v.(tries := w.tries[p := left],
         phase := if left >= 1 then PhaseAt(w.order, w.phase.next + 1) else Failed)
  }

  predicate Enabled(w: Worker, s: Step) {
    match s
    case Run(_) =>
      w.phase.Round? && w.phase.next < |w.order| &&
      w.order[w.phase.next] in w.actions && w.order[w.phase.next] in w.tries
    case _ => w.phase.Head?
  }

  function Apply(w: Worker, s: Step): Worker
    requires Enabled(w, s)
  {
    match s
    case Begin(feed) => StartRound(w, feed)
    case Run(ok) => RunNext(w, ok)
    case Stop => w.(phase := Stopped)
  }

  // ---------------------------------------------------------------------------------------
  // What the log says, without the worker's counters and dictionaries

  /** The function installed for a position is the one of the last installation. */
  function LastInstalled(log: seq<Entry>, p: Position): Option<nat> {
    if log == [] then None
    else
      var e := log[|log| - 1];
      if e.Installed? && e.position == p then Some(e.id) else LastInstalled(log[..|log| - 1], p)
  }

  /** Every run was a run of the function then installed. */
  ghost predicate RunsInstalled(log: seq<Entry>) {
    log == [] ||
    var e, before := log[|log| - 1], log[..|log| - 1];
    RunsInstalled(before) && (e.Ran? ==> LastInstalled(before, e.position) == Some(e.id))
  }

  function Completed(log: seq<Entry>): set<nat> {
    if log == [] then {}
    else
      var e := log[|log| - 1];
      Completed(log[..|log| - 1]) + if e.Ran? && e.ok then {e.id} else {}
  }

  /** Entry `j` records that the function `id` completed while it was the installed one. */
  ghost predicate CompletedAt(log: seq<Entry>, j: nat, id: nat) {
    j < |log| && log[j].Ran? && log[j].ok && log[j].id == id &&
    LastInstalled(log[..j], log[j].position) == Some(id)
  }

  lemma {:induction false} CompletedMeans(log: seq<Entry>, id: nat)
    requires RunsInstalled(log)
    ensures id in Completed(log) <==> exists j: nat :: CompletedAt(log, j, id)
  {
    if log != [] {
      var n := |log| - 1;
      var before := log[..n];
      CompletedMeans(before, id);
      forall j: nat | j < n ensures CompletedAt(before, j, id) <==> CompletedAt(log, j, id) {
        assert before[..j] == log[..j];
      }
      assert CompletedAt(log, n, id) <==> log[n].Ran? && log[n].ok && log[n].id == id;
    }
  }

  /** The number of rounds in a row in which a position failed, since its last success or
      installation. */
  function Streak(log: seq<Entry>, p: Position): nat {
    if log == [] then 0
    else
      var e := log[|log| - 1];
      if e.position != p then Streak(log[..|log| - 1], p)
      else if e.Installed? || e.ok then 0
      else 1 + Streak(log[..|log| - 1], p)
  }

  /** A position has failed three rounds in a row. */
  ghost predicate GaveUp(log: seq<Entry>, p: Position) {
    Streak(log, p) == TRY_COUNT
  }

  /** The installed function has not completed since its installation. */
  predicate Unfinished(log: seq<Entry>, p: Position) {
    if log == [] then false
    else
      var e := log[|log| - 1];
      if e.position != p then Unfinished(log[..|log| - 1], p)
      else e.Installed? || (!e.ok && Unfinished(log[..|log| - 1], p))
  }

  /** The last completed run on a position. */
  function LastDone(log: seq<Entry>, p: Position): Option<nat> {
    if log == [] then None
    else
      var e := log[|log| - 1];
      if e.Ran? && e.ok && e.position == p then Some(e.id) else LastDone(log[..|log| - 1], p)
  }

  // ---------------------------------------------------------------------------------------
  // The invariant of the loop

  ghost predicate Shape(w: Worker) {
    && (forall i, j | 0 <= i < j < |w.order| :: w.order[i] != w.order[j])
    && (forall i | 0 <= i < |w.order| :: w.order[i] in w.actions)
    && (forall p | p in w.actions :: p in w.order)
    && w.tries.Keys == w.actions.Keys
    && w.events.Keys <= w.actions.Keys
    && (w.phase.Round? ==> w.phase.next < |w.order|)
  }

  /** The dictionaries say what the log says about one position. */
  ghost predicate Tells(w: Worker, p: Position) {
    && LastInstalled(w.log, p) == (if p in w.actions then Some(w.actions[p]) else None)
    && (p in w.events <==> Unfinished(w.log, p))
    && (p in w.events ==> p in w.actions && w.events[p] == w.actions[p])
    && (p in w.tries ==> w.tries[p] == TRY_COUNT - Streak(w.log, p))
    && (p !in w.tries ==> Streak(w.log, p) == 0)
    && Streak(w.log, p) <= TRY_COUNT
  }

  ghost predicate Loop(w: Worker) {
    && Shape(w)
    && (forall p :: Tells(w, p))
    && w.fired == Completed(w.log)
    && RunsInstalled(w.log)
    && (w.phase.Failed? <==> exists p :: GaveUp(w.log, p))
    && SetsEvents(w)
  }

  /** The event of an installed function is pending until it is set. */
  ghost predicate SetsEvents(w: Worker) {
    forall p | p in w.actions :: p in w.events || w.actions[p] in w.fired
  }

  ghost predicate EventsMatch(w: Worker) {
    forall p | p in w.events :: p in w.actions && w.events[p] == w.actions[p]
  }

  lemma {:induction false} Snoc<T>(s: seq<T>, x: T)
    ensures (s + [x])[..|s|] == s
  {
  }

  lemma {:induction false} StartShape(w: Worker, feed: Option<Action>)
    requires Shape(w) && SetsEvents(w)
    ensures Shape(StartRound(w, feed)) && SetsEvents(StartRound(w, feed))
  {
  }

  lemma {:induction false} RunShape(w: Worker, ok: bool)
    requires Shape(w) && SetsEvents(w) && Enabled(w, Run(ok))
    requires EventsMatch(w)
    ensures Shape(RunNext(w, ok)) && SetsEvents(RunNext(w, ok)) && EventsMatch(RunNext(w, ok))
  {
  }

  lemma {:induction false} InstallTells(w: Worker, a: Action, p: Position)
    requires Tells(w, p) && w.tries.Keys == w.actions.Keys
    ensures Tells(Install(w, a), p)
    ensures GaveUp(Install(w, a).log, p) ==> GaveUp(w.log, p)
  {
    Snoc(w.log, Installed(a.position, a.id));
  }

  lemma {:induction false} StartKeeps(w: Worker, feed: Option<Action>)
    requires Loop(w) && w.phase.Head?
    ensures Loop(StartRound(w, feed))
  {
    StartShape(w, feed);
    var v := StartRound(w, feed);
    if feed.Some? {
      Snoc(w.log, Installed(feed.value.position, feed.value.id));
    }
    forall p ensures Tells(v, p) && !GaveUp(v.log, p) {
      assert Tells(w, p) && !GaveUp(w.log, p);
      if feed.Some? {
        InstallTells(w, feed.value, p);
        assert Tells(Install(w, feed.value), p);
      }
    }
  }

  lemma {:induction false} RunTells(w: Worker, ok: bool, p: Position)
    requires Enabled(w, Run(ok)) && w.tries.Keys == w.actions.Keys
    requires Tells(w, p) && Tells(w, w.order[w.phase.next])
    requires !GaveUp(w.log, p)
    ensures Tells(RunNext(w, ok), p)
    ensures GaveUp(RunNext(w, ok).log, p) <==> RunNext(w, ok).phase.Failed? && p == w.order[w.phase.next]
  {
    var q := w.order[w.phase.next];
    Snoc(w.log, Ran(q, w.actions[q], ok));
  }

  lemma {:induction false} RunTellsAll(w: Worker, ok: bool)
    requires Loop(w) && Enabled(w, Run(ok))
    ensures forall p :: Tells(RunNext(w, ok), p)
    ensures RunNext(w, ok).phase.Failed? <==> exists p :: GaveUp(RunNext(w, ok).log, p)
  {
    var q := w.order[w.phase.next];
    var v := RunNext(w, ok);
    assert Tells(w, q);
    forall p ensures Tells(v, p) && (GaveUp(v.log, p) <==> v.phase.Failed? && p == q) {
      assert Tells(w, p) && !GaveUp(w.log, p);
      RunTells(w, ok, p);
    }
    assert GaveUp(v.log, q) <==> v.phase.Failed?;
  }

  lemma {:induction false} RunKeeps(w: Worker, ok: bool)
    requires Loop(w) && Enabled(w, Run(ok))
    ensures Loop(RunNext(w, ok))
  {
    var q := w.order[w.phase.next];
    assert Tells(w, q);
    assert EventsMatch(w) by {
      assert forall p | p in w.events :: Tells(w, p);
    }
    RunShape(w, ok);
    RunTellsAll(w, ok);
    Snoc(w.log, Ran(q, w.actions[q], ok));
  }

  /** Every step of the worker keeps the invariant. */
  lemma {:induction false} StepKeeps(w: Worker, s: Step)
    requires Loop(w) && Enabled(w, s)
    ensures Loop(Apply(w, s))
  {
    match s
    case Begin(feed) => StartKeeps(w, feed);
    case Run(ok) => RunKeeps(w, ok);
    case Stop =>
      var v := Apply(w, s);
      forall p ensures Tells(v, p) {
        assert Tells(w, p);
      }
  }

  /** The workers that some run of the loop reaches, whatever the queue feeds and however the
      devices answer. */
  ghost predicate Reaches(steps: seq<Step>, w: Worker) {
    After(steps) == Some(w)
  }

  function After(steps: seq<Step>): Option<Worker> {
    if steps == [] then Some(FRESH)
    else
      var v, s := After(steps[..|steps| - 1]), steps[|steps| - 1];
      if v.Some? && Enabled(v.value, s) then Some(Apply(v.value, s)) else None
  }

  lemma {:induction false} EveryRun(steps: seq<Step>, w: Worker)
    requires Reaches(steps, w)
    ensures Loop(w)
  {
    if steps == [] {
      forall p ensures Tells(w, p) {
      }
    } else {
      var v := After(steps[..|steps| - 1]).value;
      EveryRun(steps[..|steps| - 1], v);
      StepKeeps(v, steps[|steps| - 1]);
    }
  }

  // ---------------------------------------------------------------------------------------
  // The promises

  /** An event is set exactly when the function queued with it has completed, and at that
      time that function was the one installed for its position. */
  lemma {:induction false} EventsMeanCompletion(steps: seq<Step>, w: Worker, event: nat)
    requires Reaches(steps, w)
    ensures event in w.fired <==> exists j: nat :: CompletedAt(w.log, j, event)
  {
    EveryRun(steps, w);
    CompletedMeans(w.log, event);
  }

  /** At the loop head every counter is between one and three. */
  lemma {:induction false} TriesAtHead(steps: seq<Step>, w: Worker, p: Position)
    requires Reaches(steps, w) && w.phase.Head? && p in w.actions
    ensures p in w.tries && 1 <= w.tries[p] <= TRY_COUNT
  {
    EveryRun(steps, w);
    assert Tells(w, p) && !GaveUp(w.log, p);
  }

  /** The loop dies exactly when one position has failed three rounds in a row. */
  lemma {:induction false} DiesAfterThreeFailures(steps: seq<Step>, w: Worker)
    requires Reaches(steps, w)
    ensures w.phase.Failed? <==> exists p :: GaveUp(w.log, p)
    ensures forall p :: Streak(w.log, p) <= TRY_COUNT
  {
    EveryRun(steps, w);
    forall p ensures Streak(w.log, p) <= TRY_COUNT {
      assert Tells(w, p);
    }
  }

  /** One pass of the inner loop, as far as the answers go. */
  function RunRest(w: Worker, answers: seq<bool>): Worker
    decreases |answers|
  {
    if answers != [] && Enabled(w, Run(answers[0])) then RunRest(RunNext(w, answers[0]), answers[1..]) else w
  }

  function AllWell(n: nat): seq<bool> {
    if n == 0 then [] else [true] + AllWell(n - 1)
  }

  /** The round is done up to its next position: no event is pending before it. */
  ghost predicate DoneBefore(w: Worker, n: nat) {
    forall i | 0 <= i < n && i < |w.order| :: w.order[i] !in w.events
  }

  ghost predicate InRound(w: Worker) {
    Shape(w) && EventsMatch(w) && SetsEvents(w) && w.phase.Round? && DoneBefore(w, w.phase.next)
  }

  ghost predicate AllFired(w: Worker) {
    w.phase.Head? && w.events == map[] && forall p | p in w.actions :: w.actions[p] in w.fired
  }

  lemma {:induction false} DoneRound(w: Worker)
    requires Shape(w) && SetsEvents(w) && w.phase.Head? && DoneBefore(w, |w.order|)
    ensures AllFired(w)
  {
    forall p ensures p !in w.events {
      assert p in w.events ==> p in w.actions && p in w.order;
    }
  }

  lemma {:induction false} RunInRound(w: Worker)
    requires InRound(w)
    ensures Enabled(w, Run(true))
    ensures var v := RunNext(w, true);
      v.actions == w.actions && v.order == w.order &&
      if w.phase.next + 1 < |w.order| then InRound(v) && v.phase.next == w.phase.next + 1 else AllFired(v)
  {
    RunShape(w, true);
    var v := RunNext(w, true);
    assert DoneBefore(v, w.phase.next + 1);
    if w.phase.next + 1 >= |w.order| {
      DoneRound(v);
    }
  }

  lemma {:induction false} GoodRoundFiresAll(w: Worker)
    requires InRound(w)
    ensures AllFired(RunRest(w, AllWell(|w.order| - w.phase.next)))
    ensures RunRest(w, AllWell(|w.order| - w.phase.next)).actions == w.actions
    decreases |w.order| - w.phase.next
  {
    var n := |w.order| - w.phase.next;
    RunInRound(w);
    var v := RunNext(w, true);
    assert AllWell(n)[1..] == AllWell(n - 1);
    assert RunRest(w, AllWell(n)) == RunRest(v, AllWell(n - 1));
    if n > 1 {
      GoodRoundFiresAll(v);
    }
  }

  /** After a turn in which every device answers, the worker is back at the loop head, no event
      is pending, and the event of every installed function is set, also the one just fed. */
  lemma {:induction false} GoodTurnFiresAll(steps: seq<Step>, w: Worker, feed: Option<Action>)
    requires Reaches(steps, w) && w.phase.Head?
    ensures
      var start := StartRound(w, feed);
      var v := RunRest(start, AllWell(|start.order|));
      AllFired(v) && v.actions == start.actions
  {
    EveryRun(steps, w);
    StartKeeps(w, feed);
    var start := StartRound(w, feed);
    if start.phase.Round? {
      assert EventsMatch(start) by {
        assert forall p | p in start.events :: Tells(start, p);
      }
      GoodRoundFiresAll(start);
    } else {
      DoneRound(start);
    }
  }

  /** A turn of the outer loop is a run of steps, so all of the above holds after it. */
  lemma {:induction false} TurnIsRun(steps: seq<Step>, w: Worker, feed: Option<Action>, answers: seq<bool>)
    returns (more: seq<Step>)
    requires Reaches(steps, w) && w.phase.Head?
    ensures Reaches(steps + more, RunRest(StartRound(w, feed), answers))
  {
    OneMoreStep(steps, w, Begin(feed));
    more := RestIsRun(steps + [Begin(feed)], StartRound(w, feed), answers);
    assert steps + ([Begin(feed)] + more) == steps + [Begin(feed)] + more;
    more := [Begin(feed)] + more;
  }

  lemma {:induction false} OneMoreStep(steps: seq<Step>, w: Worker, s: Step)
    requires Reaches(steps, w) && Enabled(w, s)
    ensures Reaches(steps + [s], Apply(w, s))
  {
    Snoc(steps, s);
  }

  lemma {:induction false} RestIsRun(steps: seq<Step>, w: Worker, answers: seq<bool>) returns (more: seq<Step>)
    requires Reaches(steps, w)
    ensures Reaches(steps + more, RunRest(w, answers))
    decreases |answers|
  {
    if answers != [] && Enabled(w, Run(answers[0])) {
      var s := Run(answers[0]);
      OneMoreStep(steps, w, s);
      more := RestIsRun(steps + [s], Apply(w, s), answers[1..]);
      assert steps + ([s] + more) == steps + [s] + more;
      more := [s] + more;
    } else {
      more := [];
      assert steps + more == steps;
    }
  }

  lemma {:induction false} RunOneOf(w: Worker, answers: seq<bool>, n: nat)
    requires Loop(w) && w.phase.Round? && n < |answers|
    ensures Enabled(w, Run(answers[n])) && Loop(RunNext(w, answers[n]))
    ensures RunRest(w, answers[n..]) == RunRest(RunNext(w, answers[n]), answers[n + 1..])
  {
    RunKeeps(w, answers[n]);
    assert answers[n..][1..] == answers[n + 1..];
  }

  // ---------------------------------------------------------------------------------------

  class Thread {
    var order: seq<Position>
    var actions: map<Position, nat>
    var events: map<Position, nat>
    var tries: map<Position, int>
    var fired: set<nat>
    var log: seq<Entry>
    var failed: bool

    ghost function Value(): Worker
      reads this
    {
      Worker(order, actions, events, tries, fired, log, if failed then Failed else Head)
    }

    constructor ()
      ensures Value() == FRESH
    {
      order, actions, events, tries, fired, log, failed := [], map[], map[], map[], {}, [], false;
    }

    /** The worker inside the inner loop, about to run the function at `order[n]`. */
    ghost function Inside(n: nat): Worker
      reads this
    {
      Value().(phase := if failed then Failed else PhaseAt(order, n))
    }

    method Accept(feed: Option<Action>)
      requires !failed && Shape(Value()) && SetsEvents(Value())
      modifies this
      ensures !failed && Inside(0) == StartRound(old(Value()), feed)
      ensures |order| <= old(|order|) + 1
    {
      if feed.Some? {
        var Action(position, id) := feed.value;
        if position !in actions {
          order := order + [position];
        }
        actions := actions[position := id];
        events := events[position := id];
        tries := tries[position := TRY_COUNT];
        log := log + [Installed(position, id)];
      }
    }

    method RunAt(n: nat, ok: bool)
      requires !failed && n < |order| && Enabled(Inside(n), Run(ok))
      modifies this
      ensures Inside(n + 1) == RunNext(old(Inside(n)), ok)
      ensures order == old(order)
    {
      var position := order[n];
      log := log + [Ran(position, actions[position], ok)];
      if !ok {
        tries := tries[position := tries[position] - 1];
        if tries[position] < 1 {
          failed := true;
        }
      } else {
        if position in events {
          fired := fired + {events[position]};
        }
        events := events - {position};
        tries := tries[position := TRY_COUNT];
      }
    }

    /** The inner loop, over the functions in the order of their first installation, until one
        has failed for the third time in a row. */
    method RunAll(answers: seq<bool>)
      requires Loop(Inside(0)) && |order| <= |answers|
      modifies this
      ensures Loop(Value())
      ensures Value() == RunRest(old(Inside(0)), answers)
    {
      ghost var start := Inside(0);
      var n := 0;
      assert answers[0..] == answers;
      while n < |order| && !failed
        invariant n <= |order| <= |answers|
        invariant Loop(Inside(n))
        invariant RunRest(start, answers) == RunRest(Inside(n), answers[n..])
        decreases |order| - n
      {
        RunOneOf(Inside(n), answers, n);
        RunAt(n, answers[n]);
        n := n + 1;
      }
      assert Inside(n) == Value();
    }

    /** One turn of the outer loop: install what the queue gave, then run all functions. */
    method Turn(feed: Option<Action>, answers: seq<bool>)
      requires Loop(Value()) && !failed
      requires |answers| > |order|
      modifies this
      ensures Value() == RunRest(StartRound(old(Value()), feed), answers)
      ensures Loop(Value())
    {
      StartKeeps(Value(), feed);
      Accept(feed);
      RunAll(answers);
    }
  }
}
