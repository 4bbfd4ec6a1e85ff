/** software/util.py `check_digest`, `remove_digest`, `store_digest` and
    `embed_data_with_digest`: embedded files are only rendered again when one of two digest
    files says so. One digest belongs to the environment, the other to the shared output. */
module BuildCache {
  import opened Bytes
  import opened Lines
  import opened EmbedRender

  type Env = string
  type Hash = seq<Byte> -> string

  const DIGEST_LENGTH := 64

  /** What is written to the two embedded files. */
  datatype Texts = Texts(cpp: string, header: string)

  /** The embedded files belong to one variable name. `render` says what each version of the
      generating script writes for given types and filtered data. */
  datatype World = World(name: string, hash: Hash, render: (seq<Byte>, Variable, seq<Byte>) -> Texts)

  /** The script is the one modelled here; other versions of it may write anything. */
  ghost predicate IsThisScript(w: World, script: seq<Byte>) {
    forall v, data :: w.render(script, v, data) == Texts(Cpp(v, data), Header(v))
  }

  /** What one call embeds. The digest covers the generating script and the data only. */
  datatype Input = Input(
    script: seq<Byte>, data: seq<Byte>, varType: string, sizeType: string, filter: seq<Byte> -> seq<Byte>)
  {
    function Stream(): seq<Byte> {
      script + data
    }

    function Declared(w: World): Variable {
      Variable(w.name, varType, sizeType)
    }

    function Rendered(w: World): Texts {
      w.render(script, Declared(w), filter(data))
    }
  }

  datatype File = Digest1(env: Env) | Digest2 | CppFile | HeaderFile

  type Disk = map<File, string>

  datatype Op = Remove(file: File) | Write(file: File, text: string)

  function Apply(d: Disk, op: Op): Disk {
    match op
    case Remove(f) => d - {f}
    case Write(f, text) => d[f := text]
  }

  function ApplyAll(d: Disk, ops: seq<Op>): Disk
    decreases |ops|
  {
    if ops == [] then d else ApplyAll(Apply(d, ops[0]), ops[1..])
  }

  /** Both digest files hold the digest of the current script and data. */
  predicate UpToDate(w: World, d: Disk, env: Env, input: Input) {
    && Digest1(env) in d && d[Digest1(env)] == w.hash(input.Stream())
    && Digest2 in d && d[Digest2] == w.hash(input.Stream())
  }

  /** The call returns without touching the four files. */
  predicate Reused(w: World, d: Disk, env: Env, input: Input) {
    UpToDate(w, d, env, input) && CppFile in d && HeaderFile in d
  }

  /** The file operations of one call, in their order. */
  function Plan(w: World, d: Disk, env: Env, input: Input): seq<Op> {
    if Reused(w, d, env, input) then []
    else
      [Remove(Digest1(env)), Remove(Digest2), Remove(CppFile), Remove(HeaderFile),
       Write(CppFile, input.Rendered(w).cpp), Write(HeaderFile, input.Rendered(w).header),
       Write(Digest1(env), w.hash(input.Stream())), Write(Digest2, w.hash(input.Stream()))]
  }

  datatype Reason = NoReason | DigestMissing | OutOfSync | OutOfDate | Unknown

  class Output {
    var disk: Disk

    constructor ()
      ensures disk == map[]
    {
      disk := map[];
    }

    /** `check_digest`: the reported reason is never the fallback. */
    method CheckDigest(w: World, env: Env, input: Input) returns (needsUpdate: bool, reason: Reason, digest: string)
      ensures needsUpdate == !UpToDate(w, disk, env, input) && digest == w.hash(input.script + input.data)
      ensures reason.NoReason? <==> !needsUpdate
      ensures reason.DigestMissing? <==> Digest1(env) !in disk || Digest2 !in disk
      ensures !reason.Unknown?
    {
      var old1 := if Digest1(env) in disk then Some(disk[Digest1(env)]) else None;
      var old2 := if Digest2 in disk then Some(disk[Digest2]) else None;
      digest := w.hash(input.script + input.data);
      needsUpdate := old1 != Some(digest) || old2 != Some(digest);
      if !needsUpdate {
        reason := NoReason;
      } else if old1 == None || old2 == None {
        reason := DigestMissing;
      } else if old1 != old2 {
        reason := OutOfSync;
      } else if old1 != Some(digest) {
        reason := OutOfDate;
      } else {
        reason := Unknown;
      }
    }

    method RemoveDigest(env: Env)
      modifies this
      ensures disk == ApplyAll(old(disk), [Remove(Digest1(env)), Remove(Digest2)])
    {
      TwoOps(disk, Remove(Digest1(env)), Remove(Digest2));
      disk := disk - {Digest1(env)};
      disk := disk - {Digest2};
    }

    method StoreDigest(env: Env, digest: string)
      modifies this
      ensures disk == ApplyAll(old(disk), [Write(Digest1(env), digest), Write(Digest2, digest)])
    {
      TwoOps(disk, Write(Digest1(env), digest), Write(Digest2, digest));
      disk := disk[Digest1(env) := digest];
      disk := disk[Digest2 := digest];
    }

    /** `embed_data_internal` on the disk. */
    method EmbedDataInternal(v: Variable, data: seq<Byte>)
      modifies this
      ensures disk == ApplyAll(old(disk), [Remove(CppFile), Remove(HeaderFile),
                                           Write(CppFile, Cpp(v, data)), Write(HeaderFile, Header(v))])
    {
      ghost var before := disk;
      disk := disk - {CppFile};
      disk := disk - {HeaderFile};
      var cpp := RenderCpp(v, data);
      ghost var removed := disk;
      disk := disk[CppFile := cpp];
      disk := disk[HeaderFile := Header(v)];
      TwoOps(before, Remove(CppFile), Remove(HeaderFile));
      TwoOps(removed, Write(CppFile, cpp), Write(HeaderFile, Header(v)));
      ApplyAppend(before, [Remove(CppFile), Remove(HeaderFile)], [Write(CppFile, cpp), Write(HeaderFile, Header(v))]);
    }

    /** `embed_data_with_digest`. */
    method EmbedDataWithDigest(w: World, env: Env, input: Input)
      requires IsThisScript(w, input.script)
      modifies this
      ensures disk == ApplyAll(old(disk), Plan(w, old(disk), env, input))
    {
      ghost var d0 := disk;
      var needsUpdate, reason, digest := CheckDigest(w, env, input);
      if !needsUpdate && CppFile in disk && HeaderFile in disk {
        return;
      }
      RemoveDigest(env);
      EmbedDataInternal(input.Declared(w), input.filter(input.data));
      StoreDigest(env, digest);
      PlanParts(w, d0, env, input);
    }
  }

  lemma PlanParts(w: World, d: Disk, env: Env, input: Input)
    requires !Reused(w, d, env, input)
    ensures var digest, texts := w.hash(input.Stream()), input.Rendered(w);
      ApplyAll(d, Plan(w, d, env, input))
      == ApplyAll(
           ApplyAll(
             ApplyAll(d, [Remove(Digest1(env)), Remove(Digest2)]),
             [Remove(CppFile), Remove(HeaderFile), Write(CppFile, texts.cpp), Write(HeaderFile, texts.header)]),
           [Write(Digest1(env), digest), Write(Digest2, digest)])
  {
    var digest, texts := w.hash(input.Stream()), input.Rendered(w);
    var removal := [Remove(Digest1(env)), Remove(Digest2)];
    var embedding := [Remove(CppFile), Remove(HeaderFile), Write(CppFile, texts.cpp), Write(HeaderFile, texts.header)];
    var storing := [Write(Digest1(env), digest), Write(Digest2, digest)];
    ApplyAppend(d, removal, embedding);
    ApplyAppend(d, removal + embedding, storing);
    assert removal + embedding + storing == Plan(w, d, env, input);
  }

  lemma TwoOps(d: Disk, a: Op, b: Op)
    ensures ApplyAll(d, [a, b]) == Apply(Apply(d, a), b)
  {
    assert [a, b][1..] == [b];
    assert ApplyAll(Apply(d, a), [b]) == ApplyAll(Apply(Apply(d, a), b), []);
  }

  lemma {:induction false} ApplyAppend(d: Disk, a: seq<Op>, b: seq<Op>)
    ensures ApplyAll(d, a + b) == ApplyAll(ApplyAll(d, a), b)
    decreases |a|
  {
    if a == [] {
      assert a + b == b;
    } else {
      ApplyAppend(Apply(d, a[0]), a[1..], b);
      assert (a + b)[1..] == a[1..] + b;
    }
  }

  // ---- Histories with crashes ----

  /** A call may stop after `done` of its operations; the next write may be torn, leaving the
      first `torn` characters of its text in the file. */
  datatype Event =
    | Build(env: Env, input: Input)
    | Crash(env: Env, input: Input, done: nat, torn: Option<nat>)
    | Lose(file: File)

  function Torn(op: Op, n: nat): Op {
    match op
    case Remove(f) => op
    case Write(f, text) => if n < |text| then Write(f, text[..n]) else op
  }

  /** The operations that reached the disk. */
  function Performed(plan: seq<Op>, e: Event): seq<Op>
    requires e.Crash?
  {
    if e.done >= |plan| then plan
    else plan[..e.done] + (if e.torn.Some? then [Torn(plan[e.done], e.torn.value)] else [])
  }

  function Step(w: World, d: Disk, e: Event): Disk {
    match e
    case Build(env, input) => ApplyAll(d, Plan(w, d, env, input))
    case Crash(env, input, _, _) => ApplyAll(d, Performed(Plan(w, d, env, input), e))
    case Lose(f) => d - {f}
  }

  /** The disk after a history that starts with a clean checkout. */
  function After(w: World, events: seq<Event>): Disk {
    if events == [] then map[] else Step(w, After(w, events[..|events| - 1]), events[|events| - 1])
  }

  /** `input` was the input of some call of the history. */
  ghost predicate Built(events: seq<Event>, input: Input) {
    exists k :: 0 <= k < |events| && (events[k].Build? || events[k].Crash?) && events[k].input == input
  }

  /** The call got as far as its last operation: it returned, or stopped when the shared digest
      was on the disk as a whole. */
  predicate Completes(e: Event) {
    e.Build? || (e.Crash? && (e.done >= 8 || (e.done == 7 && e.torn.Some? && e.torn.value >= DIGEST_LENGTH)))
  }

  /** The input of the last call that rendered the files and completed. */
  function LastRendered(w: World, events: seq<Event>): Option<Input> {
    if events == [] then None
    else
      var before, e := events[..|events| - 1], events[|events| - 1];
      if Completes(e) && !Reused(w, After(w, before), e.env, e.input) then Some(e.input) else LastRendered(w, before)
  }

  ghost predicate FixedLength(w: World) {
    forall x :: |w.hash(x)| == DIGEST_LENGTH
  }

  /** The embedded files that exist are the rendering of the input. */
  predicate Renders(w: World, d: Disk, input: Input) {
    && (CppFile in d ==> d[CppFile] == input.Rendered(w).cpp)
    && (HeaderFile in d ==> d[HeaderFile] == input.Rendered(w).header)
  }

  /** The shared digest, where it is complete, vouches for the embedded files: it is the digest of
      the input that was last rendered, and so are they. */
  ghost predicate Consistent(w: World, d: Disk, last: Option<Input>) {
    Digest2 in d && |d[Digest2]| == DIGEST_LENGTH ==>
      last.Some? && d[Digest2] == w.hash(last.value.Stream()) && Renders(w, d, last.value)
  }

  // ---- The states that a call passes through ----

  /** The disk after the first `k` operations of a call that renders. */
  function Passed(w: World, d: Disk, env: Env, input: Input, k: nat): Disk
    requires !Reused(w, d, env, input) && k <= 8
  {
    ApplyAll(d, Plan(w, d, env, input)[..k])
  }

  lemma {:induction false} OneMoreOp(w: World, d: Disk, env: Env, input: Input, k: nat)
    requires !Reused(w, d, env, input) && k < 8
    ensures Passed(w, d, env, input, k + 1) == Apply(Passed(w, d, env, input, k), Plan(w, d, env, input)[k])
  {
    var plan := Plan(w, d, env, input);
    var r := ApplyAll(d, plan[..k]);
    assert plan[..k + 1] == plan[..k] + [plan[k]];
    ApplyAppend(d, plan[..k], [plan[k]]);
    assert ApplyAll(r, [plan[k]]) == ApplyAll(Apply(r, plan[k]), []);
  }

  /** The first two operations touch nothing but the digests. */
  lemma {:induction false} BeforeRemoval(w: World, d: Disk, env: Env, input: Input)
    requires !Reused(w, d, env, input)
    ensures Passed(w, d, env, input, 0) == d
    ensures Passed(w, d, env, input, 1) == d - {Digest1(env)}
  {
    OneMoreOp(w, d, env, input, 0);
  }

  /** The shared digest is gone from the second operation until the last. */
  lemma {:induction false} DigestIsAway(w: World, d: Disk, env: Env, input: Input, k: nat)
    requires !Reused(w, d, env, input) && 2 <= k < 8
    ensures Digest2 !in Passed(w, d, env, input, k)
  {
    OneMoreOp(w, d, env, input, k - 1);
    if k > 2 {
      DigestIsAway(w, d, env, input, k - 1);
    }
  }

  /** Both files are complete from the sixth operation on. */
  lemma {:induction false} FilesAreWritten(w: World, d: Disk, env: Env, input: Input, k: nat)
    requires !Reused(w, d, env, input) && 5 <= k <= 8
    ensures var r := Passed(w, d, env, input, k);
      && CppFile in r && r[CppFile] == input.Rendered(w).cpp
      && (k >= 6 ==> HeaderFile in r && r[HeaderFile] == input.Rendered(w).header)
  {
    OneMoreOp(w, d, env, input, k - 1);
    if k > 5 {
      FilesAreWritten(w, d, env, input, k - 1);
    }
  }

  /** At the end both digests are stored. */
  lemma {:induction false} DigestsAreStored(w: World, d: Disk, env: Env, input: Input)
    requires !Reused(w, d, env, input)
    ensures Passed(w, d, env, input, 8) == ApplyAll(d, Plan(w, d, env, input))
    ensures var r, digest := ApplyAll(d, Plan(w, d, env, input)), w.hash(input.Stream());
      Digest1(env) in r && r[Digest1(env)] == digest && Digest2 in r && r[Digest2] == digest
  {
    OneMoreOp(w, d, env, input, 6);
    OneMoreOp(w, d, env, input, 7);
    assert Plan(w, d, env, input)[..8] == Plan(w, d, env, input);
  }

  // ---- Every history ----

  lemma {:induction false} CompleteKeepsConsistent(w: World, d: Disk, env: Env, input: Input)
    requires !Reused(w, d, env, input)
    ensures Consistent(w, ApplyAll(d, Plan(w, d, env, input)), Some(input))
  {
    FilesAreWritten(w, d, env, input, 8);
    DigestsAreStored(w, d, env, input);
  }

  /** A plan cut short between two operations. */
  lemma {:induction false} CutKeepsConsistent(w: World, d: Disk, last: Option<Input>, env: Env, input: Input, k: nat)
    requires Consistent(w, d, last) && !Reused(w, d, env, input) && k < 8
    ensures Consistent(w, Passed(w, d, env, input, k), last)
  {
    if k < 2 {
      BeforeRemoval(w, d, env, input);
    } else {
      DigestIsAway(w, d, env, input, k);
    }
  }

  /** A plan cut short in the middle of a write: it is either one of the operations while the
      shared digest is away, or the shared digest itself, and then complete or too short. */
  lemma {:induction false} TornKeepsConsistent(w: World, d: Disk, last: Option<Input>, e: Event)
    requires FixedLength(w) && Consistent(w, d, last) && e.Crash? && !Reused(w, d, e.env, e.input)
    requires e.done < 8 && e.torn.Some?
    ensures Consistent(w, Step(w, d, e), if Completes(e) then Some(e.input) else last)
  {
    var plan, n := Plan(w, d, e.env, e.input), e.torn.value;
    var op, r := Torn(plan[e.done], n), Passed(w, d, e.env, e.input, e.done);
    ApplyAppend(d, plan[..e.done], [op]);
    assert ApplyAll(r, [op]) == ApplyAll(Apply(r, op), []);
    if e.done < 2 {
      OneMoreOp(w, d, e.env, e.input, e.done);
      CutKeepsConsistent(w, d, last, e.env, e.input, e.done + 1);
    } else {
      DigestIsAway(w, d, e.env, e.input, e.done);
      if e.done == 7 {
        FilesAreWritten(w, d, e.env, e.input, 7);
      }
    }
  }

  /** A plan cut short anywhere, with a torn write or not, keeps the disk consistent. */
  lemma {:induction false} CallKeepsConsistent(w: World, d: Disk, last: Option<Input>, e: Event)
    requires FixedLength(w) && Consistent(w, d, last) && (e.Build? || e.Crash?)
    ensures Consistent(w, Step(w, d, e), if Completes(e) && !Reused(w, d, e.env, e.input) then Some(e.input) else last)
  {
    if !Reused(w, d, e.env, e.input) {
      var plan := Plan(w, d, e.env, e.input);
      if e.Build? || e.done >= 8 {
        CompleteKeepsConsistent(w, d, e.env, e.input);
      } else if e.torn.Some? {
        TornKeepsConsistent(w, d, last, e);
      } else {
        CutKeepsConsistent(w, d, last, e.env, e.input, e.done);
        assert plan[..e.done] + [] == plan[..e.done];
      }
    }
  }

  /** The invariant of every history of builds by any environments, crashes and lost files. */
  lemma {:induction false} AlwaysConsistent(w: World, events: seq<Event>)
    requires FixedLength(w)
    ensures Consistent(w, After(w, events), LastRendered(w, events))
  {
    if events != [] {
      var before, e := events[..|events| - 1], events[|events| - 1];
      AlwaysConsistent(w, before);
      if !e.Lose? {
        CallKeepsConsistent(w, After(w, before), LastRendered(w, before), e);
      }
    }
  }

  lemma {:induction false} LastRenderedWasBuilt(w: World, events: seq<Event>)
    ensures LastRendered(w, events).Some? ==> Built(events, LastRendered(w, events).value)
  {
    if events != [] {
      var before := events[..|events| - 1];
      LastRenderedWasBuilt(w, before);
      if LastRendered(w, before).Some? && Built(before, LastRendered(w, before).value) {
        var i := LastRendered(w, before).value;
        var k :| 0 <= k < |before| && (before[k].Build? || before[k].Crash?) && before[k].input == i;
        assert events[k] == before[k];
        assert Built(events, i);
      }
      assert events[|events| - 1].Build? || events[|events| - 1].Crash? ==> Built(events, events[|events| - 1].input);
    }
  }

  // ---- What reuse promises ----

  /** The digests of the history do not collide with the digest of this input. */
  ghost predicate NoCollision(w: World, events: seq<Event>, input: Input) {
    forall i :: Built(events, i) && w.hash(i.script + i.data) == w.hash(input.script + input.data) ==>
      i.script + i.data == input.script + input.data
  }

  /** Script and data are hashed one after the other without a mark in between. No other division
      of the same bytes into script and data was ever embedded. */
  ghost predicate NoOtherSplit(events: seq<Event>, input: Input) {
    forall i :: Built(events, i) && i.script + i.data == input.script + input.data ==>
      i.script == input.script && i.data == input.data
  }

  /** The files are the rendering of the input. */
  predicate Current(w: World, d: Disk, input: Input) {
    CppFile in d && HeaderFile in d && Texts(d[CppFile], d[HeaderFile]) == input.Rendered(w)
  }

  /** Whenever a call reuses the embedded files, they are the rendering of the input that was last
      rendered, and that had the same script and data. */
  lemma {:induction false} ReusedFilesWereRendered(w: World, events: seq<Event>, env: Env, input: Input)
    requires FixedLength(w) && NoCollision(w, events, input) && NoOtherSplit(events, input)
    requires Reused(w, After(w, events), env, input)
    ensures LastRendered(w, events).Some?
    ensures var i := LastRendered(w, events).value;
      i.script == input.script && i.data == input.data && Current(w, After(w, events), i)
  {
    AlwaysConsistent(w, events);
    LastRenderedWasBuilt(w, events);
  }

  /** A call with another script or other data than were last rendered renders again. */
  lemma {:induction false} ChangeIsRendered(w: World, events: seq<Event>, env: Env, input: Input)
    requires FixedLength(w) && NoCollision(w, events, input) && NoOtherSplit(events, input)
    requires LastRendered(w, events).Some?
    requires var i := LastRendered(w, events).value; i.script != input.script || i.data != input.data
    ensures !Reused(w, After(w, events), env, input)
    ensures Current(w, Step(w, After(w, events), Build(env, input)), input)
  {
    AlwaysConsistent(w, events);
    LastRenderedWasBuilt(w, events);
    FilesAreWritten(w, After(w, events), env, input, 8);
    DigestsAreStored(w, After(w, events), env, input);
  }

  ghost predicate Injective(hash: Hash) {
    forall x, y :: hash(x) == hash(y) ==> x == y
  }

  /** The digest covers the script and the data, whatever else was embedded before: a call with the
      same script and other data than were last rendered, or the same data and another script,
      renders again, and the files are then its rendering. */
  lemma {:induction false} DigestCoversScriptAndData(w: World, events: seq<Event>, env: Env, input: Input)
    requires FixedLength(w) && Injective(w.hash) && LastRendered(w, events).Some?
    requires var i := LastRendered(w, events).value;
      (i.script == input.script && i.data != input.data) || (i.data == input.data && i.script != input.script)
    ensures !Reused(w, After(w, events), env, input)
    ensures Current(w, Step(w, After(w, events), Build(env, input)), input)
  {
    var i := LastRendered(w, events).value;
    AlwaysConsistent(w, events);
    if i.script == input.script {
      assert i.data == (i.script + i.data)[|i.script|..];
      assert input.data == (input.script + input.data)[|i.script|..];
    } else {
      assert |i.script + i.data| - |i.data| == |i.script|;
      assert i.script == (i.script + i.data)[..|i.script + i.data| - |i.data|];
      assert input.script == (input.script + input.data)[..|input.script + input.data| - |input.data|];
    }
    FilesAreWritten(w, After(w, events), env, input, 8);
    DigestsAreStored(w, After(w, events), env, input);
  }

  /** Reused files are current wherever the calls of the history with the same script and data had
      the same types and the same filtered data. */
  lemma {:induction false} ReusedFilesAreCurrent(w: World, events: seq<Event>, env: Env, input: Input)
    requires FixedLength(w) && NoCollision(w, events, input) && NoOtherSplit(events, input)
    requires forall i :: Built(events, i) && i.script + i.data == input.script + input.data ==> SameOutput(i, input)
    requires Reused(w, After(w, events), env, input)
    ensures Current(w, After(w, events), input)
  {
    ReusedFilesWereRendered(w, events, env, input);
    LastRenderedWasBuilt(w, events);
  }

  /** The two calls have the same types and filtered data. */
  predicate SameOutput(i: Input, j: Input) {
    i.varType == j.varType && i.sizeType == j.sizeType && i.filter(i.data) == j.filter(j.data)
  }

  /** The digest covers neither types nor filter. After any history, reused files are current if
      and only if the input last rendered has the same types and filtered data. */
  lemma {:induction false} ReusedFilesAreCurrentExactly(w: World, events: seq<Event>, env: Env, input: Input)
    requires FixedLength(w) && NoCollision(w, events, input) && NoOtherSplit(events, input)
    requires IsThisScript(w, input.script) && IsLine(w.name) && IsLine(input.varType)
    requires Reused(w, After(w, events), env, input)
    ensures LastRendered(w, events).Some?
    ensures var i := LastRendered(w, events).value;
      IsLine(i.varType) ==> (Current(w, After(w, events), input) <==> SameOutput(i, input))
  {
    ReusedFilesWereRendered(w, events, env, input);
    var i := LastRendered(w, events).value;
    if IsLine(i.varType) && Current(w, After(w, events), input) {
      HeaderDeterminesTypes(i.Declared(w), input.Declared(w));
      CppDeterminesData(input.Declared(w), i.filter(i.data), input.filter(input.data));
    }
  }

  /** A completed call repeated with the same input by the same environment rewrites nothing. */
  lemma {:induction false} CompletedBuildIsReused(w: World, d: Disk, env: Env, input: Input)
    ensures Plan(w, Step(w, d, Build(env, input)), env, input) == []
  {
    if !Reused(w, d, env, input) {
      FilesAreWritten(w, d, env, input, 8);
      DigestsAreStored(w, d, env, input);
    }
  }

  /** So after every history and a build, the next call with the same script and data reuses the
      files, and they are stale exactly if it has other types or other filtered data than the
      input last rendered. */
  lemma {:induction false} StaleAfterGeneratorChange(w: World, events: seq<Event>, env: Env, input: Input, now: Input)
    requires FixedLength(w) && IsThisScript(w, now.script)
    requires IsLine(w.name) && IsLine(input.varType) && IsLine(now.varType)
    requires input.script == now.script && input.data == now.data && !Reused(w, After(w, events), env, input)
    ensures var d := Step(w, After(w, events), Build(env, input));
      Reused(w, d, env, now) && (Current(w, d, now) <==> SameOutput(input, now))
  {
    var d := After(w, events);
    FilesAreWritten(w, d, env, input, 8);
    DigestsAreStored(w, d, env, input);
    if Current(w, Step(w, d, Build(env, input)), now) {
      HeaderDeterminesTypes(input.Declared(w), now.Declared(w));
      CppDeterminesData(now.Declared(w), input.filter(input.data), now.filter(now.data));
    }
  }
}
