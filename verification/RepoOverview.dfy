/** update_repo_overview.py: the managed "WARP Repositories" block that is copied from
    repo_overview.rst into the README of every referenced repository. */
module RepoOverview {
  import opened Lines

  const BEGIN_MARKER := "BEGIN WARP REPOSITORIES"
  const END_MARKER := "END WARP REPOSITORIES"

  /** The lines b..e form the block: b is the first BEGIN line and e - 1 the first END line
      after it (an END on the BEGIN line itself does not count). */
  predicate IsSpan(lines: seq<string>, b: nat, e: nat) {
    && b + 2 <= e <= |lines|
    && Contains(lines[b], BEGIN_MARKER)
    && Contains(lines[e - 1], END_MARKER)
    && (forall i :: 0 <= i < b ==> !Contains(lines[i], BEGIN_MARKER))
    && (forall i :: b < i < e - 1 ==> !Contains(lines[i], END_MARKER))
  }

  /** `find_marker_span`: finds the span exactly when there is one. */
  method FindMarkerSpan(lines: seq<string>) returns (span: Option<(nat, nat)>)
    ensures span.Some? ==> IsSpan(lines, span.value.0, span.value.1)
    ensures span.None? ==> forall b: nat, e: nat :: !IsSpan(lines, b, e)
  {
    var begin: Option<nat> := None;
    for i := 0 to |lines|
      invariant begin.None? ==> forall j :: 0 <= j < i ==> !Contains(lines[j], BEGIN_MARKER)
      invariant begin.Some? ==> begin.value < i && Contains(lines[begin.value], BEGIN_MARKER)
      invariant begin.Some? ==> forall j :: 0 <= j < begin.value ==> !Contains(lines[j], BEGIN_MARKER)
      invariant begin.Some? ==> forall j :: begin.value < j < i ==> !Contains(lines[j], END_MARKER)
    {
      if begin.None? {
        if Contains(lines[i], BEGIN_MARKER) {
          begin := Some(i);
        }
      } else if Contains(lines[i], END_MARKER) {
        return Some((begin.value, i + 1));
      }
    }
    return None;
  }

  lemma {:induction false} SpanUnique(lines: seq<string>, b: nat, e: nat, b': nat, e': nat)
    requires IsSpan(lines, b, e) && IsSpan(lines, b', e')
    ensures b == b' && e == e'
  {
  }

  /** The canonical block of a source text with span b..e (`extract_canonical`). */
  function BlockText(lines: seq<string>, b: nat, e: nat): string
    requires b <= e <= |lines|
  {
    Strip(Join(lines[b..e]))
  }

  /** What may stand between two stripped pieces of the README: nothing, or one blank line. */
  function Glue(head: string, block: string, tail: string): string {
    (if head == [] then [] else head + [NL, NL]) + GlueTail(block, tail)
  }

  function GlueTail(block: string, tail: string): string {
    if tail == [] then block + [NL] else block + [NL, NL] + (tail + [NL])
  }

  function HeadText(lines: seq<string>, b: nat): string
    requires b <= |lines|
  {
    RStrip(Join(lines[..b]))
  }

  function TailText(lines: seq<string>, e: nat): string
    requires e <= |lines|
  {
    Strip(Join(lines[e..]))
  }

  method ExtractCanonical(source: string) returns (block: Option<string>)
    ensures block.None? ==> forall b: nat, e: nat :: !IsSpan(Split(source), b, e)
    ensures block.Some? ==> exists b: nat, e: nat ::
      IsSpan(Split(source), b, e) && block.value == BlockText(Split(source), b, e)
  {
    var lines := Split(source);
    var span := FindMarkerSpan(lines);
    if span.None? {
      return None;
    }
    var (start, end) := span.value;
    return Some(Strip(Join(lines[start..end])));
  }

  /** `build_new_readme`: the README with its block replaced, or nothing if it has no block. */
  method BuildNewReadme(text: string, canonical: string) returns (readme: Option<string>)
    ensures readme.None? ==> forall b: nat, e: nat :: !IsSpan(Split(text), b, e)
    ensures readme.Some? ==> exists b: nat, e: nat :: Rewrites(text, canonical, b, e, readme.value)
  {
    var lines := Split(text);
    var span := FindMarkerSpan(lines);
    if span.None? {
      return None;
    }
    var (start, end) := span.value;
    var head := RStrip(Join(lines[..start]));
    var tail := Strip(Join(lines[end..]));
    var parts: seq<string> := [];
    if head != [] {
      parts := parts + [head];
      parts := parts + [""];
    }
    parts := parts + [Strip(canonical)];
    if tail != [] {
      parts := parts + [""];
      parts := parts + [tail];
    }
    var result := Join(parts) + [NL];
    PartsGlue(head, Strip(canonical), tail);
    assert parts == (if head == [] then [] else [head, ""]) + TailParts(Strip(canonical), tail);
    assert Rewrites(text, canonical, start, end, result);
    return Some(result);
  }

  function TailParts(block: string, tail: string): seq<string> {
    if tail == [] then [block] else [block, "", tail]
  }

  lemma {:induction false} PartsGlue(head: string, block: string, tail: string)
    ensures Join((if head == [] then [] else [head, ""]) + TailParts(block, tail)) + [NL] == Glue(head, block, tail)
  {
    var rest := TailParts(block, tail);
    TailPartsGlue(block, tail);
    if head == [] {
      assert [] + rest == rest;
    } else {
      assert ([head, ""] + rest)[1..] == [""] + rest;
      assert ([""] + rest)[1..] == rest;
      assert Join([""] + rest) == "" + [NL] + Join(rest);
    }
  }

  lemma {:induction false} TailPartsGlue(block: string, tail: string)
    ensures Join(TailParts(block, tail)) + [NL] == GlueTail(block, tail)
  {
    if tail != [] {
      assert [block, "", tail][1..] == ["", tail];
      assert ["", tail][1..] == [tail];
      assert Join(["", tail]) == "" + [NL] + tail;
    }
  }

  /** `readme` is `text` with its block b..e replaced by `canonical`. */
  predicate Rewrites(text: string, canonical: string, b: nat, e: nat, readme: string) {
    var lines := Split(text);
    && IsSpan(lines, b, e)
    && readme == Glue(HeadText(lines, b), Strip(canonical), TailText(lines, e))
  }

  /** `block` is the managed block of some source file. */
  ghost predicate IsCanonical(block: string) {
    exists source: string, b: nat, e: nat ::
      IsSpan(Split(source), b, e) && block == BlockText(Split(source), b, e)
  }

  /** A canonical block is stripped, and its own lines are one span from end to end. */
  lemma {:induction false} CanonicalIsBlock(block: string)
    requires IsCanonical(block)
    ensures Strip(block) == block
    ensures IsSpan(Split(block), 0, |Split(block)|)
  {
    var source: string, b: nat, e: nat :|
      IsSpan(Split(source), b, e) && block == BlockText(Split(source), b, e);
    SpanAlone(Split(source), b, e);
    var body := Split(source)[b..e];
    SplitJoin(body);
    BlockEnds(body);
    StripAround(Join(body));
  }

  /** The lines of a span, taken on their own, are a span. */
  lemma {:induction false} SpanAlone(lines: seq<string>, b: nat, e: nat)
    requires AreLines(lines) && IsSpan(lines, b, e)
    ensures AreLines(lines[b..e]) && IsSpan(lines[b..e], 0, e - b)
  {
    forall i | 0 < i < e - b - 1 ensures !Contains(lines[b..e][i], END_MARKER) {
      assert lines[b..e][i] == lines[b + i];
    }
  }

  /** Lines that contain a marker are not empty, so their join starts and ends with text. */
  lemma {:induction false} BlockEnds(body: seq<string>)
    requires AreLines(body) && IsSpan(body, 0, |body|)
    ensures Stripped(Join(body))
  {
    JoinLast(body);
    assert IsLine(body[0]) && IsLine(body[|body| - 1]);
  }

  lemma {:induction false} JoinLast(ls: seq<string>)
    requires |ls| > 0 && ls[|ls| - 1] != []
    ensures Join(ls) != [] && Join(ls)[|Join(ls)| - 1] == ls[|ls| - 1][|ls[|ls| - 1]| - 1]
  {
    if |ls| > 1 {
      JoinLast(ls[1..]);
    }
  }

  /** The lines kept before and after the block. */
  function LinesBefore(head: string): seq<string> {
    if head == [] then [] else Split(head) + [""]
  }

  function LinesAfter(tail: string): seq<string> {
    if tail == [] then [""] else [""] + Split(tail) + [""]
  }

  lemma {:induction false} HeadLines(head: string, rest: string)
    ensures Split(head + [NL, NL] + rest) == Split(head) + [""] + Split(rest)
  {
    SplitLine([]);
    SplitAppend([], rest);
    SplitAppend(head, [] + [NL] + rest);
    assert head + [NL, NL] + rest == head + [NL] + ([] + [NL] + rest);
  }

  lemma {:induction false} TailLines(block: string, tail: string)
    ensures Split(GlueTail(block, tail)) == Split(block) + LinesAfter(tail)
  {
    if tail == [] {
      SplitFinal(block);
    } else {
      SplitFinal(tail);
      HeadLines(block, tail + [NL]);
    }
  }

  /** The lines of a rewritten README: kept head lines, the canonical lines, kept tail lines. */
  lemma {:induction false} GlueLines(head: string, block: string, tail: string)
    ensures Split(Glue(head, block, tail)) == LinesBefore(head) + (Split(block) + LinesAfter(tail))
  {
    TailLines(block, tail);
    if head == [] {
      assert Glue(head, block, tail) == GlueTail(block, tail);
    } else {
      HeadLines(head, GlueTail(block, tail));
    }
  }

  /** Rewriting finds the new block exactly where it was put, with the same head and tail. */
  lemma {:induction false} RewrittenSpan(text: string, canonical: string, b: nat, e: nat, readme: string)
    returns (b': nat, e': nat)
    requires IsCanonical(canonical) && Rewrites(text, canonical, b, e, readme)
    ensures IsSpan(Split(readme), b', e')
    ensures Split(readme)[b'..e'] == Split(canonical)
    ensures HeadText(Split(readme), b') == HeadText(Split(text), b)
    ensures TailText(Split(readme), e') == TailText(Split(text), e)
    ensures Split(readme)[..b'] == LinesBefore(HeadText(Split(text), b))
    ensures Split(readme)[e'..] == LinesAfter(TailText(Split(text), e))
  {
    CanonicalIsBlock(canonical);
    var lines := Split(text);
    var head, tail := HeadText(lines, b), TailText(lines, e);
    var pre, c, post := LinesBefore(head), Split(canonical), LinesAfter(tail);
    GlueLines(head, canonical, tail);
    HeadHasNoMarker(lines, b);
    b', e' := |pre|, |pre| + |c|;
    assert (pre + (c + post))[b'..e'] == c && (pre + (c + post))[..b'] == pre && (pre + (c + post))[e'..] == post;
    HeadAgain(lines, b);
    TailAgain(lines, e);
  }

  /** The stripped head still consists of lines of the original head, so no BEGIN line is in it. */
  lemma {:induction false} HeadHasNoMarker(lines: seq<string>, b: nat)
    requires AreLines(lines) && b <= |lines|
    requires forall i :: 0 <= i < b ==> !Contains(lines[i], BEGIN_MARKER)
    ensures forall i :: 0 <= i < |LinesBefore(HeadText(lines, b))|
              ==> !Contains(LinesBefore(HeadText(lines, b))[i], BEGIN_MARKER)
  {
    assert !Contains("", BEGIN_MARKER);
    if b > 0 {
      SplitJoin(lines[..b]);
    }
    RStripLines(Join(lines[..b]));
    var ls := Split(Join(lines[..b]));
    assert forall i :: 0 <= i < |ls| ==> !Contains(ls[i], BEGIN_MARKER);
  }

  /** Stripping line breaks at the end only drops whole (empty) lines. */
  lemma {:induction false} RStripLines(s: string)
    ensures Split(RStrip(s)) <= Split(s)
  {
    if s != [] && s[|s| - 1] == NL {
      var t := s[..|s| - 1];
      assert s == t + [NL] + [];
      SplitAppend(t, []);
      RStripLines(t);
    }
  }

  lemma {:induction false} HeadAgain(lines: seq<string>, b: nat)
    requires b <= |lines|
    ensures RStrip(Join(LinesBefore(HeadText(lines, b)))) == HeadText(lines, b)
  {
    var head := HeadText(lines, b);
    RStripShape(Join(lines[..b]));
    if head != [] {
      JoinAppend(Split(head), [""]);
      JoinSplit(head);
      assert (head + [NL])[..|head|] == head;
    }
  }

  lemma {:induction false} TailAgain(lines: seq<string>, e: nat)
    requires e <= |lines|
    ensures Strip(Join(LinesAfter(TailText(lines, e)))) == TailText(lines, e)
  {
    var tail := TailText(lines, e);
    StripShape(Join(lines[e..]));
    StripAround(tail);
    if tail != [] {
      AfterText(tail);
    }
  }

  lemma {:induction false} AfterText(tail: string)
    requires tail != []
    ensures Join(LinesAfter(tail)) == [NL] + tail + [NL]
  {
    JoinSplit(tail);
    JoinAppend([""] + Split(tail), [""]);
    JoinAppend([""], Split(tail));
  }

  /** Rewriting a rewritten README with the same block changes nothing. */
  lemma {:induction false} RewriteIdempotent(text: string, canonical: string, b: nat, e: nat, readme: string,
                          b2: nat, e2: nat, readme2: string)
    requires IsCanonical(canonical)
    requires Rewrites(text, canonical, b, e, readme)
    requires Rewrites(readme, canonical, b2, e2, readme2)
    ensures readme2 == readme
  {
    var b', e' := RewrittenSpan(text, canonical, b, e, readme);
    SpanUnique(Split(readme), b', e', b2, e2);
  }

  /** The rewritten README always has a block, and extracting it gives the canonical block back. */
  lemma {:induction false} RewriteExtracts(text: string, canonical: string, b: nat, e: nat, readme: string)
    requires IsCanonical(canonical) && Rewrites(text, canonical, b, e, readme)
    ensures exists b': nat, e': nat :: IsSpan(Split(readme), b', e')
    ensures forall b': nat, e': nat :: IsSpan(Split(readme), b', e') ==> BlockText(Split(readme), b', e') == canonical
  {
    var b1, e1 := RewrittenSpan(text, canonical, b, e, readme);
    CanonicalIsBlock(canonical);
    JoinSplit(canonical);
    forall b': nat, e': nat | IsSpan(Split(readme), b', e')
      ensures BlockText(Split(readme), b', e') == canonical
    {
      SpanUnique(Split(readme), b1, e1, b', e');
    }
  }

  /** What stood before and after the block is kept, up to line breaks next to the block. */
  lemma {:induction false} RewriteKeepsSurroundings(
    text: string, canonical: string, b: nat, e: nat, readme: string, b': nat, e': nat)
    requires IsCanonical(canonical) && Rewrites(text, canonical, b, e, readme)
    requires IsSpan(Split(readme), b', e')
    ensures RStrip(Join(Split(readme)[..b'])) == RStrip(Join(Split(text)[..b]))
    ensures Strip(Join(Split(readme)[e'..])) == Strip(Join(Split(text)[e..]))
  {
    var b1, e1 := RewrittenSpan(text, canonical, b, e, readme);
    SpanUnique(Split(readme), b1, e1, b', e');
  }

  lemma {:induction false} EndLines(s: string)
    requires s != []
    ensures s[0] != NL ==> Split(s)[0] != ""
    ensures s[|s| - 1] != NL ==> Split(s)[|Split(s)| - 1] != ""
  {
    if |s| > 1 {
      EndLines(s[1..]);
    }
  }

  /** Before the block there is nothing, or text and one blank line. */
  predicate SpacedBefore(pre: seq<string>) {
    pre == [] || (|pre| >= 2 && pre[|pre| - 1] == "" && pre[|pre| - 2] != "")
  }

  /** Behind the block the file ends with a line break, at once or after one blank line and text. */
  predicate SpacedAfter(post: seq<string>) {
    || post == [""]
    || (|post| >= 3 && post[0] == "" && post[1] != "" && post[|post| - 2] != "" && post[|post| - 1] == "")
  }

  lemma {:induction false} HeadIsSpaced(head: string)
    requires head != [] ==> head[|head| - 1] != NL
    ensures SpacedBefore(LinesBefore(head))
  {
    if head != [] {
      EndLines(head);
    }
  }

  lemma {:induction false} TailIsSpaced(tail: string)
    requires Stripped(tail)
    ensures SpacedAfter(LinesAfter(tail))
  {
    if tail != [] {
      EndLines(tail);
      var ls := Split(tail);
      var post := LinesAfter(tail);
      assert post[1] == ls[0] && post[|post| - 2] == ls[|ls| - 1];
    }
  }

  /** The block stands at the start of the file or behind exactly one blank line, and is followed by
      the end of the file or exactly one blank line; the file ends with one line break. */
  lemma {:induction false} RewriteSpacing(
    text: string, canonical: string, b: nat, e: nat, readme: string, b': nat, e': nat)
    requires IsCanonical(canonical) && Rewrites(text, canonical, b, e, readme) && IsSpan(Split(readme), b', e')
    ensures SpacedBefore(Split(readme)[..b']) && SpacedAfter(Split(readme)[e'..])
  {
    var b0, e0 := RewrittenSpan(text, canonical, b, e, readme);
    SpanUnique(Split(readme), b', e', b0, e0);
    RStripShape(Join(Split(text)[..b]));
    StripShape(Join(Split(text)[e..]));
    HeadIsSpaced(HeadText(Split(text), b));
    TailIsSpaced(TailText(Split(text), e));
  }
}
