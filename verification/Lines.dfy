/** Text as lines: the `split("\n")` and `"\n".join` pair that the README rewriter and the
    translation hyphenator both rely on, with substring search and newline stripping. */
module Lines {

  const NL: char := '\n'

  datatype Option<+T> = None | Some(value: T)

  /** No line break inside a line. */
  predicate IsLine(s: string) {
    NL !in s
  }

  predicate AreLines(ls: seq<string>) {
    forall i :: 0 <= i < |ls| ==> IsLine(ls[i])
  }

  /** `s.split("\n")`: never empty. */
  function Split(s: string): (ls: seq<string>)
    ensures |ls| > 0 && AreLines(ls)
  {
    if s == [] then [[]]
    else
      var rest := Split(s[1..]);
      if s[0] == NL then [[]] + rest else [[s[0]] + rest[0]] + rest[1..]
  }

  /** `"\n".join(ls)`. */
  function Join(ls: seq<string>): string {
    if |ls| == 0 then ""
    else if |ls| == 1 then ls[0]
    else ls[0] + [NL] + Join(ls[1..])
  }

  lemma {:induction false} JoinSplit(s: string)
    ensures Join(Split(s)) == s
  {
    if s != [] {
      JoinSplit(s[1..]);
      var rest := Split(s[1..]);
      if s[0] == NL {
        assert ([[]] + rest)[1..] == rest;
      } else {
        var ls := [[s[0]] + rest[0]] + rest[1..];
        assert ls[1..] == rest[1..];
        assert s == [s[0]] + s[1..];
        if |rest| > 1 {
          assert Join(ls) == ([s[0]] + rest[0]) + [NL] + Join(rest[1..]);
        }
      }
    }
  }

  /** A line followed by more text: the line is the first piece. */
  lemma {:induction false} SplitFirst(l: string, tail: string)
    requires IsLine(l)
    ensures Split(l + [NL] + tail) == [l] + Split(tail)
  {
    var s := l + [NL] + tail;
    if l == [] {
      assert s[1..] == tail;
    } else {
      SplitFirst(l[1..], tail);
      assert s[1..] == l[1..] + [NL] + tail;
      assert [l[0]] + l[1..] == l;
    }
  }

  lemma {:induction false} SplitLine(l: string)
    requires IsLine(l)
    ensures Split(l) == [l]
  {
    if l != [] {
      SplitLine(l[1..]);
      assert [l[0]] + l[1..] == l;
    }
  }

  lemma {:induction false} SplitJoin(ls: seq<string>)
    requires |ls| > 0 && AreLines(ls)
    ensures Split(Join(ls)) == ls
  {
    if |ls| == 1 {
      SplitLine(ls[0]);
    } else {
      SplitJoin(ls[1..]);
      SplitFirst(ls[0], Join(ls[1..]));
      assert [ls[0]] + ls[1..] == ls;
    }
  }

  lemma {:induction false} JoinAppend(a: seq<string>, b: seq<string>)
    requires |a| > 0 && |b| > 0
    ensures Join(a + b) == Join(a) + [NL] + Join(b)
  {
    if |a| == 1 {
      assert (a + b)[1..] == b;
    } else {
      JoinAppend(a[1..], b);
      assert (a + b)[1..] == a[1..] + b;
    }
  }

  lemma SplitAppend(x: string, y: string)
    ensures Split(x + [NL] + y) == Split(x) + Split(y)
  {
    JoinSplit(x);
    JoinSplit(y);
    JoinAppend(Split(x), Split(y));
    SplitJoin(Split(x) + Split(y));
  }

  /** A final line break adds one empty line. */
  lemma SplitFinal(x: string)
    ensures Split(x + [NL]) == Split(x) + [""]
  {
    SplitLine([]);
    SplitAppend(x, []);
    assert x + [NL] + [] == x + [NL];
  }

  lemma Assoc<T>(a: seq<T>, b: seq<T>, c: seq<T>)
    ensures a + (b + c) == (a + b) + c
  {
  }

  // ---- Substrings ----

  predicate At(s: string, i: int, m: string) {
    0 <= i <= |s| - |m| && s[i..i + |m|] == m
  }

  /** `m in s`. */
  predicate Contains(s: string, m: string) {
    exists i | 0 <= i <= |s| :: At(s, i, m)
  }

  // ---- Stripping line breaks ----

  /** `s.lstrip("\n")`. */
  function LStrip(s: string): string {
    if s != [] && s[0] == NL then LStrip(s[1..]) else s
  }

  /** `s.rstrip("\n")`. */
  function RStrip(s: string): string {
    if s != [] && s[|s| - 1] == NL then RStrip(s[..|s| - 1]) else s
  }

  /** `s.strip("\n")`. */
  function Strip(s: string): string {
    LStrip(RStrip(s))
  }

  lemma {:induction false} RStripShape(s: string)
    ensures RStrip(s) <= s
    ensures RStrip(s) != [] ==> RStrip(s)[|RStrip(s)| - 1] != NL
  {
    if s != [] && s[|s| - 1] == NL {
      RStripShape(s[..|s| - 1]);
    }
  }

  lemma {:induction false} LStripShape(s: string)
    ensures |LStrip(s)| <= |s| && LStrip(s) == s[|s| - |LStrip(s)|..]
    ensures LStrip(s) != [] ==> LStrip(s)[0] != NL
  {
    if s != [] && s[0] == NL {
      LStripShape(s[1..]);
    }
  }

  /** Neither end of a stripped text is a line break, so stripping again changes nothing. */
  predicate Stripped(s: string) {
    s != [] ==> s[0] != NL && s[|s| - 1] != NL
  }

  lemma StripShape(s: string)
    ensures Stripped(Strip(s))
  {
    RStripShape(s);
    LStripShape(RStrip(s));
  }

  /** Line breaks around a stripped text come off and nothing else does. */
  lemma StripAround(s: string)
    requires Stripped(s)
    ensures RStrip(s) == s && Strip(s) == s
    ensures Strip([NL] + s) == s && Strip(s + [NL]) == s && Strip([NL] + s + [NL]) == s
  {
    assert (s + [NL])[..|s|] == s;
    assert ([NL] + s)[1..] == s;
    assert ([NL] + s + [NL])[..|s| + 1] == [NL] + s;
    if s == [] {
      assert RStrip([NL]) == [];
    }
  }
}
