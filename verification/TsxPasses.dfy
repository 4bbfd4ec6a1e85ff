/** The three passes of `json_to_tsx` on what `tsx_to_json` made of a text, token by token: a pass
    restores its delimiters and nothing else if and only if it finds no other match. */
module TsxPasses {
  import opened Lines
  import opened TsxEscape

  // ---- Passes ----

  /** A spelled-out mark is found that starts in this token and is not the token. */
  predicate Loud(toks: seq<Token>, k: Delimiter) {
    toks != [] && toks[0] != Mark(k) && !NoMatchIn(ShowOne(toks[0], From(k)), Show(toks[1..], From(k)), New(k))
  }

  predicate Quiet(toks: seq<Token>, k: Delimiter) {
    toks == [] || (!Loud(toks, k) && Quiet(toks[1..], k))
  }

  /** A pass over quiet tokens restores its own delimiters and nothing else. */
  lemma {:induction false} QuietPass(toks: seq<Token>, k: Delimiter)
    requires Quiet(toks, k)
    ensures Replace(Show(toks, From(k)), New(k), Old(k)) == Show(toks, From(k + 1))
  {
    if toks != [] {
      QuietToken(toks, k);
      QuietPass(toks[1..], k);
    }
  }

  lemma Rejoin(p: string, rest: string, j: nat, d: nat)
    requires j <= d <= |p|
    ensures p[..d][j..] + (p[d..] + rest) == p[j..] + rest
  {
    assert p[j..] == p[..d][j..] + p[d..];
  }

  /** The first match at or after `i`, where there is none before. */
  lemma {:induction false} FirstMatch(p: string, rest: string, from: string, i: nat) returns (d: nat)
    requires !NoMatchIn(p, rest, from) && i < |p| && forall j :: 0 <= j < i ==> !(from <= p[j..] + rest)
    ensures d < |p| && from <= p[d..] + rest && NoMatchIn(p[..d], p[d..] + rest, from)
    decreases |p| - i
  {
    if from <= p[i..] + rest {
      d := i;
      forall j | 0 <= j < d ensures !(from <= p[..d][j..] + (p[d..] + rest)) {
        Rejoin(p, rest, j, d);
      }
    } else {
      d := FirstMatch(p, rest, from, i + 1);
    }
  }

  /** The first match inside a piece of text. */
  lemma {:induction false} MatchHere(p: string, tail: string, from: string, to: string) returns (d: nat, rest: string)
    requires from != [] && !NoMatchIn(p, tail, from)
    ensures d < |p| && p[d] == from[0]
    ensures Replace(p + tail, from, to) == p[..d] + (to + rest)
  {
    d := FirstMatch(p, tail, from, 0);
    var found := p[d..] + tail;
    rest := Replace(found[|from|..], from, to);
    assert found[0] == p[d];
    ReplaceSkips(p[..d], found, from, to);
    assert p[..d] + found == p + tail;
  }

  lemma Regroup(a: string, b: string, x: string, y: string)
    ensures a + ((b + x) + y) == ((a + b) + x) + y
  {
  }

  lemma ShowFirst(toks: seq<Token>, n: nat, escaped: set<Delimiter>)
    requires 0 < n <= |toks|
    ensures Show(toks[..n], escaped) == ShowOne(toks[0], escaped) + Show(toks[1..][..n - 1], escaped)
  {
    assert toks[..n][1..] == toks[1..][..n - 1];
  }

  /** What the pass makes of a token that is not loud. */
  lemma QuietToken(toks: seq<Token>, k: Delimiter)
    requires toks != [] && !Loud(toks, k)
    ensures Replace(Show(toks, From(k)), New(k), Old(k))
      == ShowOne(toks[0], From(k + 1)) + Replace(Show(toks[1..], From(k)), New(k), Old(k))
  {
    var tail := Show(toks[1..], From(k));
    if toks[0] == Mark(k) {
      ReplaceMatches(New(k), tail, Old(k));
    } else {
      ReplaceSkips(ShowOne(toks[0], From(k)), tail, New(k), Old(k));
    }
  }

  /** `text` has a delimiter that the pass put inside token `n`, behind `d` characters of it. */
  predicate Misplaced(toks: seq<Token>, k: Delimiter, n: nat, d: nat, rest: string, text: string) {
    && n < |toks| && toks[n] != Mark(k) && d < |ShowOne(toks[n], From(k))| && ShowOne(toks[n], From(k))[d] == '*'
    && text == (Show(toks[..n], From(k + 1)) + ShowOne(toks[n], From(k))[..d]) + (Old(k) + rest)
  }

  /** A pass over loud tokens restores a delimiter where there was none. */
  lemma {:induction false} LoudPass(toks: seq<Token>, k: Delimiter) returns (n: nat, d: nat, rest: string)
    requires !Quiet(toks, k)
    ensures Misplaced(toks, k, n, d, rest, Replace(Show(toks, From(k)), New(k), Old(k)))
  {
    if Loud(toks, k) {
      n := 0;
      d, rest := MatchHere(ShowOne(toks[0], From(k)), Show(toks[1..], From(k)), New(k), Old(k));
      assert toks[..0] == [];
      assert [] + ShowOne(toks[0], From(k))[..d] == ShowOne(toks[0], From(k))[..d];
    } else {
      QuietToken(toks, k);
      n, d, rest := LoudPass(toks[1..], k);
      var text := Replace(Show(toks[1..], From(k)), New(k), Old(k));
      MisplacedLater(toks, k, n, d, rest, text);
      n := n + 1;
    }
  }

  lemma MisplacedLater(toks: seq<Token>, k: Delimiter, n: nat, d: nat, rest: string, text: string)
    requires toks != [] && Misplaced(toks[1..], k, n, d, rest, text)
    ensures Misplaced(toks, k, n + 1, d, rest, ShowOne(toks[0], From(k + 1)) + text)
  {
    ShowFirst(toks, n + 1, From(k + 1));
    Regroup(ShowOne(toks[0], From(k + 1)), Show(toks[1..][..n], From(k + 1)), ShowOne(toks[n + 1], From(k))[..d],
      Old(k) + rest);
  }

  // ---- A misplaced delimiter stays ----

  /** A match cannot reach a character that it does not have. */
  lemma NoReach(p: string, tail: string, from: string)
    requires tail != [] && tail[0] !in from
    ensures from <= p + tail <==> from <= p
  {
    assert (p + tail)[|p|] == tail[0];
  }

  /** No spelled-out mark reaches across a delimiter. */
  lemma {:induction false} ReplaceAround(p: string, k: Delimiter, rest: string, j: Delimiter)
    ensures Replace(p + (Old(k) + rest), New(j), Old(j))
      == Replace(p, New(j), Old(j)) + (Old(k) + Replace(rest, New(j), Old(j)))
    decreases |p|
  {
    var from, to, tail := New(j), Old(j), Old(k) + rest;
    var all := p + tail;
    if p == [] {
      assert all == tail;
      OtherCharacters(Old(k), rest, from);
      ReplaceSkips(Old(k), rest, from, to);
    } else {
      NewCharacters(j);
      assert tail[0] == Old(k)[0];
      NoReach(p, tail, from);
      if from <= all {
        var q := p[|from|..];
        assert all[|from|..] == q + tail;
        ReplaceAround(q, k, rest, j);
        Assoc(to, Replace(q, from, to), Old(k) + Replace(rest, from, to));
      } else {
        assert all[1..] == p[1..] + tail;
        ReplaceAround(p[1..], k, rest, j);
        Assoc([p[0]], Replace(p[1..], from, to), Old(k) + Replace(rest, from, to));
      }
    }
  }

  lemma TokenizeMark(k: Delimiter, rest: string)
    ensures Tokenize(Old(k) + rest) == [Mark(k)] + Tokenize(rest)
  {
    var s := Old(k) + rest;
    assert s[|Old(k)|..] == rest;
    assert s[0] == Old(k)[0] && (k == 1 ==> s[1] == '/');
    assert Old(0) <= s ==> s[0] == '<' && s[1] == '>';
    assert Old(1) <= s ==> s[0] == '<' && s[1] == '/';
  }

  lemma EscapeMark(k: Delimiter, rest: string)
    ensures Escape(Old(k) + rest) == New(k) + Escape(rest)
  {
    TokenizeMark(k, rest);
    EscapeShows(Old(k) + rest);
    EscapeShows(rest);
    assert ([Mark(k)] + Tokenize(rest))[1..] == Tokenize(rest);
  }

  /** Characters with which no delimiter starts are kept in front. */
  lemma EscapePrepend(p: string, rest: string)
    requires forall i :: 0 <= i < |p| ==> p[i] !in "<`"
    ensures Escape(p + rest) == p + Escape(rest)
  {
    var rest1 := Replace(rest, Old(0), New(0));
    var rest2 := Replace(rest1, Old(1), New(1));
    OtherCharacters(p, rest, Old(0));
    ReplaceSkips(p, rest, Old(0), New(0));
    OtherCharacters(p, rest1, Old(1));
    ReplaceSkips(p, rest1, Old(1), New(1));
    OtherCharacters(p, rest2, Old(2));
    ReplaceSkips(p, rest2, Old(2), New(2));
  }

  /** A text in which no delimiter starts at its first character. */
  lemma EscapePlain(s: string)
    requires s != [] && forall k: Delimiter :: !(Old(k) <= s)
    ensures Escape(s) == [s[0]] + Escape(s[1..])
  {
    EscapeShows(s);
    EscapeShows(s[1..]);
    assert Tokenize(s) == [Ch(s[0])] + Tokenize(s[1..]);
    assert ([Ch(s[0])] + Tokenize(s[1..]))[1..] == Tokenize(s[1..]);
  }

  /** What the pass makes of a text starts like the text or with a restored delimiter. */
  lemma ReplaceStart(s: string, j: Delimiter)
    requires s != []
    ensures var r := Replace(s, New(j), Old(j));
      r != [] && (New(j) <= s ==> r[0] in "<`" && s[0] == '*') &&
      (!(New(j) <= s) ==> r[0] == s[0] && r[1..] == Replace(s[1..], New(j), Old(j)))
  {
  }

  /** If `<` starts no delimiter, it does not after the pass. */
  lemma StaysPlain(s: string, j: Delimiter, k: Delimiter)
    requires k < 2 && s != [] && s[0] == '<' && Old(k) <= ['<'] + Replace(s[1..], New(j), Old(j))
    ensures Old(k) <= s
  {
    var q := s[1..];
    var r := Replace(q, New(j), Old(j));
    assert (['<'] + r)[0] == Old(k)[0];
    assert r != [] && r[0] == Old(k)[1];
    assert q != [];
    ReplaceStart(q, j);
    if k == 1 {
      assert (['<'] + r)[2] == Old(1)[2];
      assert r[1..] != [] && r[1..][0] == '>';
      assert q[1..] != [];
      ReplaceStart(q[1..], j);
    }
  }

  lemma {:induction false} RestoredMark(p: string, k: Delimiter, j: Delimiter)
    requires Old(k) <= p
    ensures Replace(p, New(j), Old(j)) == Old(k) + Replace(p[|Old(k)|..], New(j), Old(j))
  {
    var rest := p[|Old(k)|..];
    assert p == Old(k) + rest;
    OtherCharacters(Old(k), rest, New(j));
    ReplaceSkips(Old(k), rest, New(j), Old(j));
  }

  /** Restoring delimiters does not change the escaped form. */
  lemma {:induction false} EscapeStable(p: string, j: Delimiter)
    ensures Escape(Replace(p, New(j), Old(j))) == Escape(p)
    decreases |p|
  {
    if p == [] {
    } else if New(j) <= p {
      var rest := p[|New(j)|..];
      assert p == New(j) + rest;
      EscapeStable(rest, j);
      EscapeMark(j, Replace(rest, New(j), Old(j)));
      NewCharacters(j);
      EscapePrepend(New(j), rest);
    } else if k: Delimiter :| Old(k) <= p {
      var rest := p[|Old(k)|..];
      assert p == Old(k) + rest;
      RestoredMark(p, k, j);
      EscapeStable(rest, j);
      EscapeMark(k, Replace(rest, New(j), Old(j)));
      EscapeMark(k, rest);
    } else {
      var rest := Replace(p[1..], New(j), Old(j));
      assert Replace(p, New(j), Old(j)) == [p[0]] + rest;
      EscapeStable(p[1..], j);
      EscapePlain(p);
      forall k: Delimiter ensures !(Old(k) <= [p[0]] + rest) {
        assert ([p[0]] + rest)[0] == p[0];
        if k < 2 && Old(k) <= [p[0]] + rest {
          StaysPlain(p, j, k);
        }
      }
      EscapePlain([p[0]] + rest);
    }
  }

  // ---- Tokens and positions ----

  lemma {:induction false} ShowSplit(toks: seq<Token>, n: nat, escaped: set<Delimiter>)
    requires n <= |toks|
    ensures Show(toks, escaped) == Show(toks[..n], escaped) + Show(toks[n..], escaped)
    decreases n
  {
    if n == 0 {
      assert toks[..0] == [] && toks[0..] == toks;
    } else {
      ShowSplit(toks[1..], n - 1, escaped);
      ShowFirst(toks, n, escaped);
      assert toks[1..][n - 1..] == toks[n..];
      Assoc(ShowOne(toks[0], escaped), Show(toks[1..][..n - 1], escaped), Show(toks[n..], escaped));
    }
  }

  lemma {:induction false} TightPart(toks: seq<Token>, n: nat)
    requires Tight(toks) && n <= |toks|
    ensures Tight(toks[..n]) && Tight(toks[n..])
    decreases n
  {
    if n == 0 {
      assert toks[..0] == [] && toks[0..] == toks;
    } else {
      TightPart(toks[1..], n - 1);
      assert toks[1..][n - 1..] == toks[n..];
      assert toks[..n][1..] == toks[1..][..n - 1];
      ShowSplit(toks, n, {});
      assert forall k: Delimiter :: Old(k) <= Show(toks[..n], {}) ==> Old(k) <= Show(toks, {});
    }
  }

  lemma NotInside(t: Token, rest: string, p: nat)
    requires 0 < p <= |ShowOne(t, {}) + rest|
    requires p < |ShowOne(t, {}) + rest| ==> (ShowOne(t, {}) + rest)[p] !in ">/"
    ensures p >= |ShowOne(t, {})|
  {
  }

  /** A position whose character is not the inside of a delimiter is between two tokens. */
  lemma {:induction false} TokenAt(toks: seq<Token>, s: string, p: nat) returns (n: nat)
    requires s == Show(toks, {}) && p <= |s| && (p < |s| ==> s[p] !in ">/")
    ensures n <= |toks| && Show(toks[..n], {}) == s[..p] && Show(toks[n..], {}) == s[p..]
  {
    if p == 0 {
      n := 0;
      assert toks[..0] == [] && toks[0..] == toks;
    } else {
      var one, rest := ShowOne(toks[0], {}), Show(toks[1..], {});
      NotInside(toks[0], rest, p);
      assert s[|one|..] == rest;
      n := TokenAt(toks[1..], rest, p - |one|);
      assert rest[p - |one|..] == s[p..];
      assert s[..p] == one + rest[..p - |one|];
      n := n + 1;
      ShowFirst(toks, n, {});
      assert toks[1..][n - 1..] == toks[n..];
    }
  }

  lemma {:induction false} MarkAt(s: string, p: nat, k: Delimiter) returns (n: nat)
    requires p <= |s| && Old(k) <= s[p..]
    ensures n < |Tokenize(s)| && Tokenize(s)[n] == Mark(k) && Show(Tokenize(s)[..n], {}) == s[..p]
    ensures Show(Tokenize(s)[n + 1..], {}) == s[p..][|Old(k)|..]
  {
    var toks := Tokenize(s);
    TokenizeShows(s);
    TokenizeTight(s);
    assert s[p] == s[p..][0] == Old(k)[0];
    n := TokenAt(toks, s, p);
    TightPart(toks, n);
    AfterMark(toks[n..], k);
    assert toks[n..][1..] == toks[n + 1..];
  }

  lemma AfterMark(u: seq<Token>, k: Delimiter)
    requires Tight(u) && Old(k) <= Show(u, {})
    ensures u != [] && u[0] == Mark(k) && Show(u[1..], {}) == Show(u, {})[|Old(k)|..]
  {
    StartsWithMark(u, k);
  }

  lemma StartsWithMark(u: seq<Token>, k: Delimiter)
    requires Tight(u) && Old(k) <= Show(u, {})
    ensures u != [] && u[0] == Mark(k)
  {
    var one, rest := ShowOne(u[0], {}), Show(u[1..], {});
    assert (one + rest)[0] == one[0] == Old(k)[0];
    assert |one| > 1 && k < 2 ==> (one + rest)[1] == one[1] == Old(k)[1];
  }

  lemma {:induction false} LongerShown(toks: seq<Token>, a: nat, b: nat)
    requires a < b <= |toks|
    ensures |Show(toks[..b], ALL)| >= |Show(toks[..a], ALL)| + |ShowOne(toks[a], ALL)| > |Show(toks[..a], ALL)|
  {
    ShowSplit(toks[..b], a, ALL);
    assert toks[..b][..a] == toks[..a];
    assert toks[..b][a..][0] == toks[a];
  }

  lemma {:induction false} ShownLength(toks: seq<Token>, m: nat, n: nat, d: nat)
    requires m < |toks| && n < |toks| && d < |ShowOne(toks[n], ALL)|
    requires |Show(toks[..m], ALL)| == |Show(toks[..n], ALL)| + d
    ensures m == n
  {
    if m < n {
      LongerShown(toks, m, n);
    }
    if n < m {
      LongerShown(toks, n, m);
    }
  }

  // ---- The exact condition on tokens ----

  predicate AllQuiet(toks: seq<Token>) {
    Quiet(toks, 0) && Quiet(toks, 1) && Quiet(toks, 2)
  }

  /** The passes of `json_to_tsx` from `k` on. */
  function Later(t: string, k: nat): string
    requires k <= 3
    decreases 3 - k
  {
    if k == 3 then t else Later(Replace(t, New(k), Old(k)), k + 1)
  }

  lemma UnescapeIsLater(t: string)
    ensures Unescape(t) == Later(t, 0)
  {
    var t1 := Replace(t, New(0), Old(0));
    var t2 := Replace(t1, New(1), Old(1));
    assert Later(t2, 2) == Later(Replace(t2, New(2), Old(2)), 3);
    assert Later(t1, 1) == Later(t2, 2);
  }

  lemma {:induction false} QuietLater(toks: seq<Token>, k: nat)
    requires k <= 3 && forall j: Delimiter :: j >= k ==> Quiet(toks, j)
    ensures Later(Show(toks, From(k)), k) == Show(toks, {})
    decreases 3 - k
  {
    if k < 3 {
      QuietPass(toks, k);
      QuietLater(toks, k + 1);
    }
  }

  /** The passes that follow keep a delimiter, and the escaped form of what is before it. */
  lemma {:induction false} LaterKeeps(p: string, i: Delimiter, rest: string, k: nat) returns (p': string, rest': string)
    requires k <= 3
    ensures Later(p + (Old(i) + rest), k) == p' + (Old(i) + rest') && Escape(p') == Escape(p)
    decreases 3 - k
  {
    if k == 3 {
      p', rest' := p, rest;
    } else {
      ReplaceAround(p, i, rest, k);
      EscapeStable(p, k);
      p', rest' := LaterKeeps(Replace(p, New(k), Old(k)), i, Replace(rest, New(k), Old(k)), k + 1);
    }
  }

  lemma {:induction false} ReplaceAtEnd(p: string, x: string, from: string, to: string)
    requires from != [] && forall i, j :: 0 <= i < |from| && 0 <= j < |x| ==> from[i] != x[j]
    ensures Replace(p + x, from, to) == Replace(p, from, to) + x
    decreases |p|
  {
    var all := p + x;
    if x == [] {
      assert all == p;
    } else if p == [] {
      assert all == x;
      OtherCharacters(x, [], from);
      ReplaceSkips(x, [], from, to);
      assert x + [] == x;
    } else {
      NoReach(p, x, from);
      if from <= all {
        assert all[|from|..] == p[|from|..] + x;
        ReplaceAtEnd(p[|from|..], x, from, to);
        Assoc(to, Replace(p[|from|..], from, to), x);
      } else {
        assert all[1..] == p[1..] + x;
        ReplaceAtEnd(p[1..], x, from, to);
        Assoc([p[0]], Replace(p[1..], from, to), x);
      }
    }
  }

  lemma EscapeAppend(p: string, x: string)
    requires forall j :: 0 <= j < |x| ==> x[j] !in "<>/`"
    ensures Escape(p + x) == Escape(p) + x
  {
    var p1 := Replace(p, Old(0), New(0));
    var p2 := Replace(p1, Old(1), New(1));
    ReplaceAtEnd(p, x, Old(0), New(0));
    ReplaceAtEnd(p1, x, Old(1), New(1));
    ReplaceAtEnd(p2, x, Old(2), New(2));
  }

  lemma {:induction false} QuietUpTo(toks: seq<Token>, k: Delimiter)
    requires forall j: Delimiter :: j < k ==> Quiet(toks, j)
    ensures Later(Show(toks, ALL), 0) == Later(Show(toks, From(k)), k)
    decreases k
  {
    if k > 0 {
      QuietUpTo(toks, k - 1);
      QuietPass(toks, k - 1);
    }
  }

  /** A match that is not a token of its own starts with a star of the token. */
  lemma StarInside(t: Token, k: Delimiter, d: nat)
    requires d < |ShowOne(t, From(k))| && ShowOne(t, From(k))[d] == '*'
    ensures ShowOne(t, From(k)) == ShowOne(t, ALL)
    ensures forall j :: 0 <= j < d ==> ShowOne(t, ALL)[j] !in "<>/`"
  {
    if t.Mark? {
      NewCharacters(t.k);
    }
  }

  /** The escaped form of what is before a misplaced delimiter. */
  lemma {:induction false} BeforeMisplaced(toks: seq<Token>, k: Delimiter, n: nat, d: nat, rest: string, text: string)
    requires Tight(toks) && Misplaced(toks, k, n, d, rest, text)
    ensures d < |ShowOne(toks[n], ALL)|
    ensures |Escape(Show(toks[..n], From(k + 1)) + ShowOne(toks[n], From(k))[..d])| == |Show(toks[..n], ALL)| + d
  {
    StarInside(toks[n], k, d);
    TightPart(toks, n);
    EscapeShown(toks[..n], From(k + 1));
    EscapeAppend(Show(toks[..n], From(k + 1)), ShowOne(toks[n], From(k))[..d]);
  }

  lemma {:induction false} LoudIsLost(s: string, k: Delimiter)
    requires !Quiet(Tokenize(s), k) && forall j: Delimiter :: j < k ==> Quiet(Tokenize(s), j)
    ensures Unescape(Escape(s)) != s
  {
    var toks := Tokenize(s);
    EscapeShows(s);
    TokenizeTight(s);
    UnescapeIsLater(Escape(s));
    QuietUpTo(toks, k);
    var n, d, rest := LoudPass(toks, k);
    var p := Show(toks[..n], From(k + 1)) + ShowOne(toks[n], From(k))[..d];
    BeforeMisplaced(toks, k, n, d, rest, p + (Old(k) + rest));
    var p', rest' := LaterKeeps(p, k, rest, k + 1);
    assert Unescape(Escape(s)) == p' + (Old(k) + rest');
    if p' + (Old(k) + rest') == s {
      DelimiterIsToken(s, p', k, n, d);
    }
  }

  /** Where a text has a delimiter, and `d` characters into token `n` of its escaped form, that
      token is the delimiter. */
  lemma {:induction false} DelimiterIsToken(s: string, p: string, k: Delimiter, n: nat, d: nat)
    requires p + Old(k) <= s && n < |Tokenize(s)| && d < |ShowOne(Tokenize(s)[n], ALL)|
    requires |Escape(p)| == |Show(Tokenize(s)[..n], ALL)| + d
    ensures Tokenize(s)[n] == Mark(k)
  {
    var toks := Tokenize(s);
    assert s[..|p|] == p && Old(k) <= s[|p|..];
    var m := MarkAt(s, |p|, k);
    TokenizeTight(s);
    TightPart(toks, m);
    EscapeShown(toks[..m], {});
    ShownLength(toks, m, n, d);
  }

  /** The exact condition, on tokens. */
  lemma {:induction false} RoundTripIsQuiet(s: string)
    ensures Unescape(Escape(s)) == s <==> AllQuiet(Tokenize(s))
  {
    var toks := Tokenize(s);
    if AllQuiet(toks) {
      EscapeShows(s);
      TokenizeShows(s);
      UnescapeIsLater(Escape(s));
      QuietLater(toks, 0);
    } else if !Quiet(toks, 0) {
      LoudIsLost(s, 0);
    } else if !Quiet(toks, 1) {
      LoudIsLost(s, 1);
    } else {
      LoudIsLost(s, 2);
    }
  }
}
