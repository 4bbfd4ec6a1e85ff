/** software/pio_hooks.py: TSX regions are carried through JSON with their fragment tags and
    backticks spelled out (`tsx_to_json`), and are restored afterwards (`json_to_tsx`). */
module TsxEscape {
  import opened Lines

  /** `s.replace(from, new)`: leftmost matches, not overlapping. */
  function Replace(s: string, from: string, to: string): string
    requires from != []
    decreases |s|
  {
    if s == [] then []
    else if from <= s then to + Replace(s[|from|..], from, to)
    else [s[0]] + Replace(s[1..], from, to)
  }

  type Delimiter = k: nat | k < 3

  const START_FRAGMENT := "START_FRAGMENT"
  const END_FRAGMENT := "END_FRAGMENT"
  const BACKTICK := "BACKTICK"

  function Word(k: Delimiter): string {
    if k == 0 then START_FRAGMENT else if k == 1 then END_FRAGMENT else BACKTICK
  }

  function Old(k: Delimiter): string {
    if k == 0 then "<>" else if k == 1 then "</>" else "`"
  }

  function New(k: Delimiter): string {
    "***" + (Word(k) + "***")
  }

  /** The replacement loop of `tsx_to_json`, without the JSON quoting. */
  function Escape(s: string): string {
    Replace(Replace(Replace(s, Old(0), New(0)), Old(1), New(1)), Old(2), New(2))
  }

  /** `json_to_tsx`. */
  function Unescape(s: string): string {
    Replace(Replace(Replace(s, New(0), Old(0)), New(1), Old(1)), New(2), Old(2))
  }

  // ---- Texts as tokens ----

  datatype Token = Mark(k: Delimiter) | Ch(c: char)

  function ShowOne(t: Token, escaped: set<Delimiter>): string {
    match t
    case Mark(k) => if k in escaped then New(k) else Old(k)
    case Ch(c) => [c]
  }

  /** The text in which the delimiters of `escaped` are spelled out. */
  function Show(toks: seq<Token>, escaped: set<Delimiter>): string {
    if toks == [] then [] else ShowOne(toks[0], escaped) + Show(toks[1..], escaped)
  }

  function Tokenize(s: string): seq<Token>
    decreases |s|
  {
    if s == [] then []
    else if Old(0) <= s then [Mark(0)] + Tokenize(s[2..])
    else if Old(1) <= s then [Mark(1)] + Tokenize(s[3..])
    else if s[0] == '`' then [Mark(2)] + Tokenize(s[1..])
    else [Ch(s[0])] + Tokenize(s[1..])
  }

  lemma {:induction false} TokenizeShows(s: string)
    ensures Show(Tokenize(s), {}) == s
    decreases |s|
  {
    if s != [] {
      var n := if Old(0) <= s then 2 else if Old(1) <= s then 3 else 1;
      TokenizeShows(s[n..]);
      var t := Tokenize(s)[0];
      assert Tokenize(s)[1..] == Tokenize(s[n..]);
      assert ShowOne(t, {}) == s[..n];
      assert s == s[..n] + s[n..];
    }
  }

  /** No delimiter is left inside the plain characters. */
  predicate Tight(toks: seq<Token>) {
    toks != [] ==>
      && (toks[0].Ch? ==> forall k: Delimiter :: !(Old(k) <= Show(toks, {})))
      && Tight(toks[1..])
  }

  lemma {:induction false} TokenizeTight(s: string)
    ensures Tight(Tokenize(s))
    decreases |s|
  {
    if s != [] {
      var n := if Old(0) <= s then 2 else if Old(1) <= s then 3 else 1;
      TokenizeTight(s[n..]);
      TokenizeShows(s);
      assert Tokenize(s)[1..] == Tokenize(s[n..]);
    }
  }

  // ---- Matches that cannot start inside a prefix ----

  predicate NoMatchIn(p: string, rest: string, from: string) {
    forall i :: 0 <= i < |p| ==> !(from <= p[i..] + rest)
  }

  lemma {:induction false} ReplaceSkips(p: string, rest: string, from: string, to: string)
    requires from != [] && NoMatchIn(p, rest, from)
    ensures Replace(p + rest, from, to) == p + Replace(rest, from, to)
  {
    if p == [] {
      assert p + rest == rest;
    } else {
      var tail := p[1..];
      assert p[0..] == p;
      forall i | 0 <= i < |tail| ensures !(from <= tail[i..] + rest) {
        assert tail[i..] == p[i + 1..];
      }
      ReplaceSkips(tail, rest, from, to);
      assert (p + rest)[1..] == tail + rest;
      assert p == [p[0]] + tail;
    }
  }

  lemma ReplaceMatches(from: string, rest: string, to: string)
    requires from != []
    ensures Replace(from + rest, from, to) == to + Replace(rest, from, to)
  {
    assert (from + rest)[|from|..] == rest;
  }

  /** A pattern cannot start at a character that is not its first one. */
  lemma OtherCharacters(p: string, rest: string, from: string)
    requires from != [] && forall i :: 0 <= i < |p| ==> p[i] != from[0]
    ensures NoMatchIn(p, rest, from)
  {
    forall i | 0 <= i < |p| ensures !(from <= p[i..] + rest) {
      assert (p[i..] + rest)[0] == p[i];
    }
  }

  // ---- Escaping ----

  /** The spelled-out words have no character of a delimiter and no star. */
  lemma WordCharacters(k: Delimiter)
    ensures forall i :: 0 <= i < |Word(k)| ==> Word(k)[i] !in "*<>/`"
    ensures |Word(k)| > 0
  {
  }

  lemma NewCharacters(k: Delimiter)
    ensures forall i :: 0 <= i < |New(k)| ==> New(k)[i] !in "<>/`"
  {
    WordCharacters(k);
  }

  /** What is shown of tokens starts like their plain text, or with a star. */
  lemma ShowStart(toks: seq<Token>, escaped: set<Delimiter>)
    requires Show(toks, escaped) != []
    ensures Show(toks, escaped)[0] == '*' || (Show(toks, {}) != [] && Show(toks, escaped)[0] == Show(toks, {})[0])
  {
    assert toks != [];
  }

  /** A delimiter that starts at a plain character is plain text throughout. */
  lemma PlainMatch(toks: seq<Token>, escaped: set<Delimiter>, k: Delimiter)
    requires toks != [] && toks[0].Ch? && Old(k) <= Show(toks, escaped)
    ensures Old(k) <= Show(toks, {})
  {
    var rest := toks[1..];
    var shown, plain := Show(rest, escaped), Show(rest, {});
    assert Show(toks, escaped) == [toks[0].c] + shown && Show(toks, {}) == [toks[0].c] + plain;
    if k < 2 {
      assert Show(toks, escaped)[1] == Old(k)[1];
      ShowStart(rest, escaped);
    }
    if k == 1 {
      assert Show(toks, escaped)[2] == Old(1)[2];
      ShowStart(rest[1..], escaped);
    }
  }

  /** No delimiter starts at a plain character, whichever delimiters are spelled out. */
  lemma PlainCharacter(toks: seq<Token>, escaped: set<Delimiter>, k: Delimiter)
    requires toks != [] && toks[0].Ch? && Tight(toks)
    ensures !(Old(k) <= Show(toks, escaped))
  {
    if Old(k) <= Show(toks, escaped) {
      PlainMatch(toks, escaped, k);
    }
  }

  lemma {:induction false} EscapeStep(toks: seq<Token>, escaped: set<Delimiter>, k: Delimiter)
    requires Tight(toks)
    ensures Replace(Show(toks, escaped), Old(k), New(k)) == Show(toks, escaped + {k})
  {
    if toks != [] {
      var rest := Show(toks[1..], escaped);
      EscapeStep(toks[1..], escaped, k);
      if toks[0] == Mark(k) && k !in escaped {
        ReplaceMatches(Old(k), rest, New(k));
      } else {
        EscapeSkips(toks, escaped, k);
        ReplaceSkips(ShowOne(toks[0], escaped), rest, Old(k), New(k));
      }
    }
  }

  /** A delimiter is only found where its own token is. */
  lemma EscapeSkips(toks: seq<Token>, escaped: set<Delimiter>, k: Delimiter)
    requires toks != [] && Tight(toks) && (toks[0].Mark? ==> toks[0].k != k || k in escaped)
    ensures NoMatchIn(ShowOne(toks[0], escaped), Show(toks[1..], escaped), Old(k))
  {
    var p, rest := ShowOne(toks[0], escaped), Show(toks[1..], escaped);
    match toks[0]
    case Ch(c) =>
      PlainCharacter(toks, escaped, k);
      assert p[0..] == p;
    case Mark(j) =>
      if j in escaped {
        NewCharacters(j);
        OtherCharacters(p, rest, Old(k));
      } else {
        forall i | 0 <= i < |p| ensures !(Old(k) <= p[i..] + rest) {
          assert (p[i..] + rest)[0] == p[i];
          if i == 0 && |p| > 1 && k < 2 {
            assert (p[i..] + rest)[1] == p[1];
          }
        }
      }
  }

  /** The delimiters from `k` on. */
  function From(k: nat): (r: set<Delimiter>)
    ensures forall j: Delimiter :: j in r <==> j >= k
  {
    if k == 0 then {0, 1, 2} else if k == 1 then {1, 2} else if k == 2 then {2} else {}
  }

  const ALL := From(0)

  /** Escaping spells out what is not spelled out yet. */
  lemma EscapeShown(toks: seq<Token>, escaped: set<Delimiter>)
    requires Tight(toks)
    ensures Escape(Show(toks, escaped)) == Show(toks, ALL)
  {
    EscapeStep(toks, escaped, 0);
    EscapeStep(toks, escaped + {0}, 1);
    EscapeStep(toks, escaped + {0} + {1}, 2);
    assert escaped + {0} + {1} + {2} == ALL;
  }

  lemma EscapeShows(s: string)
    ensures Escape(s) == Show(Tokenize(s), ALL)
  {
    TokenizeShows(s);
    TokenizeTight(s);
    EscapeShown(Tokenize(s), {});
  }

  lemma {:induction false} ShowHasNoDelimiter(toks: seq<Token>, k: Delimiter)
    requires Tight(toks)
    ensures NoMatchIn(Show(toks, ALL), [], Old(k))
  {
    if toks != [] {
      ShowHasNoDelimiter(toks[1..], k);
      EscapeSkips(toks, ALL, k);
      NoMatchJoined(ShowOne(toks[0], ALL), Show(toks[1..], ALL), Old(k));
    }
  }

  lemma NoMatchJoined(p: string, rest: string, from: string)
    requires NoMatchIn(p, rest, from) && NoMatchIn(rest, [], from)
    ensures NoMatchIn(p + rest, [], from)
  {
    forall i | 0 <= i < |p + rest| ensures !(from <= (p + rest)[i..] + []) {
      assert (p + rest)[i..] + [] == (p + rest)[i..];
      if i < |p| {
        assert (p + rest)[i..] == p[i..] + rest;
      } else {
        assert (p + rest)[i..] == rest[i - |p|..];
        assert rest[i - |p|..] + [] == rest[i - |p|..];
      }
    }
  }

  /** The escaped form contains none of the three delimiters, for every text. */
  lemma EscapedHasNoDelimiter(s: string, k: Delimiter)
    ensures !Contains(Escape(s), Old(k))
  {
    EscapeShows(s);
    TokenizeTight(s);
    ShowHasNoDelimiter(Tokenize(s), k);
    var e := Escape(s);
    forall i | 0 <= i <= |e| ensures !At(e, i, Old(k)) {
      AtIsPrefix(e, i, Old(k));
      assert e[i..] + [] == e[i..];
    }
  }

  lemma AtIsPrefix(s: string, i: nat, m: string)
    requires i <= |s|
    ensures At(s, i, m) <==> m <= s[i..]
  {
    if |m| <= |s| - i {
      assert s[i..][..|m|] == s[i..i + |m|];
    }
  }
}
