/** When unescaping a TSX region gives it back: exactly which texts `json_to_tsx` restores from
    what `tsx_to_json` made of them. */
module TsxRoundTrip {
  import opened Lines
  import opened TsxEscape
  import opened TsxPasses

  // ---- The condition on the text ----

  function Stars(n: nat): (r: string)
    ensures |r| == n && forall i :: 0 <= i < n ==> r[i] == '*'
  {
    seq(n, _ => '*')
  }

  /** The text starts with `t` stars, and a delimiter from `k` on follows or there are enough. */
  predicate StartsAs(b: string, t: nat, rest: string, k: nat, need: nat) {
    t <= need && b == Stars(t) + rest && (t == need || exists j: Delimiter :: j >= k && Old(j) <= rest)
  }

  /** With the delimiters from `k` on spelled out, the text starts with three stars. */
  ghost predicate StarsStart(b: string, k: nat) {
    exists t: nat, rest: string :: StartsAs(b, t, rest, k, 3)
  }

  /** The text ends with three stars. */
  predicate EndsInStars(a: string, front: string) {
    a == front + Stars(3)
  }

  /** The text ends with a delimiter after `k` and up to two stars. */
  predicate EndsInMark(a: string, front: string, j: Delimiter, t: nat, k: nat) {
    t <= 2 && j > k && a == front + (Old(j) + Stars(t))
  }

  /** With the delimiters after `k` spelled out, the text ends with three stars. */
  ghost predicate StarsEnd(a: string, k: nat) {
    || (exists front: string :: EndsInStars(a, front))
    || (exists front: string, j: Delimiter, t: nat :: EndsInMark(a, front, j, t, k))
  }

  /** The word of a delimiter stands between what will be three stars on each side. */
  ghost predicate Exposed(s: string, a: string, b: string, k: Delimiter) {
    s == a + (Word(k) + b) && StarsEnd(a, k) && StarsStart(b, k)
  }

  // ---- Stars and words in shown text ----

  lemma PrefixStep(a: char, x: string, b: char, y: string)
    ensures [a] + x <= [b] + y <==> a == b && x <= y
  {
    if a == b && x <= y {
      assert forall i :: 0 <= i < |x| ==> x[i] == y[i];
    }
    if [a] + x <= [b] + y {
      assert ([a] + x)[0] == a && ([b] + y)[0] == b;
      assert ([a] + x)[1..] == x && ([b] + y)[1..] == y;
    }
  }

  /** The stars counted one by one. */
  predicate Starts(r: string, k: nat, need: nat) {
    || need == 0
    || (r != [] && r[0] == '*' && Starts(r[1..], k, need - 1))
    || (exists j: Delimiter :: j >= k && Old(j) <= r)
  }

  lemma MoreStars(t: nat, rest: string)
    ensures Stars(t + 1) + rest == ['*'] + (Stars(t) + rest)
  {
  }

  lemma {:induction false} StartsForth(b: string, t: nat, rest: string, k: nat, need: nat)
    requires StartsAs(b, t, rest, k, need)
    ensures Starts(b, k, need)
    decreases t
  {
    if t == 0 {
      assert b == rest;
    } else {
      MoreStars(t - 1, rest);
      assert b[1..] == Stars(t - 1) + rest;
      StartsForth(b[1..], t - 1, rest, k, need - 1);
    }
  }

  lemma {:induction false} StartsBack(b: string, k: nat, need: nat) returns (t: nat, rest: string)
    requires Starts(b, k, need)
    ensures StartsAs(b, t, rest, k, need)
    decreases need
  {
    if need == 0 || exists j: Delimiter :: j >= k && Old(j) <= b {
      t, rest := 0, b;
      assert Stars(0) + b == b;
    } else {
      t, rest := StartsBack(b[1..], k, need - 1);
      MoreStars(t, rest);
      t := t + 1;
    }
  }

  lemma {:induction false} StartsMeans(b: string, k: nat)
    ensures StarsStart(b, k) <==> Starts(b, k, 3)
  {
    if StarsStart(b, k) {
      var t: nat, rest :| StartsAs(b, t, rest, k, 3);
      StartsForth(b, t, rest, k, 3);
    }
    if Starts(b, k, 3) {
      var t, rest := StartsBack(b, k, 3);
    }
  }

  /** Stars at the start of a text with delimiters spelled out, read off the text itself. */
  lemma {:induction false} ShownStars(v: seq<Token>, k: Delimiter, need: nat)
    requires Tight(v) && need <= 3
    ensures Stars(need) <= Show(v, From(k)) <==> Starts(Show(v, {}), k, need)
    decreases need
  {
    if need > 0 && v != [] {
      var shown, plain := Show(v, From(k)), Show(v, {});
      match v[0]
      case Ch(c) =>
        assert plain[0] == c && plain[1..] == Show(v[1..], {});
        ShownStars(v[1..], k, need - 1);
        MoreStars(need - 1, []);
        assert Stars(need) == ['*'] + Stars(need - 1);
        PrefixStep('*', Stars(need - 1), c, Show(v[1..], From(k)));
      case Mark(j) =>
        assert plain == Old(j) + Show(v[1..], {});
        if j >= k {
          assert shown[0] == New(j)[0] && shown[1] == New(j)[1] && shown[2] == New(j)[2];
          assert Old(j) <= plain;
        } else {
          assert shown[0] == Old(j)[0] && Stars(need)[0] == '*';
          forall i: Delimiter | i >= k ensures !(Old(i) <= plain) {
            if Old(i) <= plain {
              StartsWithMark(v, i);
            }
          }
        }
    }
  }

  /** The first tokens are the characters of `x`. */
  predicate Spells(v: seq<Token>, x: string) {
    |x| <= |v| && forall i :: 0 <= i < |x| ==> v[i] == Ch(x[i])
  }

  lemma {:induction false} SpellsShows(v: seq<Token>, x: string, escaped: set<Delimiter>)
    requires Spells(v, x)
    ensures Show(v, escaped) == x + Show(v[|x|..], escaped)
  {
    if x == [] {
      assert v[0..] == v;
    } else {
      SpellsShows(v[1..], x[1..], escaped);
      assert v[1..][|x| - 1..] == v[|x|..];
      assert x == [x[0]] + x[1..];
      Assoc([x[0]], x[1..], Show(v[|x|..], escaped));
    }
  }

  /** Characters that no shown delimiter starts with are tokens. */
  lemma {:induction false} WordIsSpelled(v: seq<Token>, escaped: set<Delimiter>, w: string)
    requires forall i :: 0 <= i < |w| ==> w[i] !in "*<>/`"
    ensures w <= Show(v, escaped) ==> Spells(v, w)
  {
    if w != [] && v != [] && w <= Show(v, escaped) {
      assert Show(v, escaped)[0] == w[0];
      assert v[0] == Ch(w[0]);
      assert Show(v, escaped)[1..] == Show(v[1..], escaped);
      assert w[1..] <= Show(v[1..], escaped);
      WordIsSpelled(v[1..], escaped, w[1..]);
    }
  }

  /** So are up to two stars before a word. */
  lemma {:induction false} StarsAreSpelled(v: seq<Token>, escaped: set<Delimiter>, t: nat, w: string)
    requires t <= 2 && w != [] && forall i :: 0 <= i < |w| ==> w[i] !in "*<>/`"
    ensures Stars(t) + w <= Show(v, escaped) ==> Spells(v, Stars(t) + w)
    decreases t
  {
    var x := Stars(t) + w;
    if t == 0 {
      assert x == w;
      WordIsSpelled(v, escaped, w);
    } else if v != [] && x <= Show(v, escaped) {
      MoreStars(t - 1, w);
      StarIsPlain(v, escaped, t, x);
      assert Show(v, escaped) == ['*'] + Show(v[1..], escaped);
      PrefixStep('*', Stars(t - 1) + w, '*', Show(v[1..], escaped));
      StarsAreSpelled(v[1..], escaped, t - 1, w);
    }
  }

  lemma StarIsPlain(v: seq<Token>, escaped: set<Delimiter>, t: nat, x: string)
    requires 1 <= t <= 2 && v != [] && t < |x| && x[0] == '*' && x[t] != '*' && x <= Show(v, escaped)
    ensures v[0] == Ch('*')
  {
    var shown := Show(v, escaped);
    assert shown[0] == x[0] && shown[t] == x[t];
  }

  /** Plain text without characters of a delimiter. */
  lemma {:induction false} PlainIsSpelled(v: seq<Token>, x: string, b: string)
    requires Show(v, {}) == x + b && forall i :: 0 <= i < |x| ==> x[i] !in "<>/`"
    ensures Spells(v, x)
  {
    if x != [] {
      assert Show(v, {})[0] == x[0];
      assert v[0] == Ch(x[0]);
      assert Show(v, {})[1..] == Show(v[1..], {});
      assert (x + b)[1..] == x[1..] + b;
      PlainIsSpelled(v[1..], x[1..], b);
    }
  }

  /** `t` stars and the word follow, and then three shown stars. */
  ghost predicate WordFollows(plain: string, t: nat, w: string, k: nat) {
    exists b: string :: FollowsAs(plain, t, w, b, k)
  }

  ghost predicate FollowsAs(plain: string, t: nat, w: string, b: string, k: nat) {
    plain == (Stars(t) + w) + b && StarsStart(b, k)
  }

  lemma PrefixBehind(p: string, x: string, y: string)
    ensures p + x <= p + y <==> x <= y
  {
    if p + x <= p + y {
      assert (p + x)[|p|..] == x && (p + y)[|p|..] == y;
    }
  }

  lemma {:induction false} AfterStars(v: seq<Token>, k: Delimiter, t: nat, w: string)
    requires Tight(v) && t <= 2 && w != [] && forall i :: 0 <= i < |w| ==> w[i] !in "*<>/`"
    ensures (Stars(t) + w) + Stars(3) <= Show(v, From(k)) <==> WordFollows(Show(v, {}), t, w, k)
  {
    var x, shown, plain := Stars(t) + w, Show(v, From(k)), Show(v, {});
    if x + Stars(3) <= shown {
      assert x <= x + Stars(3);
      StarsAreSpelled(v, From(k), t, w);
      SpelledFollows(v, x, k);
      assert FollowsAs(plain, t, w, Show(v[|x|..], {}), k);
    }
    if WordFollows(plain, t, w, k) {
      var b :| FollowsAs(plain, t, w, b, k);
      PlainIsSpelled(v, x, b);
      SpelledFollows(v, x, k);
      PrefixBehind(x, b, Show(v[|x|..], {}));
      PrefixBehind(x, Show(v[|x|..], {}), b);
      assert b == Show(v[|x|..], {});
    }
  }

  lemma {:induction false} SpelledFollows(v: seq<Token>, x: string, k: Delimiter)
    requires Tight(v) && Spells(v, x)
    ensures Show(v, {}) == x + Show(v[|x|..], {})
    ensures x + Stars(3) <= Show(v, From(k)) <==> StarsStart(Show(v[|x|..], {}), k)
  {
    SpellsShows(v, x, {});
    SpellsShows(v, x, From(k));
    PrefixBehind(x, Stars(3), Show(v[|x|..], From(k)));
    TightPart(v, |x|);
    ShownStars(v[|x|..], k, 3);
    StartsMeans(Show(v[|x|..], {}), k);
  }

  /** `n` stars of a spelled-out mark and what is left of it. */
  lemma NewSplit(k: Delimiter, n: nat)
    requires n <= 3
    ensures New(k) == Stars(n) + ((Stars(3 - n) + Word(k)) + Stars(3))
  {
    assert "***" == Stars(3) == Stars(n) + Stars(3 - n);
    var w := Word(k);
    Assoc(Stars(n), Stars(3 - n), w + Stars(3));
    Assoc(Stars(3 - n), w, Stars(3));
  }

  /** A mark is found behind `n` stars. */
  lemma {:induction false} MarkAfterStars(v: seq<Token>, k: Delimiter, n: nat)
    requires Tight(v) && 1 <= n <= 3
    ensures New(k) <= Stars(n) + Show(v, From(k)) <==> WordFollows(Show(v, {}), 3 - n, Word(k), k)
  {
    WordCharacters(k);
    NewSplit(k, n);
    AfterStars(v, k, 3 - n, Word(k));
    PrefixBehind(Stars(n), (Stars(3 - n) + Word(k)) + Stars(3), Show(v, From(k)));
  }

  // ---- Loud tokens ----

  lemma LoudStar(u: seq<Token>, k: Delimiter)
    requires u != [] && u[0].Ch? && Tight(u)
    ensures Loud(u, k) <==> u[0].c == '*' && WordFollows(Show(u[1..], {}), 2, Word(k), k)
  {
    var p, rest := [u[0].c], Show(u[1..], From(k));
    assert p[0..] == p;
    assert (p + rest)[0] == u[0].c && New(k)[0] == '*';
    MarkAfterStars(u[1..], k, 1);
    assert Stars(1) == ['*'];
    assert NoMatchIn(p, rest, New(k)) <==> !(New(k) <= p + rest);
  }

  lemma LoudMark(u: seq<Token>, k: Delimiter)
    requires u != [] && u[0].Mark? && Tight(u)
    ensures Loud(u, k) <==> u[0].k > k && WordNear(Show(u[1..], {}), Word(k), k)
  {
    var j, rest := u[0].k, Show(u[1..], From(k));
    if j < k {
      OtherCharacters(Old(j), rest, New(k));
    } else if j > k {
      MatchInMark(j, k, rest);
      MarkAfterStars(u[1..], k, 1);
      MarkAfterStars(u[1..], k, 2);
      MarkAfterStars(u[1..], k, 3);
      NearMeans(Show(u[1..], {}), Word(k), k);
    }
  }

  /** The word follows behind up to two stars. */
  ghost predicate WordNear(plain: string, w: string, k: nat) {
    exists t: nat :: t <= 2 && WordFollows(plain, t, w, k)
  }

  lemma NearMeans(plain: string, w: string, k: nat)
    ensures WordNear(plain, w, k) <==>
      WordFollows(plain, 0, w, k) || WordFollows(plain, 1, w, k) || WordFollows(plain, 2, w, k)
  {
    if WordNear(plain, w, k) {
      var t: nat :| t <= 2 && WordFollows(plain, t, w, k);
      assert t == 0 || t == 1 || t == 2;
    }
  }

  /** A mark is found inside another one only from its last stars on. */
  lemma MatchInMark(j: Delimiter, k: Delimiter, rest: string)
    requires j != k
    ensures !NoMatchIn(New(j), rest, New(k)) <==>
      New(k) <= Stars(1) + rest || New(k) <= Stars(2) + rest || New(k) <= Stars(3) + rest
  {
    var p := New(j);
    var n := |p|;
    NewSplit(j, 3);
    LastStars(Stars(3) + (Stars(0) + Word(j)), Stars(3));
    Assoc(Stars(3), Stars(0) + Word(j), Stars(3));
    assert p[n - 3..] == Stars(3) && p[n - 2..] == Stars(2) && p[n - 1..] == Stars(1);
    forall i | 0 <= i < n - 3 ensures !(New(k) <= p[i..] + rest) {
      NotAtWord(j, k, i, rest);
    }
    if !NoMatchIn(p, rest, New(k)) {
      var i :| 0 <= i < n && New(k) <= p[i..] + rest;
      assert i == n - 3 || i == n - 2 || i == n - 1;
    }
  }

  lemma LastStars(p: string, stars: string)
    requires stars == Stars(3)
    ensures var s := p + stars; s[|s| - 3..] == Stars(3) && s[|s| - 2..] == Stars(2) && s[|s| - 1..] == Stars(1)
  {
  }

  /** No other mark starts in the first part of a mark. */
  lemma NotAtWord(j: Delimiter, k: Delimiter, i: nat, rest: string)
    requires j != k && i < |New(j)| - 3
    ensures !(New(k) <= New(j)[i..] + rest)
  {
    WordCharacters(j);
    WordCharacters(k);
    var p := New(j);
    var y := p[i..] + rest;
    var d := if i <= 3 then 3 - i else 0;
    assert y[d] == p[i + d] == Word(j)[i + d - 3];
    assert Word(j)[0] != Word(k)[0];
    assert New(k)[d] != y[d];
  }

  // ---- From tokens to the text and back ----

  lemma {:induction false} LoudIsExposed(s: string, n: nat, k: Delimiter) returns (a: string, b: string)
    requires n < |Tokenize(s)| && Loud(Tokenize(s)[n..], k)
    ensures Exposed(s, a, b, k)
  {
    var toks := Tokenize(s);
    TokenizeShows(s);
    TokenizeTight(s);
    TightPart(toks, n);
    ShowSplit(toks, n, {});
    a, b := LoudFront(Show(toks[..n], {}), toks[n..], k);
  }

  lemma {:induction false} LoudFront(front: string, u: seq<Token>, k: Delimiter) returns (a: string, b: string)
    requires Tight(u) && Loud(u, k)
    ensures Exposed(front + Show(u, {}), a, b, k)
  {
    var one, plain, w := ShowOne(u[0], {}), Show(u[1..], {}), Word(k);
    var t: nat;
    if u[0].Ch? {
      LoudStar(u, k);
      t := 2;
    } else {
      LoudMark(u, k);
      t :| t <= 2 && WordFollows(plain, t, w, k);
    }
    b :| FollowsAs(plain, t, w, b, k);
    a := front + (one + Stars(t));
    if u[0].Ch? {
      MoreStars(2, []);
      assert one + Stars(2) == Stars(3);
      assert EndsInStars(a, front);
    } else {
      assert EndsInMark(a, front, u[0].k, t, k);
    }
    RegroupFollowing(front, one, Stars(t), w, b);
  }

  lemma RegroupFollowing(front: string, one: string, stars: string, w: string, b: string)
    ensures front + (one + ((stars + w) + b)) == (front + (one + stars)) + (w + b)
  {
  }

  lemma {:induction false} StarsAreLoud(s: string, front: string, b: string, k: Delimiter) returns (n: nat)
    requires s == front + (Stars(3) + (Word(k) + b)) && StarsStart(b, k)
    ensures n < |Tokenize(s)| && Loud(Tokenize(s)[n..], k)
  {
    var toks, w := Tokenize(s), Word(k);
    var back := Stars(2) + (w + b);
    MoreStars(2, w + b);
    TokenizeShows(s);
    TokenizeTight(s);
    assert s[|front|] == '*';
    n := TokenAt(toks, s, |front|);
    TightPart(toks, n);
    var u := toks[n..];
    StarIsToken(u, back);
    Assoc(Stars(2), w, b);
    assert FollowsAs(back, 2, w, b, k);
    LoudStar(u, k);
  }

  lemma StarIsToken(u: seq<Token>, back: string)
    requires Show(u, {}) == ['*'] + back
    ensures u != [] && u[0] == Ch('*') && Show(u[1..], {}) == back
  {
    assert Show(u, {})[0] == '*';
    assert u[0] == Ch('*');
    assert ([u[0].c] + Show(u[1..], {}))[1..] == Show(u[1..], {});
    assert (['*'] + back)[1..] == back;
  }

  lemma {:induction false} MarkIsLoud(s: string, front: string, j: Delimiter, t: nat, b: string, k: Delimiter)
    returns (n: nat)
    requires s == front + (Old(j) + (Stars(t) + (Word(k) + b))) && t <= 2 && j > k && StarsStart(b, k)
    ensures n < |Tokenize(s)| && Loud(Tokenize(s)[n..], k)
  {
    var back := Stars(t) + (Word(k) + b);
    n := MarkBetween(s, front, j, back);
    var u := Tokenize(s)[n..];
    TokenizeTight(s);
    TightPart(Tokenize(s), n);
    Assoc(Stars(t), Word(k), b);
    assert FollowsAs(back, t, Word(k), b, k);
    assert WordFollows(back, t, Word(k), k);
    LoudMark(u, k);
  }

  lemma {:induction false} MarkBetween(s: string, front: string, j: Delimiter, back: string) returns (n: nat)
    requires s == front + (Old(j) + back)
    ensures n < |Tokenize(s)| && Tokenize(s)[n..][0] == Mark(j) && Show(Tokenize(s)[n..][1..], {}) == back
  {
    n := MarkAt(s, |front|, j);
    assert Tokenize(s)[n..][1..] == Tokenize(s)[n + 1..];
  }

  lemma {:induction false} ExposedIsLoud(s: string, a: string, b: string, k: Delimiter) returns (n: nat)
    requires Exposed(s, a, b, k)
    ensures n < |Tokenize(s)| && Loud(Tokenize(s)[n..], k)
  {
    if front: string :| EndsInStars(a, front) {
      Assoc(front, Stars(3), Word(k) + b);
      n := StarsAreLoud(s, front, b, k);
    } else {
      var front: string, j: Delimiter, t: nat :| EndsInMark(a, front, j, t, k);
      Assoc(front, Old(j) + Stars(t), Word(k) + b);
      Assoc(Old(j), Stars(t), Word(k) + b);
      n := MarkIsLoud(s, front, j, t, b, k);
    }
  }

  lemma {:induction false} QuietMeans(toks: seq<Token>, k: Delimiter)
    ensures Quiet(toks, k) <==> forall n | 0 <= n < |toks| :: !Loud(toks[n..], k)
  {
    if toks != [] {
      QuietMeans(toks[1..], k);
      assert toks[0..] == toks;
      forall n | 0 <= n < |toks| - 1 ensures toks[1..][n..] == toks[n + 1..] {
      }
      assert Loud(toks, k) ==> Loud(toks[0..], k);
      forall n | 0 < n < |toks| ensures toks[n..] == toks[1..][n - 1..] {
      }
    }
  }

  lemma {:induction false} QuietIsUnexposed(s: string, k: Delimiter)
    ensures Quiet(Tokenize(s), k) <==> forall a: string, b: string :: !Exposed(s, a, b, k)
  {
    var toks := Tokenize(s);
    QuietMeans(toks, k);
    if Quiet(toks, k) {
      forall a: string, b: string ensures !Exposed(s, a, b, k) {
        if Exposed(s, a, b, k) {
          var n := ExposedIsLoud(s, a, b, k);
        }
      }
    } else {
      var n :| 0 <= n < |toks| && Loud(toks[n..], k);
      var a, b := LoudIsExposed(s, n, k);
    }
  }

  // ---- The promises ----

  /** Unescaping gives an escaped text back if and only if no word of a delimiter stands in it
      between what will be three stars on each side. */
  lemma {:induction false} RoundTripExactly(s: string)
    ensures Unescape(Escape(s)) == s <==> forall a: string, b: string, k: Delimiter :: !Exposed(s, a, b, k)
  {
    RoundTripIsQuiet(s);
    QuietIsUnexposed(s, 0);
    QuietIsUnexposed(s, 1);
    QuietIsUnexposed(s, 2);
  }

  lemma ContainsSplit(a: string, w: string, b: string)
    ensures Contains(a + (w + b), w)
  {
    assert At(a + (w + b), |a|, w);
  }

  /** That covers every text without one of the three words. */
  lemma {:induction false} EscapeRoundTrip(s: string)
    requires forall k: Delimiter :: !Contains(s, Word(k))
    ensures Unescape(Escape(s)) == s
  {
    forall a: string, b: string, k: Delimiter ensures !Exposed(s, a, b, k) {
      assert !Contains(s, Word(k));
      ContainsSplit(a, Word(k), b);
    }
    RoundTripExactly(s);
  }

  /** And it excludes every text that already has a spelled-out mark. */
  lemma {:induction false} SpelledOutMarkIsLost(s: string, k: Delimiter)
    requires Contains(s, New(k))
    ensures Unescape(Escape(s)) != s
  {
    var p :| 0 <= p <= |s| && At(s, p, New(k));
    var front, back := s[..p], s[p + |New(k)|..];
    NewSplit(k, 3);
    MarkIsExposed(front, Word(k), back);
    assert StartsAs(Stars(3) + back, 3, back, k, 3);
    assert EndsInStars(front + Stars(3), front);
    assert Exposed(s, front + Stars(3), Stars(3) + back, k);
    RoundTripExactly(s);
  }

  lemma MarkIsExposed(front: string, w: string, back: string)
    ensures front + ((Stars(3) + ((Stars(0) + w) + Stars(3))) + back) == (front + Stars(3)) + (w + (Stars(3) + back))
  {
  }
}
