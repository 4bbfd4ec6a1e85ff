/** Positional numerals: provisioning/provision_common/zbase32.py, and the base58 numbers that
    share its shape, over an arbitrary alphabet of distinct characters. */
module Radix {
  import opened Lines

  const ZBASE32 := "ybndrfg8ejkmcpqxot1uwisza345h769"
  const BASE58_DIGITS := "123456789"
  const BASE58_LOWER := "abcdefghijkmnopqrstuvwxyz"
  const BASE58_UPPER := "ABCDEFGHJKLMNPQRSTUVWXYZ"
  const BASE58 := BASE58_DIGITS + BASE58_LOWER + BASE58_UPPER

  predicate Distinct(s: string) {
    forall i, j :: 0 <= i < j < |s| ==> s[i] != s[j]
  }

  type Alphabet = a: string | |a| >= 2 && Distinct(a) witness "01"

  /** Position of a character in its alphabet, by inspection. */
  function ZRank(c: char): int {
    match c
    case 'y' => 0
    case 'b' => 1
    case 'n' => 2
    case 'd' => 3
    case 'r' => 4
    case 'f' => 5
    case 'g' => 6
    case '8' => 7
    case 'e' => 8
    case 'j' => 9
    case 'k' => 10
    case 'm' => 11
    case 'c' => 12
    case 'p' => 13
    case 'q' => 14
    case 'x' => 15
    case 'o' => 16
    case 't' => 17
    case '1' => 18
    case 'u' => 19
    case 'w' => 20
    case 'i' => 21
    case 's' => 22
    case 'z' => 23
    case 'a' => 24
    case '3' => 25
    case '4' => 26
    case '5' => 27
    case 'h' => 28
    case '7' => 29
    case '6' => 30
    case '9' => 31
    case _ => -1
  }

  function BRank(c: char): int {
    if '1' <= c <= '9' then c as int - '1' as int
    else if 'a' <= c <= 'k' then c as int - 'a' as int + 9
    else if 'm' <= c <= 'z' then c as int - 'm' as int + 20
    else if 'A' <= c <= 'H' then c as int - 'A' as int + 34
    else if 'J' <= c <= 'N' then c as int - 'J' as int + 42
    else c as int - 'P' as int + 47
  }

  lemma LowerRanks(i: nat)
    requires i < 25
    ensures BRank(BASE58_LOWER[i]) == i + 9
  {
  }

  lemma UpperRanks(i: nat)
    requires i < 24
    ensures BRank(BASE58_UPPER[i]) == i + 34
  {
  }

  lemma BRanks(i: nat)
    requires i < 58
    ensures BRank(BASE58[i]) == i
  {
    if i < 9 {
    } else if i < 34 {
      LowerRanks(i - 9);
    } else {
      UpperRanks(i - 34);
    }
  }

  lemma AlphabetsAreDistinct()
    ensures |ZBASE32| == 32 && Distinct(ZBASE32)
    ensures |BASE58| == 58 && Distinct(BASE58)
  {
    forall i, j | 0 <= i < j < 32 ensures ZBASE32[i] != ZBASE32[j] {
    }
    forall i, j | 0 <= i < j < 58 ensures BASE58[i] != BASE58[j] {
      BRanks(i);
      BRanks(j);
    }
  }

  function Zbase32(): (a: Alphabet)
    ensures |a| == 32
  {
    AlphabetsAreDistinct();
    ZBASE32
  }

  function Base58(): (a: Alphabet)
    ensures |a| == 58
  {
    AlphabetsAreDistinct();
    BASE58
  }

  // ---- Numerals ----

  /** The numeral of a number, most significant digit first, without leading zeros. */
  function Encode(v: nat, a: Alphabet): string {
    if v < |a| then [a[v]] else Encode(v / |a|, a) + [a[v % |a|]]
  }

  predicate Decodable(s: string, a: Alphabet) {
    forall i :: 0 <= i < |s| ==> s[i] in a
  }

  /** Position of a character in the alphabet. */
  function Index(c: char, a: string): (i: nat)
    requires c in a
    ensures i < |a| && a[i] == c
  {
    if a[0] == c then 0 else 1 + Index(c, a[1..])
  }

  /** The number a numeral stands for. */
  function Number(s: string, a: Alphabet): nat
    requires Decodable(s, a)
  {
    if s == [] then 0 else Number(s[..|s| - 1], a) * |a| + Index(s[|s| - 1], a)
  }

  lemma IndexOf(a: Alphabet, i: nat)
    requires i < |a|
    ensures a[i] in a && Index(a[i], a) == i
  {
  }

  lemma Quotient(q: nat, b: nat, r: nat)
    requires r < b
    ensures (q * b + r) / b == q && (q * b + r) % b == r
  {
    var n := q * b + r;
    var d := n / b - q;
    assert n == b * (n / b) + n % b;
    assert b * (n / b) - b * q == b * d;
    assert b * d + b > 0 && b * d < b;
    assert d >= 1 ==> b * d >= b;
    assert d <= -1 ==> b * d + b <= 0;
  }

  lemma DivMod(v: nat, b: nat)
    requires b >= 2
    ensures v == (v / b) * b + v % b && v % b < b
    ensures v >= b ==> 1 <= v / b < v
  {
  }

  lemma NumberAppend(s: string, c: char, a: Alphabet)
    requires Decodable(s, a) && c in a
    ensures Decodable(s + [c], a) && Number(s + [c], a) == Number(s, a) * |a| + Index(c, a)
  {
    assert (s + [c])[..|s|] == s;
  }

  /** Decoding inverts encoding on every number. */
  lemma {:induction false} DecodeEncode(v: nat, a: Alphabet)
    ensures Encode(v, a) != [] && Decodable(Encode(v, a), a) && Number(Encode(v, a), a) == v
    decreases v
  {
    if v < |a| {
      IndexOf(a, v);
      NumberAppend([], a[v], a);
      assert [] + [a[v]] == [a[v]];
    } else {
      var q, r := v / |a|, v % |a|;
      DivMod(v, |a|);
      DecodeEncode(q, a);
      IndexOf(a, r);
      NumberAppend(Encode(q, a), a[r], a);
    }
  }

  lemma EncodeInjective(v: nat, w: nat, a: Alphabet)
    requires Encode(v, a) == Encode(w, a)
    ensures v == w
  {
    DecodeEncode(v, a);
    DecodeEncode(w, a);
  }

  predicate NoLeadingZero(s: string, a: Alphabet) {
    s != [] && (|s| == 1 || s[0] != a[0])
  }

  lemma {:induction false} LeadingDigitCounts(s: string, a: Alphabet)
    requires s != [] && Decodable(s, a) && s[0] != a[0]
    ensures Number(s, a) >= 1
    decreases |s|
  {
    var front, c := s[..|s| - 1], s[|s| - 1];
    assert s == front + [c];
    NumberAppend(front, c, a);
    if front != [] {
      assert front[0] == s[0];
      LeadingDigitCounts(front, a);
    }
    Counts(Number(front, a), |a|, Index(c, a), Number(s, a));
  }

  lemma Counts(n: nat, b: nat, i: nat, total: nat)
    requires b >= 1 && total == n * b + i && (n >= 1 || i >= 1)
    ensures total >= 1
  {
  }

  /** Encoding inverts decoding on every numeral without a superfluous leading zero digit. */
  lemma {:induction false} EncodeDecode(s: string, a: Alphabet)
    requires Decodable(s, a) && NoLeadingZero(s, a)
    ensures Encode(Number(s, a), a) == s
    decreases |s|
  {
    var front, c := s[..|s| - 1], s[|s| - 1];
    assert s == front + [c];
    NumberAppend(front, c, a);
    if |s| > 1 {
      LeadingDigitCounts(front, a);
      EncodeDecode(front, a);
      EncodeStep(Number(front, a), Index(c, a), a);
    }
  }

  lemma EncodeStep(q: nat, r: nat, a: Alphabet)
    requires q >= 1 && r < |a|
    ensures Encode(q * |a| + r, a) == Encode(q, a) + [a[r]]
  {
    Quotient(q, |a|, r);
    assert q * |a| >= |a|;
  }

  /** `zbase32encode` (and `base58encode`). */
  method EncodeNumber(value: nat, a: Alphabet) returns (encoded: string)
    ensures encoded == Encode(value, a)
  {
    var v: nat := value;
    encoded := [];
    while v >= |a|
      invariant Encode(value, a) == Encode(v, a) + encoded
    {
      DivMod(v, |a|);
      var div: nat, mod: nat := v / |a|, v % |a|;
      Assoc(Encode(div, a), [a[mod]], encoded);
      encoded := [a[mod]] + encoded;
      v := div;
    }
    encoded := [a[v]] + encoded;
  }

  lemma Distribute(x: nat, b: nat, p: nat, m: nat)
    ensures (x * b + p) * m == x * (m * b) + p * m
  {
  }

  /** `zbase32decode` (and `base58decode`): the value, or nothing for a foreign character. */
  method DecodeNumber(encoded: string, a: Alphabet) returns (r: Option<nat>)
    ensures r.Some? <==> Decodable(encoded, a)
    ensures r.Some? ==> r.value == Number(encoded, a)
  {
    var value: nat := 0;
    var columnMultiplier: nat := 1;
    assert encoded[..|encoded|] == encoded;
    for i := |encoded| downto 0
      invariant Decodable(encoded[i..], a)
      invariant Decodable(encoded, a) ==> Number(encoded, a) == Number(encoded[..i], a) * columnMultiplier + value
    {
      if encoded[i] !in a {
        return None;
      }
      var column := Index(encoded[i], a);
      if Decodable(encoded, a) {
        assert encoded[..i + 1][..i] == encoded[..i];
        Distribute(Number(encoded[..i], a), |a|, column, columnMultiplier);
      }
      value := value + column * columnMultiplier;
      columnMultiplier := columnMultiplier * |a|;
    }
    assert encoded[0..] == encoded;
    return Some(value);
  }

  // ---- Bounded numerals ----

  function Power(b: nat, n: nat): nat {
    if n == 0 then 1 else b * Power(b, n - 1)
  }

  /** The first digit of a numeral is the most significant one. */
  lemma {:induction false} LeadingDigit(c: char, s: string, a: Alphabet)
    requires c in a && Decodable(s, a)
    ensures Decodable([c] + s, a) && Number([c] + s, a) == Index(c, a) * Power(|a|, |s|) + Number(s, a)
  {
    if s == [] {
      NumberAppend([], c, a);
      assert [c] + s == [] + [c];
    } else {
      var front, d := s[..|s| - 1], s[|s| - 1];
      LeadingDigit(c, front, a);
      assert [c] + s == ([c] + front) + [d] && s == front + [d];
      NumberAppend([c] + front, d, a);
      NumberAppend(front, d, a);
      Carried(Index(c, a), Power(|a|, |front|), Number(front, a), |a|);
    }
  }

  /** Leading zeros do not count. */
  lemma ZeroDigit(s: string, a: Alphabet)
    requires Decodable(s, a)
    ensures Decodable([a[0]] + s, a) && Number([a[0]] + s, a) == Number(s, a)
  {
    LeadingDigit(a[0], s, a);
    IndexOf(a, 0);
  }

  lemma Carried(x: nat, p: nat, n: nat, b: nat)
    ensures (x * p + n) * b == x * (b * p) + n * b
  {
  }

  /** A number below the n-th power of the base has at most n digits. */
  lemma {:induction false} EncodeLength(v: nat, a: Alphabet, n: nat)
    requires n >= 1 && v < Power(|a|, n)
    ensures 1 <= |Encode(v, a)| <= n
    decreases n
  {
    if n == 1 {
      assert Power(|a|, 1) == |a| * Power(|a|, 0);
    } else if v >= |a| {
      QuotientBelow(v, |a|, Power(|a|, n - 1));
      EncodeLength(v / |a|, a, n - 1);
    }
  }

  lemma QuotientBelow(v: nat, b: nat, p: nat)
    requires b >= 2 && v < b * p
    ensures v / b < p
  {
    DivMod(v, b);
    Grows(v / b, p, b);
  }

  lemma Grows(q: nat, p: nat, b: nat)
    ensures q >= p ==> q * b >= p * b
  {
  }

  /** A number at or above a power of the base has more digits than the exponent. */
  lemma {:induction false} EncodeLengthAtLeast(v: nat, a: Alphabet, n: nat)
    requires n >= 1 && v >= Power(|a|, n - 1)
    ensures |Encode(v, a)| >= n
    decreases n
  {
    if n > 1 {
      PowerPositive(|a|, n - 2);
      QuotientAtLeast(v, |a|, Power(|a|, n - 2));
      EncodeLengthAtLeast(v / |a|, a, n - 1);
    }
  }

  lemma {:induction false} PowerPositive(b: nat, n: nat)
    requires b >= 1
    ensures Power(b, n) >= 1
  {
    if n > 0 {
      PowerPositive(b, n - 1);
    }
  }

  lemma QuotientAtLeast(v: nat, b: nat, p: nat)
    requires b >= 2 && p >= 1 && v >= b * p
    ensures v >= b && v / b >= p
  {
    DivMod(v, b);
    Grows(p, v / b + 1, b);
    assert b * p >= b;
  }
}
