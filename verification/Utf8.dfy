/** UTF-8 as `str.encode` and `bytes.decode` use it. A byte is given as the character with its
    number, so that byte strings are strings. */
module Utf8 {
  import opened Lines

  function Byte(n: nat): char
    requires n < 256
  {
    n as char
  }

  function EncodeChar(c: char): (b: string)
    ensures 1 <= |b| <= 4
  {
    var n := c as int;
    if n < 0x80 then [c]
    else if n < 0x800 then [Byte(0xC0 + n / 64), Byte(0x80 + n % 64)]
    else if n < 0x1_0000 then [Byte(0xE0 + n / 4096), Byte(0x80 + n / 64 % 64), Byte(0x80 + n % 64)]
    else [Byte(0xF0 + n / 262144), Byte(0x80 + n / 4096 % 64), Byte(0x80 + n / 64 % 64), Byte(0x80 + n % 64)]
  }

  function Encode(s: string): string {
    if s == [] then [] else EncodeChar(s[0]) + Encode(s[1..])
  }

  /** The number of bytes that the first byte announces. */
  function Announced(b: char): nat {
    if b as int < 0xC0 then 1 else if b as int < 0xE0 then 2 else if b as int < 0xF0 then 3 else 4
  }

  /** The six bits of a byte that continues a character. */
  function Bits(b: char): int {
    b as int - 0x80
  }

  /** The number in the first bytes, whether or not they are an encoding. */
  function FirstNumber(b: string): int
    requires b != [] && Announced(b[0]) <= |b|
  {
    var n := b[0] as int;
    match Announced(b[0])
    case 1 => n
    case 2 => (n - 0xC0) * 64 + Bits(b[1])
    case 3 => (n - 0xE0) * 4096 + Bits(b[1]) * 64 + Bits(b[2])
    case _ => (n - 0xF0) * 262144 + Bits(b[1]) * 4096 + Bits(b[2]) * 64 + Bits(b[3])
  }

  predicate IsScalar(n: int) {
    0 <= n < 0xD800 || 0xE000 <= n < 0x11_0000
  }

  /** The first character: its bytes have to be the encoding of the number they hold, so that
      bytes in wrong places, overlong forms and surrogates are refused. */
  function DecodeFirst(b: string): (r: Option<char>)
    requires b != []
    ensures r.Some? ==> EncodeChar(r.value) <= b
  {
    if Announced(b[0]) > |b| || !IsScalar(FirstNumber(b)) then None
    else
      var c := FirstNumber(b) as char;
      if EncodeChar(c) <= b then Some(c) else None
  }

  function Decode(b: string): Option<string>
    decreases |b|
  {
    if b == [] then Some([])
    else
      var c := DecodeFirst(b);
      if c.None? then None
      else
        var rest := Decode(b[|EncodeChar(c.value)|..]);
        if rest.None? then None else Some([c.value] + rest.value)
  }

  lemma NumberOf(c: char, rest: string)
    ensures var b := EncodeChar(c) + rest; Announced(b[0]) == |EncodeChar(c)| && FirstNumber(b) == c as int
  {
    var n := c as int;
    assert n / 64 == n / 4096 * 64 + n / 64 % 64 && n / 4096 == n / 262144 * 64 + n / 4096 % 64;
  }

  lemma FirstOf(c: char, rest: string)
    ensures DecodeFirst(EncodeChar(c) + rest) == Some(c)
  {
    NumberOf(c, rest);
  }

  /** Decoding goes on behind a decodable part. */
  lemma {:induction false} DecodeAppend(a: string, b: string)
    requires Decode(a).Some?
    ensures Decode(a + b) == if Decode(b).Some? then Some(Decode(a).value + Decode(b).value) else None
    decreases |a|
  {
    if a == [] {
      assert a + b == b;
      assert Decode(b).Some? ==> [] + Decode(b).value == Decode(b).value;
    } else {
      var c := DecodeFirst(a).value;
      var n := |EncodeChar(c)|;
      assert a == EncodeChar(c) + a[n..];
      assert a + b == EncodeChar(c) + (a[n..] + b);
      FirstOf(c, a[n..] + b);
      assert (a + b)[n..] == a[n..] + b;
      DecodeAppend(a[n..], b);
      if Decode(b).Some? {
        Assoc([c], Decode(a[n..]).value, Decode(b).value);
      }
    }
  }

  /** Decoding inverts encoding on every text. */
  lemma {:induction false} DecodeEncode(s: string)
    ensures Decode(Encode(s)) == Some(s)
  {
    if s != [] {
      var c, rest := s[0], Encode(s[1..]);
      DecodeEncode(s[1..]);
      FirstOf(c, rest);
      assert (EncodeChar(c) + rest)[|EncodeChar(c)|..] == rest;
      assert s == [c] + s[1..];
    }
  }

  /** What decodes is the encoding of what it decodes to. */
  lemma {:induction false} EncodeDecode(b: string)
    requires Decode(b).Some?
    ensures Encode(Decode(b).value) == b
    decreases |b|
  {
    if b != [] {
      var c := DecodeFirst(b).value;
      var rest := b[|EncodeChar(c)|..];
      EncodeDecode(rest);
      PrefixRest(EncodeChar(c), b);
      EncodeFirst(c, Decode(rest).value);
    }
  }

  lemma PrefixRest(p: string, b: string)
    requires p <= b
    ensures b == p + b[|p|..]
  {
  }

  lemma EncodeFirst(c: char, s: string)
    ensures Encode([c] + s) == EncodeChar(c) + Encode(s)
  {
    assert ([c] + s)[1..] == s;
  }

  /** One character of each length, and the first and last of the longer ones. */
  lemma KnownEncodings()
    ensures EncodeChar('A') == "A"
    ensures EncodeChar('\U{00AD}') == "\U{C2}\U{AD}" && EncodeChar('\U{07FF}') == "\U{DF}\U{BF}"
    ensures EncodeChar('\U{0800}') == "\U{E0}\U{A0}\U{80}" && EncodeChar('\U{20AC}') == "\U{E2}\U{82}\U{AC}"
    ensures EncodeChar('\U{FFFD}') == "\U{EF}\U{BF}\U{BD}"
    ensures EncodeChar('\U{10000}') == "\U{F0}\U{90}\U{80}\U{80}"
    ensures EncodeChar('\U{1F600}') == "\U{F0}\U{9F}\U{98}\U{80}"
  {
  }
}
