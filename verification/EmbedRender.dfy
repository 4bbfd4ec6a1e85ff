/** software/util.py `embed_data_internal`: binary data rendered as a C++ array definition and a
    header. Reading the array initialiser back gives exactly the data. */
module EmbedRender {
  import opened Bytes
  import opened Lines
  import opened Radix

  const GENERATED_BY :=
    "// WARNING: This file is " + "generated by util.py, " + "probably from prepare.py " + "in this directory\n\n"
  const HEX := "0123456789abcdef"
  const DECIMAL := "0123456789"

  function Decimal(n: nat): string {
    assert Distinct(DECIMAL);
    Encode(n, DECIMAL)
  }

  /** What a caller fixes about an embedded variable. */
  datatype Variable = Variable(name: string, varType: string, sizeType: string)

  predicate EndsWith(s: string, suffix: string) {
    |suffix| <= |s| && s[|s| - |suffix|..] == suffix
  }

  predicate IsFixedWidth(t: string) {
    Contains(t, "int") && EndsWith(t, "_t")
  }

  predicate NeedsStdint(v: Variable) {
    IsFixedWidth(v.varType) || IsFixedWidth(v.sizeType)
  }

  predicate NeedsStddef(v: Variable) {
    v.varType == "size_t" || v.sizeType == "size_t"
  }

  predicate NeedsSysTypes(v: Variable) {
    v.varType == "ssize_t" || v.sizeType == "ssize_t"
  }

  const STDINT := "#include <stdint.h>"
  const STDDEF := "#include <stddef.h>"
  const SYS_TYPES := "#include <sys/types.h>"

  function LineIf(present: bool, line: string): string {
    if present then line + [NL] else ""
  }

  function Includes(v: Variable): string {
    LineIf(NeedsStdint(v), STDINT) + LineIf(NeedsStddef(v), STDDEF) + LineIf(NeedsSysTypes(v), SYS_TYPES)
    + LineIf(NeedsStdint(v) || NeedsStddef(v) || NeedsSysTypes(v), "")
  }

  /** `'0x{:02x}'.format(b)`. */
  function HexByte(b: Byte): string {
    ['0', 'x', HEX[b / 16], HEX[b % 16]]
  }

  /** The bytes of a group joined by ", ". */
  function HexList(bs: seq<Byte>): string {
    if bs == [] then ""
    else if |bs| == 1 then HexByte(bs[0])
    else HexByte(bs[0]) + (", " + HexList(bs[1..]))
  }

  /** One line of the initialiser. */
  function Line(bs: seq<Byte>, last: bool): string {
    "    " + (HexList(bs) + (if last then "\n" else ",\n"))
  }

  /** The initialiser: lines of twelve bytes, no comma after the last byte. */
  function Body(data: seq<Byte>): string {
    if data == [] then ""
    else if |data| <= 12 then Line(data, true)
    else Line(data[..12], false) + Body(data[12..])
  }

  function Declaration(v: Variable): string {
    "extern const " + v.varType + " " + v.name + "_data[] = "
  }

  function Length(v: Variable, size: nat): string {
    "extern const " + v.sizeType + " " + v.name + "_length = " + Decimal(size) + ";\n"
  }

  function EmptyWarning(v: Variable): string {
    "\n#pragma GCC diagnostic warning \"-Wcpp\"\n"
    + "#warning Embedded file \"" + v.name + "\" is empty. Might have to re-run build.\n"
  }

  function Prologue(v: Variable): string {
    GENERATED_BY + Includes(v) + Declaration(v)
  }

  function Epilogue(v: Variable, data: seq<Byte>): string {
    "};\n\n" + Length(v, |data|) + (if data == [] then EmptyWarning(v) else "")
  }

  /** The text written to the .cpp file. */
  function Cpp(v: Variable, data: seq<Byte>): string {
    Prologue(v) + "{\n" + Body(data) + Epilogue(v, data)
  }

  /** The declarations of the header file. */
  function Declarations(v: Variable): string {
    "extern const " + (v.varType + (" " + (v.name + ("_data[];\n"
    + ("extern const " + (v.sizeType + (" " + (v.name + "_length;\n"))))))))
  }

  /** The text written to the .h file. */
  function Header(v: Variable): string {
    GENERATED_BY + "#pragma once\n\n" + (Includes(v) + Declarations(v))
  }

  /** `data_file.read(12)` at a position. */
  function ReadAt(data: seq<Byte>, pos: nat): seq<Byte>
    requires pos <= |data|
  {
    if |data| - pos <= 12 then data[pos..] else data[pos..pos + 12]
  }

  /** The read-ahead loop: one group is read before the previous one is written, so that the
      last group gets no trailing comma. */
  method RenderBody(data: seq<Byte>) returns (text: string, written: nat)
    ensures text == Body(data) && written == |data|
  {
    text, written := "", 0;
    var b := ReadAt(data, 0);
    assert data[0..] == data;
    while |b| != 0
      invariant written <= |data| && b == ReadAt(data, written)
      invariant Body(data) == text + Body(data[written..])
      decreases |data| - written
    {
      var nextB := ReadAt(data, written + |b|);
      ghost var rest := data[written..];
      assert b == if |rest| <= 12 then rest else rest[..12];
      assert |rest| > 12 ==> rest[12..] == data[written + 12..];
      var line := Line(b, |nextB| == 0);
      assert Body(rest) == line + Body(data[written + |b|..]) by {
        if |rest| <= 12 {
          assert data[written + |b|..] == [];
        }
      }
      text := text + line;
      written := written + |b|;
      b := nextB;
    }
    assert data[written..] == [];
  }

  /** The text `embed_data_internal` writes to the .cpp file. */
  method RenderCpp(v: Variable, data: seq<Byte>) returns (cpp: string)
    ensures cpp == Cpp(v, data)
  {
    cpp := GENERATED_BY;
    cpp := cpp + Includes(v);
    cpp := cpp + Declaration(v) + "{\n";
    
    var body, written := RenderBody(data);
    cpp := cpp + body;
    var tail := "};\n\n" + Length(v, written);
    if written == 0 {
      tail := tail + EmptyWarning(v);
    } else {
      assert tail + "" == tail;
    }
    assert tail == Epilogue(v, data);
    cpp := cpp + tail;
    Assoc(GENERATED_BY + Includes(v), Declaration(v), "{\n");
  }

  // ---- Reading the initialiser back ----

  function Nibble(c: char): nat {
    if '0' <= c <= '9' then c as int - '0' as int
    else if 'a' <= c <= 'f' then c as int - 'a' as int + 10
    else 0
  }

  /** A reader of array initialisers: collects the 0x tokens up to the closing brace. */
  function Scan(text: string): seq<Byte> {
    if text == [] || text[0] == '}' then []
    else if |text| >= 4 && text[0] == '0' && text[1] == 'x' then
      [(Nibble(text[2]) * 16 + Nibble(text[3])) % 256] + Scan(text[4..])
    else Scan(text[1..])
  }

  /** The text behind the first opening brace. */
  function AfterBrace(text: string): string {
    if text == [] then [] else if text[0] == '{' then text[1..] else AfterBrace(text[1..])
  }

  lemma HexRoundTrip(n: nat)
    requires n < 16
    ensures Nibble(HEX[n]) == n
  {
  }

  lemma ScanByte(b: Byte, rest: string)
    ensures Scan(HexByte(b) + rest) == [b] + Scan(rest)
  {
    var t := HexByte(b) + rest;
    HexRoundTrip(b / 16);
    HexRoundTrip(b % 16);
    assert t[4..] == rest;
  }

  lemma {:induction false} ScanSkips(gap: string, rest: string)
    requires forall i :: 0 <= i < |gap| ==> gap[i] != '0' && gap[i] != '}'
    ensures Scan(gap + rest) == Scan(rest)
  {
    if gap == [] {
      assert gap + rest == rest;
    } else {
      ScanSkips(gap[1..], rest);
      assert (gap + rest)[1..] == gap[1..] + rest;
    }
  }

  lemma {:induction false} ScanList(bs: seq<Byte>, rest: string)
    ensures Scan(HexList(bs) + rest) == bs + Scan(rest)
  {
    if bs == [] {
      assert "" + rest == rest;
    } else if |bs| == 1 {
      ScanByte(bs[0], rest);
      assert bs == [bs[0]];
    } else {
      var byte, list := HexByte(bs[0]), HexList(bs[1..]);
      ScanList(bs[1..], rest);
      ScanSkips(", ", list + rest);
      ScanByte(bs[0], ", " + (list + rest));
      Regroup(byte, ", ", list, rest);
      assert bs == [bs[0]] + bs[1..];
      Assoc([bs[0]], bs[1..], Scan(rest));
    }
  }

  lemma Regroup(a: string, b: string, c: string, d: string)
    ensures (a + (b + c)) + d == a + (b + (c + d))
  {
  }

  lemma ScanLine(bs: seq<Byte>, last: bool, rest: string)
    ensures Scan(Line(bs, last) + rest) == bs + Scan(rest)
  {
    var end := if last then "\n" else ",\n";
    Regroup("    ", HexList(bs), end, rest);
    ScanSkips("    ", HexList(bs) + (end + rest));
    ScanList(bs, end + rest);
    ScanSkips(end, rest);
  }

  lemma {:induction false} ScanBody(data: seq<Byte>, rest: string)
    ensures Scan(Body(data) + rest) == data + Scan(rest)
    decreases |data|
  {
    if data == [] {
      assert "" + rest == rest;
    } else if |data| <= 12 {
      ScanLine(data, true, rest);
    } else {
      var group, others := data[..12], data[12..];
      ScanBody(others, rest);
      ScanLine(group, false, Body(others) + rest);
      Assoc(Line(group, false), Body(others), rest);
      Assoc(group, others, Scan(rest));
      assert data == group + others;
    }
  }

  lemma {:induction false} AfterFirstBrace(front: string, rest: string)
    requires '{' !in front && rest != [] && rest[0] == '{'
    ensures AfterBrace(front + rest) == rest[1..]
  {
    var t := front + rest;
    if front == [] {
      assert t == rest;
    } else {
      AfterFirstBrace(front[1..], rest);
      assert t[1..] == front[1..] + rest;
    }
  }

  lemma PrologueHasNoBrace(v: Variable)
    requires '{' !in v.varType && '{' !in v.name
    ensures '{' !in Prologue(v)
  {
    WarningHasNoBrace();
    IncludesHaveNoBrace(v);
    DeclarationHasNoBrace(v);
  }

  lemma WarningHasNoBrace()
    ensures '{' !in GENERATED_BY
  {
    assert '{' !in "// WARNING: This file is " && '{' !in "generated by util.py, ";
    assert '{' !in "probably from prepare.py " && '{' !in "in this directory\n\n";
  }

  lemma IncludesHaveNoBrace(v: Variable)
    ensures '{' !in Includes(v)
  {
  }

  lemma DeclarationHasNoBrace(v: Variable)
    requires '{' !in v.varType && '{' !in v.name
    ensures '{' !in Declaration(v)
  {
  }

  /** The compiled array holds exactly the embedded data. */
  lemma CppHoldsData(v: Variable, data: seq<Byte>)
    requires '{' !in v.varType && '{' !in v.name
    ensures Scan(AfterBrace(Cpp(v, data))) == data
  {
    PrologueHasNoBrace(v);
    BodyBehindBrace(Prologue(v), data, Epilogue(v, data));
  }

  /** Two source files of one variable are equal only if the data are. */
  lemma CppDeterminesData(v: Variable, data: seq<Byte>, other: seq<Byte>)
    requires Cpp(v, data) == Cpp(v, other)
    ensures data == other
  {
    EpilogueStart(v, data);
    EpilogueStart(v, other);
    SameInitialiser(Prologue(v), data, Epilogue(v, data), other, Epilogue(v, other));
  }

  lemma EpilogueStart(v: Variable, data: seq<Byte>)
    ensures Epilogue(v, data) != [] && Epilogue(v, data)[0] == '}'
  {
  }

  lemma SameInitialiser(front: string, data: seq<Byte>, tail: string, other: seq<Byte>, tail': string)
    requires tail != [] && tail[0] == '}' && tail' != [] && tail'[0] == '}'
    requires front + "{\n" + Body(data) + tail == front + "{\n" + Body(other) + tail'
    ensures data == other
  {
    ScanInitialiser(front, data, tail);
    ScanInitialiser(front, other, tail');
  }

  lemma ScanInitialiser(front: string, data: seq<Byte>, tail: string)
    requires tail != [] && tail[0] == '}'
    ensures Scan((front + "{\n" + Body(data) + tail)[|front| + 2..]) == data
  {
    var body := Body(data);
    Assoc(front + "{\n", body, tail);
    assert ((front + "{\n") + (body + tail))[|front| + 2..] == body + tail;
    ScanBody(data, tail);
    assert data + [] == data;
  }

  lemma BodyBehindBrace(front: string, data: seq<Byte>, tail: string)
    requires '{' !in front && tail != [] && tail[0] == '}'
    ensures Scan(AfterBrace(front + "{\n" + Body(data) + tail)) == data
  {
    var body := Body(data);
    Assoc(front, "{\n", body);
    Assoc(front, "{\n" + body, tail);
    Assoc("{\n", body, tail);
    var rest := "{\n" + (body + tail);
    AfterFirstBrace(front, rest);
    assert rest[1..] == "\n" + (body + tail);
    ScanSkips("\n", body + tail);
    ScanBody(data, tail);
    assert data + [] == data;
  }

  // ---- The header determines the types ----

  /** Drops the #include lines and the blank line behind them. */
  function SkipIncludes(text: string): string
    decreases |text|
  {
    if text == [] || text[0] != '#' then (if text != [] && text[0] == NL then text[1..] else text)
    else SkipIncludes(AfterNewline(text))
  }

  function AfterNewline(text: string): (r: string)
    ensures text != [] ==> |r| < |text|
  {
    if text == [] then [] else if text[0] == NL then text[1..] else AfterNewline(text[1..])
  }

  lemma {:induction false} AfterLine(line: string, rest: string)
    requires IsLine(line)
    ensures AfterNewline(line + ([NL] + rest)) == rest
  {
    var t := line + ([NL] + rest);
    if line == [] {
      assert t[1..] == rest;
    } else {
      AfterLine(line[1..], rest);
      assert t[1..] == line[1..] + ([NL] + rest);
    }
  }

  lemma SkipOne(line: string, rest: string)
    requires IsLine(line) && line != [] && line[0] == '#'
    ensures SkipIncludes((line + [NL]) + rest) == SkipIncludes(rest)
  {
    Assoc(line, [NL], rest);
    AfterLine(line, rest);
  }

  lemma SkipAll(v: Variable, rest: string)
    requires rest != [] && rest[0] == 'e'
    ensures SkipIncludes(Includes(v) + rest) == rest
  {
    assert IsLine(STDINT) && IsLine(STDDEF) && IsLine(SYS_TYPES);
    SkipLines(NeedsStdint(v), STDINT, NeedsStddef(v), STDDEF, NeedsSysTypes(v), SYS_TYPES,
              NeedsStdint(v) || NeedsStddef(v) || NeedsSysTypes(v), rest);
  }

  lemma SkipLines(p1: bool, l1: string, p2: bool, l2: string, p3: bool, l3: string, blank: bool, rest: string)
    requires rest != [] && rest[0] == 'e'
    requires IsLine(l1) && l1 != [] && l1[0] == '#'
    requires IsLine(l2) && l2 != [] && l2[0] == '#'
    requires IsLine(l3) && l3 != [] && l3[0] == '#'
    ensures SkipIncludes(LineIf(p1, l1) + LineIf(p2, l2) + LineIf(p3, l3) + LineIf(blank, "") + rest) == rest
  {
    SkipBlank(blank, rest);
    var r3 := LineIf(blank, "") + rest;
    SkipMaybe(l3, p3, r3);
    SkipMaybe(l2, p2, LineIf(p3, l3) + r3);
    SkipMaybe(l1, p1, LineIf(p2, l2) + (LineIf(p3, l3) + r3));
    RegroupFive(LineIf(p1, l1), LineIf(p2, l2), LineIf(p3, l3), LineIf(blank, ""), rest);
  }

  lemma SkipBlank(blank: bool, rest: string)
    requires rest != [] && rest[0] == 'e'
    ensures SkipIncludes(LineIf(blank, "") + rest) == rest
  {
    if blank {
      assert ("" + [NL] + rest)[1..] == rest;
    } else {
      assert "" + rest == rest;
    }
  }

  lemma SkipMaybe(line: string, present: bool, rest: string)
    requires IsLine(line) && line != [] && line[0] == '#'
    ensures SkipIncludes(LineIf(present, line) + rest) == SkipIncludes(rest)
  {
    if present {
      SkipOne(line, rest);
    } else {
      assert "" + rest == rest;
    }
  }

  lemma RegroupFive(a: string, b: string, c: string, d: string, e: string)
    ensures (a + b + c + d) + e == a + (b + (c + (d + e)))
  {
  }

  lemma SamePrefix(p: string, x: string, y: string)
    requires p + x == p + y
    ensures x == y
  {
    assert x == (p + x)[|p|..] && y == (p + y)[|p|..];
  }

  lemma SameSuffix(x: string, y: string, p: string)
    requires x + p == y + p
    ensures x == y
  {
    assert |x| == |y|;
    assert x == (x + p)[..|x|] && y == (y + p)[..|y|];
  }

  /** Two header files of one variable are equal only if its types are. */
  lemma HeaderDeterminesTypes(v: Variable, w: Variable)
    requires v.name == w.name && Header(v) == Header(w)
    requires IsLine(v.name) && IsLine(v.varType) && IsLine(w.varType)
    ensures v == w
  {
    SamePrefix(GENERATED_BY + "#pragma once\n\n", Includes(v) + Declarations(v), Includes(w) + Declarations(w));
    SkipAll(v, Declarations(v));
    SkipAll(w, Declarations(w));
    DeclarationsDetermineTypes(v, w);
  }

  function SecondDeclaration(v: Variable): string {
    "extern const " + (v.sizeType + (" " + (v.name + "_length;\n")))
  }

  /** The first declaration without its line break. */
  function FirstDeclaration(v: Variable): string {
    "extern const " + (v.varType + (" " + (v.name + "_data[];")))
  }

  lemma DeclarationLines(v: Variable)
    requires IsLine(v.name) && IsLine(v.varType)
    ensures IsLine(FirstDeclaration(v))
    ensures Declarations(v) == FirstDeclaration(v) + ([NL] + SecondDeclaration(v))
  {
    assert "_data[];\n" == "_data[];" + [NL];
    var v2 := SecondDeclaration(v);
    assert v.name + (("_data[];" + [NL]) + v2) == (v.name + "_data[];") + ([NL] + v2);
    Assoc(" ", v.name + "_data[];", [NL] + v2);
    Assoc(v.varType, " " + (v.name + "_data[];"), [NL] + v2);
    Assoc("extern const ", v.varType + (" " + (v.name + "_data[];")), [NL] + v2);
  }

  lemma DeclarationsDetermineTypes(v: Variable, w: Variable)
    requires v.name == w.name && Declarations(v) == Declarations(w)
    requires IsLine(v.name) && IsLine(v.varType) && IsLine(w.varType)
    ensures v == w
  {
    DeclarationLines(v);
    DeclarationLines(w);
    var v2, w2 := SecondDeclaration(v), SecondDeclaration(w);
    AfterLine(FirstDeclaration(v), v2);
    AfterLine(FirstDeclaration(w), w2);
    assert v2 == w2;
    SameSuffix(FirstDeclaration(v), FirstDeclaration(w), [NL] + v2);
    SamePrefix("extern const ", v.varType + (" " + (v.name + "_data[];")), w.varType + (" " + (w.name + "_data[];")));
    SameSuffix(v.varType, w.varType, " " + (v.name + "_data[];"));
    SamePrefix("extern const ", v.sizeType + (" " + (v.name + "_length;\n")),
      w.sizeType + (" " + (w.name + "_length;\n")));
    SameSuffix(v.sizeType, w.sizeType, " " + (v.name + "_length;\n"));
  }

  // ---- What a compiler reads ----

  /** The source file declares the array with its type and name, and the length with its own type
      and the number of bytes in decimal. */
  lemma CppDeclares(v: Variable, data: seq<Byte>)
    returns (front: string, middle: string, digits: string, back: string)
    ensures Cpp(v, data) == front + (("extern const " + v.varType + " " + v.name + "_data[] = ") +
      (middle + (("extern const " + v.sizeType + " " + v.name + "_length = ") + (digits + (";\n" + back)))))
    ensures Distinct(DECIMAL) && Decodable(digits, DECIMAL) && Number(digits, DECIMAL) == |data|
  {
    var declaration := "extern const " + v.varType + " " + v.name + "_data[] = ";
    var length := "extern const " + v.sizeType + " " + v.name + "_length = ";
    front, digits := GENERATED_BY + Includes(v), Decimal(|data|);
    back := if data == [] then EmptyWarning(v) else "";
    middle := "{\n" + (Body(data) + "};\n\n");
    DecodeEncode(|data|, DECIMAL);
    DeclaresParts(front, declaration, "{\n", Body(data), "};\n\n", length, digits, ";\n", back);
  }

  lemma DeclaresParts(a: string, b: string, c: string, d: string, e: string, f: string, g: string, h: string, i: string)
    ensures ((a + b) + c) + d + ((e + ((f + g) + h)) + i) == a + (b + ((c + (d + e)) + (f + (g + (h + i)))))
  {
    Assoc(f, g, h);
    Assoc(e, f + (g + h), i);
    Assoc(f, g + h, i);
    Assoc(g, h, i);
    Assoc(c, d, e);
    var tail := f + (g + (h + i));
    Assoc((a + b) + c, d, e + tail);
    Assoc(a + b, c, d + (e + tail));
    Assoc(a, b, c + (d + (e + tail)));
    Assoc(d, e, tail);
    Assoc(c, d + e, tail);
  }

  /** The header declares both. */
  lemma HeaderDeclares(v: Variable) returns (front: string)
    ensures Header(v) == front + (("extern const " + v.varType + " " + v.name + "_data[];\n") +
      ("extern const " + v.sizeType + " " + v.name + "_length;\n"))
  {
    front := GENERATED_BY + "#pragma once\n\n" + Includes(v);
    DeclarationParts("extern const ", v.varType, " ", v.name, "_data[];\n", v.sizeType, "_length;\n");
    Assoc(GENERATED_BY + "#pragma once\n\n", Includes(v), Declarations(v));
  }

  lemma DeclarationParts(e: string, t: string, b: string, n: string, d: string, u: string, l: string)
    ensures e + (t + (b + (n + (d + (e + (u + (b + (n + l)))))))) == (((e + t) + b) + n) + d + ((((e + u) + b) + n) + l)
  {
    Assoc(e + u, b, n + l);
    Assoc((e + u) + b, n, l);
    Assoc(e, u, b + (n + l));
    var second := e + (u + (b + (n + l)));
    Assoc(((e + t) + b) + n, d, second);
    Assoc((e + t) + b, n, d + second);
    Assoc(e + t, b, n + (d + second));
    Assoc(e, t, b + (n + (d + second)));
  }

  /** Each header is included exactly if one of the types needs it. */
  lemma IncludesExactly(v: Variable)
    ensures "#include <stdint.h>" in Split(Includes(v)) <==>
      || (Contains(v.varType, "int") && EndsWith(v.varType, "_t"))
      || (Contains(v.sizeType, "int") && EndsWith(v.sizeType, "_t"))
    ensures "#include <stddef.h>" in Split(Includes(v)) <==> v.varType == "size_t" || v.sizeType == "size_t"
    ensures "#include <sys/types.h>" in Split(Includes(v)) <==> v.varType == "ssize_t" || v.sizeType == "ssize_t"
  {
    var p1, p2, p3 := NeedsStdint(v), NeedsStddef(v), NeedsSysTypes(v);
    assert IsLine(STDINT) && IsLine(STDDEF) && IsLine(SYS_TYPES);
    var t4 := LineIf(p1 || p2 || p3, "");
    var t3 := LineIf(p3, SYS_TYPES) + t4;
    var t2 := LineIf(p2, STDDEF) + t3;
    Assoc(LineIf(p1, STDINT) + LineIf(p2, STDDEF), LineIf(p3, SYS_TYPES), t4);
    Assoc(LineIf(p1, STDINT), LineIf(p2, STDDEF), t3);
    SplitLineIf(p1 || p2 || p3, "", "");
    assert t4 + "" == t4 && Split("") == [""];
    SplitLineIf(p3, SYS_TYPES, t4);
    SplitLineIf(p2, STDDEF, t3);
    SplitLineIf(p1, STDINT, t2);
    assert STDINT[13] != STDDEF[13];
    assert |SYS_TYPES| != |STDINT| && |SYS_TYPES| != |STDDEF|;
  }

  lemma SplitLineIf(present: bool, line: string, rest: string)
    requires IsLine(line)
    ensures Split(LineIf(present, line) + rest) == (if present then [line] else []) + Split(rest)
  {
    if present {
      SplitAppend(line, rest);
      SplitLine(line);
    } else {
      assert LineIf(present, line) + rest == rest;
    }
  }
}
