/** software/hyphenations.py and the soft-hyphen pass of software/pio_hooks.py: a table of
    hyphenated words is applied to the text leaves of a syntax tree whose positions are
    given as (row, column) points. Rows are bytes of the encoded text, and columns count bytes. */
module Hyphenation {
  import opened Lines
  import opened Utf8

  const SHY: char := '\U{00AD}'
  const DASH: char := '-'

  // ---- The hyphenation table ----

  /** Deletes every soft hyphen. */
  function Unhyphenated(s: string): string {
    if s == [] then [] else (if s[0] == SHY then [] else [s[0]]) + Unhyphenated(s[1..])
  }

  lemma {:induction false} UnhyphenatedConcat(a: string, b: string)
    ensures Unhyphenated(a + b) == Unhyphenated(a) + Unhyphenated(b)
  {
    if a == [] {
      assert a + b == b;
    } else {
      UnhyphenatedConcat(a[1..], b);
      assert (a + b)[1..] == a[1..] + b;
      Assoc(if a[0] == SHY then [] else [a[0]], Unhyphenated(a[1..]), Unhyphenated(b));
    }
  }

  lemma {:induction false} UnhyphenatedPlain(s: string)
    requires SHY !in s
    ensures Unhyphenated(s) == s
  {
    if s != [] {
      UnhyphenatedPlain(s[1..]);
      assert s == [s[0]] + s[1..];
    }
  }

  /** `x.replace("-", "")`. */
  function Undashed(x: string): string {
    if x == [] then [] else (if x[0] == DASH then [] else [x[0]]) + Undashed(x[1..])
  }

  /** `x.replace("-", "\u00AD")`. */
  function Softened(x: string): string {
    if x == [] then [] else [if x[0] == DASH then SHY else x[0]] + Softened(x[1..])
  }

  datatype Entry = Entry(left: string, right: string)

  /** The `hyphenations` list built from the dashed words. */
  function Table(words: seq<string>): seq<Entry> {
    seq(|words|, i requires 0 <= i < |words| => Entry(Undashed(words[i]), Softened(words[i])))
  }

  /** Both columns of the table spell the same word. */
  ghost predicate Sound(table: seq<Entry>) {
    forall i :: 0 <= i < |table| ==> Unhyphenated(table[i].right) == table[i].left
  }

  lemma {:induction false} EntrySpells(x: string)
    requires SHY !in x
    ensures Unhyphenated(Softened(x)) == Undashed(x)
  {
    if x != [] {
      EntrySpells(x[1..]);
      assert Softened(x)[1..] == Softened(x[1..]);
    }
  }

  lemma TableIsSound(words: seq<string>)
    requires forall i :: 0 <= i < |words| ==> SHY !in words[i]
    ensures Sound(Table(words))
  {
    forall i | 0 <= i < |words| ensures Unhyphenated(Table(words)[i].right) == Table(words)[i].left {
      EntrySpells(words[i]);
    }
  }

  /** Row `i` of the table: on the right the word with a soft hyphen for each dash, on the left the
      word without them. */
  lemma TableRow(words: seq<string>, i: nat, j: nat)
    requires i < |words| && j < |words[i]|
    ensures |Table(words)| == |words| && |Table(words)[i].right| == |words[i]|
    ensures Table(words)[i].right[j] == if words[i][j] == '-' then SHY else words[i][j]
  {
    SoftenedAt(words[i], j);
  }

  lemma {:induction false} SoftenedAt(x: string, j: nat)
    requires j < |x|
    ensures |Softened(x)| == |x| && Softened(x)[j] == if x[j] == '-' then SHY else x[j]
  {
    if |x| > 1 {
      SoftenedAt(x[1..], if j > 0 then j - 1 else 0);
    }
  }

  // ---- Hyphenating one text ----

  /** Entry `i` is the first one for the word. */
  predicate IsFirstEntry(table: seq<Entry>, word: string, i: nat) {
    i < |table| && table[i].left == word && forall j | 0 <= j < i :: table[j].left != word
  }

  /** The right column of the first entry for the word, or the word itself if there is none. */
  ghost predicate Replaces(word: string, table: seq<Entry>, r: string) {
    || (exists i: nat :: IsFirstEntry(table, word, i) && r == table[i].right)
    || ((forall i | 0 <= i < |table| :: table[i].left != word) && r == word)
  }

  /** The pair search of `repl`. */
  method LookUp(word: string, table: seq<Entry>) returns (r: string)
    ensures Replaces(word, table, r)
    ensures r == Replacement(word, table)
  {
    for i := 0 to |table|
      invariant forall j | 0 <= j < i :: table[j].left != word
      invariant Replacement(word, table) == Replacement(word, table[i..])
    {
      if word == table[i].left {
        assert IsFirstEntry(table, word, i);
        return table[i].right;
      }
      assert table[i..][1..] == table[i + 1..];
    }
    return word;
  }

  function Replacement(word: string, table: seq<Entry>): string {
    if table == [] then word
    else if table[0].left == word then table[0].right
    else Replacement(word, table[1..])
  }

  lemma {:induction false} ReplacementSpells(word: string, table: seq<Entry>)
    requires Sound(table) && SHY !in word
    ensures Unhyphenated(Replacement(word, table)) == word
  {
    if table == [] {
      UnhyphenatedPlain(word);
    } else if table[0].left != word {
      ReplacementSpells(word, table[1..]);
    }
  }

  /** Length of the longest prefix made of word characters. */
  function WordLength(s: string, isWord: char -> bool): (n: nat)
    ensures n <= |s|
  {
    if s == [] || !isWord(s[0]) then 0 else 1 + WordLength(s[1..], isWord)
  }

  /** `re.sub(r'\w+', repl, text)`: every maximal word is replaced. */
  function Substituted(s: string, isWord: char -> bool, table: seq<Entry>): string
    decreases |s|
  {
    if s == [] then []
    else if !isWord(s[0]) then [s[0]] + Substituted(s[1..], isWord, table)
    else
      var n := WordLength(s, isWord);
      Replacement(s[..n], table) + Substituted(s[n..], isWord, table)
  }

  lemma {:induction false} SubstitutedSpells(s: string, isWord: char -> bool, table: seq<Entry>)
    requires Sound(table) && SHY !in s
    ensures Unhyphenated(Substituted(s, isWord, table)) == s
    decreases |s|
  {
    if s != [] {
      var word := isWord(s[0]);
      var n := if word then WordLength(s, isWord) else 1;
      var left, right := s[..n], s[n..];
      assert s == left + right;
      SubstitutedSpells(right, isWord, table);
      if word {
        ReplacementSpells(left, table);
        UnhyphenatedConcat(Replacement(left, table), Substituted(right, isWord, table));
      } else {
        assert left == [s[0]];
        UnhyphenatedPlain(left);
        UnhyphenatedConcat(left, Substituted(right, isWord, table));
      }
    }
  }

  // ---- What becomes of each word ----

  predicate AllWord(s: string, isWord: char -> bool) {
    forall i :: 0 <= i < |s| ==> isWord(s[i])
  }

  /** No word reaches across the place between two texts. */
  predicate Apart(u: string, v: string, isWord: char -> bool) {
    u == [] || v == [] || !isWord(u[|u| - 1]) || !isWord(v[0])
  }

  lemma {:induction false} WordLengthOf(s: string, isWord: char -> bool)
    ensures AllWord(s[..WordLength(s, isWord)], isWord)
    ensures WordLength(s, isWord) < |s| ==> !isWord(s[WordLength(s, isWord)])
  {
    if s != [] && isWord(s[0]) {
      WordLengthOf(s[1..], isWord);
      var n := WordLength(s[1..], isWord);
      assert s[..n + 1] == [s[0]] + s[1..][..n];
    }
  }

  /** A word stays one word with a text behind it that starts with something else. */
  lemma {:induction false} WordLengthApart(u: string, v: string, isWord: char -> bool)
    requires u != [] && Apart(u, v, isWord)
    ensures WordLength(u + v, isWord) == WordLength(u, isWord)
  {
    assert (u + v)[0] == u[0] && (u + v)[1..] == u[1..] + v;
    if isWord(u[0]) {
      if |u| > 1 {
        WordLengthApart(u[1..], v, isWord);
      } else {
        assert (u + v)[1..] == v && u[1..] == [];
      }
    }
  }

  lemma {:induction false} SubstitutedApart(u: string, v: string, isWord: char -> bool, table: seq<Entry>)
    requires Apart(u, v, isWord)
    ensures Substituted(u + v, isWord, table) == Substituted(u, isWord, table) + Substituted(v, isWord, table)
    decreases |u|
  {
    if u == [] {
      assert u + v == v;
    } else {
      var n := if isWord(u[0]) then WordLength(u, isWord) else 1;
      var rest := u[n..];
      WordLengthApart(u, v, isWord);
      assert (u + v)[n..] == rest + v && (u + v)[..n] == u[..n] && (u + v)[0] == u[0];
      SubstitutedApart(rest, v, isWord, table);
      var first := if isWord(u[0]) then Replacement(u[..n], table) else [u[0]];
      Assoc(first, Substituted(rest, isWord, table), Substituted(v, isWord, table));
    }
  }

  lemma {:induction false} ReplacementIs(word: string, table: seq<Entry>, r: string)
    requires Replaces(word, table, r)
    ensures r == Replacement(word, table)
  {
    if table != [] && table[0].left != word {
      if i: nat :| IsFirstEntry(table, word, i) && r == table[i].right {
        assert IsFirstEntry(table[1..], word, i - 1);
      }
      ReplacementIs(word, table[1..], r);
    }
  }

  /** Wherever a text has a maximal word `x`, hyphenating it hyphenates what is before and after,
      and puts the replacement of `x` in between. */
  lemma {:induction false} WordIsReplaced(
    u: string, x: string, v: string, r: string, isWord: char -> bool, table: seq<Entry>)
    requires x != [] && AllWord(x, isWord) && Apart(u, x, isWord) && Apart(x, v, isWord) && Replaces(x, table, r)
    ensures Substituted(u + x + v, isWord, table) == Substituted(u, isWord, table) + r + Substituted(v, isWord, table)
  {
    assert Apart(u + x, v, isWord);
    SubstitutedApart(u + x, v, isWord, table);
    SubstitutedApart(u, x, isWord, table);
    SubstitutedWord(x, isWord, table);
    ReplacementIs(x, table, r);
  }

  lemma {:induction false} SubstitutedWord(x: string, isWord: char -> bool, table: seq<Entry>)
    requires x != [] && AllWord(x, isWord)
    ensures Substituted(x, isWord, table) == Replacement(x, table)
  {
    WordLengthOf(x, isWord);
    assert x[..|x|] == x && x[|x|..] == [];
    assert Substituted(x, isWord, table) == Replacement(x, table) + [];
  }

  /** Text without a word is not changed. */
  lemma {:induction false} NoWordIsKept(s: string, isWord: char -> bool, table: seq<Entry>)
    requires forall i :: 0 <= i < |s| ==> !isWord(s[i])
    ensures Substituted(s, isWord, table) == s
  {
    if s != [] {
      NoWordIsKept(s[1..], isWord, table);
    }
  }

  /** The pass refuses texts that already have a soft hyphen in either spelling. */
  predicate Refused(text: string) {
    SHY in text || Contains(text, "&shy;")
  }

  /** The configuration of one run: the rows and how their bytes decode, the word pattern and the
      table. */
  datatype Config = Config(rows: seq<string>, decode: string -> Option<string>, isWord: char -> bool, table: seq<Entry>)

  // ---- Points and rows ----

  datatype Point = Point(row: nat, column: nat)

  /** Position in the joined text at which a row starts. */
  function RowStart(rows: seq<string>, row: nat): nat
    requires row <= |rows|
  {
    if row == 0 then 0 else |rows[0]| + 1 + RowStart(rows[1..], row - 1)
  }

  predicate ValidPoint(rows: seq<string>, p: Point) {
    p.row < |rows| && p.column <= |rows[p.row]|
  }

  function Offset(rows: seq<string>, p: Point): nat
    requires ValidPoint(rows, p)
  {
    RowStart(rows, p.row) + p.column
  }

  lemma {:induction false} RowStartStep(rows: seq<string>, row: nat)
    requires row < |rows|
    ensures RowStart(rows, row + 1) == RowStart(rows, row) + |rows[row]| + 1
  {
    if row > 0 {
      RowStartStep(rows[1..], row - 1);
    }
  }

  /** The row is at position `start` of the text, followed by a line break unless it is last. */
  predicate RowAt(text: string, start: nat, row: string, last: bool) {
    && start + |row| <= |text|
    && (forall k :: 0 <= k < |row| ==> row[k] == text[start + k])
    && (if last then start + |row| == |text| else start + |row| < |text| && text[start + |row|] == NL)
  }

  /** Each row is found in the joined text at its start. */
  lemma {:induction false} RowInText(rows: seq<string>, row: nat)
    requires row < |rows|
    ensures RowAt(Join(rows), RowStart(rows, row), rows[row], row + 1 == |rows|)
  {
    if row > 0 {
      RowInText(rows[1..], row - 1);
    }
  }

  lemma {:induction false} RowStartMonotone(rows: seq<string>, a: nat, b: nat)
    requires a <= b <= |rows|
    ensures RowStart(rows, a) + (b - a) <= RowStart(rows, b)
  {
    if a < b {
      RowStartMonotone(rows, a, b - 1);
      RowStartStep(rows, b - 1);
    }
  }

  predicate Before(p: Point, q: Point) {
    p.row < q.row || (p.row == q.row && p.column <= q.column)
  }

  lemma OffsetMonotone(rows: seq<string>, p: Point, q: Point)
    requires ValidPoint(rows, p) && ValidPoint(rows, q) && Before(p, q)
    ensures Offset(rows, p) <= Offset(rows, q) <= |Join(rows)|
  {
    RowInText(rows, q.row);
    if p.row < q.row {
      RowStartStep(rows, p.row);
      RowStartMonotone(rows, p.row + 1, q.row);
    }
  }

  /** The flat slice between two points. */
  function Slice(rows: seq<string>, p: Point, q: Point): string
    requires ValidPoint(rows, p) && ValidPoint(rows, q) && Before(p, q)
  {
    OffsetMonotone(rows, p, q);
    Join(rows)[Offset(rows, p)..Offset(rows, q)]
  }

  /** A piece of a row is the same piece of the text. */
  lemma PartOfRow(text: string, start: nat, row: string, last: bool, i: nat, j: nat)
    requires RowAt(text, start, row, last) && i <= j <= |row|
    ensures text[start + i..start + j] == row[i..j]
  {
    forall k | 0 <= k < j - i ensures text[start + i..start + j][k] == row[i..j][k] {
      assert row[i + k] == text[start + (i + k)];
    }
  }

  /** `get_text`: collecting whole and partial rows and decoding them gives the text of the flat
      slice between the points; `None` stands for bytes that do not decode. */
  method GetText(c: Config, startPoint: Point, endPoint: Point) returns (text: Option<string>)
    requires ValidPoint(c.rows, startPoint) && ValidPoint(c.rows, endPoint) && Before(startPoint, endPoint)
    ensures text == c.decode(Slice(c.rows, startPoint, endPoint))
  {
    var bytes := CollectRows(c.rows, startPoint, endPoint);
    return c.decode(bytes);
  }

  /** The row loop of `get_text`. */
  method CollectRows(translationRows: seq<string>, startPoint: Point, endPoint: Point) returns (bytes: string)
    requires ValidPoint(translationRows, startPoint) && ValidPoint(translationRows, endPoint)
    requires Before(startPoint, endPoint)
    ensures bytes == Slice(translationRows, startPoint, endPoint)
  {
    var rows: seq<string> := [];
    OffsetMonotone(translationRows, startPoint, endPoint);
    ghost var flat := Join(translationRows);
    ghost var from := Offset(translationRows, startPoint);
    for row := startPoint.row to endPoint.row + 1
      invariant row == startPoint.row ==> rows == []
      invariant row > startPoint.row ==> rows != []
      invariant startPoint.row < row <= endPoint.row ==>
        && from <= RowStart(translationRows, row) <= |flat|
        && Join(rows) + [NL] == flat[from..RowStart(translationRows, row)]
      invariant row == endPoint.row + 1 ==> Join(rows) == flat[from..Offset(translationRows, endPoint)]
    {
      ghost var before := rows;
      var cell := CutRow(translationRows[row], row, startPoint, endPoint);
      rows := rows + [cell];
      RowStartStep(translationRows, row);
      RowInText(translationRows, row);
      CollectCell(flat, from, RowStart(translationRows, row), translationRows[row], row + 1 == |translationRows|,
                  if row == startPoint.row then startPoint.column else 0,
                  if row == endPoint.row then endPoint.column else |translationRows[row]|, before, cell);
    }
    bytes := Join(rows);
  }

  /** The part of a row between the points. */
  method CutRow(text: string, row: nat, startPoint: Point, endPoint: Point) returns (cell: string)
    requires row == startPoint.row ==> startPoint.column <= |text|
    requires row == endPoint.row ==> endPoint.column <= |text|
    requires row == startPoint.row == endPoint.row ==> startPoint.column <= endPoint.column
    ensures cell == text[if row == startPoint.row then startPoint.column else 0
                         ..if row == endPoint.row then endPoint.column else |text|]
  {
    if row == startPoint.row && row == endPoint.row {
      cell := text[startPoint.column..endPoint.column];
    } else if row == startPoint.row {
      cell := text[startPoint.column..];
    } else if row == endPoint.row {
      cell := text[..endPoint.column];
    } else {
      cell := text;
    }
  }

  /** One step of `CollectRows`: the collected rows are the text up to the end of the new cell. */
  lemma CollectCell(text: string, from: nat, start: nat, row: string, last: bool, i: nat, j: nat,
                    before: seq<string>, cell: string)
    requires RowAt(text, start, row, last) && i <= j <= |row| && cell == row[i..j]
    requires before == [] ==> from == start + i
    requires before != [] ==> i == 0 && from <= start && Join(before) + [NL] == text[from..start]
    ensures Join(before + [cell]) == text[from..start + j]
    ensures j == |row| && !last ==> Join(before + [cell]) + [NL] == text[from..start + |row| + 1]
  {
    PartOfRow(text, start, row, last, i, j);
    if before == [] {
      assert before + [cell] == [cell];
    } else {
      JoinAppend(before, [cell]);
    }
    ExtendSlice(text, from, start + i, start + j, if before == [] then [] else Join(before) + [NL], cell);
  }

  lemma ExtendSlice(text: string, from: nat, mid: nat, to: nat, done: string, cell: string)
    requires from <= mid <= to <= |text|
    requires done == text[from..mid] && cell == text[mid..to]
    ensures done + cell == text[from..to]
    ensures to < |text| ==> done + cell + [text[to]] == text[from..to + 1]
  {
  }

  // ---- Points between characters ----

  const ORIGIN := Point(0, 0)

  /** Decoding goes on behind a part that decodes, as UTF-8 does. */
  ghost predicate Decodes(decode: string -> Option<string>) {
    forall a: string, b: string {:trigger decode(a + b)} | decode(a).Some? ::
      decode(a + b) == if decode(b).Some? then Some(decode(a).value + decode(b).value) else None
  }

  lemma Utf8Decodes()
    ensures Decodes(Decode)
  {
    forall a: string, b: string | Decode(a).Some?
      ensures Decode(a + b) == if Decode(b).Some? then Some(Decode(a).value + Decode(b).value) else None
    {
      DecodeAppend(a, b);
    }
  }

  /** The bytes up to the point are whole characters. */
  predicate OnCharacter(c: Config, p: Point) {
    ValidPoint(c.rows, p) && c.decode(Slice(c.rows, ORIGIN, p)).Some?
  }

  /** The text between two points. */
  function Text(c: Config, p: Point, q: Point): string
    requires ValidPoint(c.rows, p) && ValidPoint(c.rows, q) && Before(p, q)
  {
    var text := c.decode(Slice(c.rows, p, q));
    if text.Some? then text.value else []
  }

  lemma SliceSplit(rows: seq<string>, p: Point, m: Point, q: Point)
    requires ValidPoint(rows, p) && ValidPoint(rows, m) && ValidPoint(rows, q)
    requires Before(p, m) && Before(m, q)
    ensures Slice(rows, p, q) == Slice(rows, p, m) + Slice(rows, m, q)
  {
    OffsetMonotone(rows, p, m);
    OffsetMonotone(rows, m, q);
  }

  lemma TextDecodes(c: Config, p: Point, q: Point)
    requires Decodes(c.decode) && OnCharacter(c, p) && OnCharacter(c, q) && Before(p, q)
    ensures c.decode(Slice(c.rows, p, q)) == Some(Text(c, p, q))
    ensures Text(c, ORIGIN, q) == Text(c, ORIGIN, p) + Text(c, p, q)
  {
    SliceSplit(c.rows, ORIGIN, p, q);
  }

  lemma TextSplit(c: Config, p: Point, m: Point, q: Point)
    requires Decodes(c.decode) && OnCharacter(c, p) && OnCharacter(c, m) && OnCharacter(c, q)
    requires Before(p, m) && Before(m, q)
    ensures Text(c, p, q) == Text(c, p, m) + Text(c, m, q)
  {
    TextDecodes(c, p, m);
    TextDecodes(c, m, q);
    SliceSplit(c.rows, p, m, q);
  }

  /** The rows are an encoded text without a soft hyphen. */
  predicate IsPlainText(c: Config) {
    var text := c.decode(Join(c.rows));
    text.Some? && SHY !in text.value
  }

  // ---- The syntax tree ----

  datatype Node = Node(kind: string, start: Point, end: Point, children: seq<Node>)

  /** A node with the way it was reached: path[0] is the root, path[i + 1] the
      child number index[i] of path[i]. */
  datatype Way = Way(path: seq<Node>, index: seq<nat>) {
    predicate Valid() {
      && |path| == |index| + 1
      && forall i :: 0 <= i < |index| ==>
           index[i] < |path[i].children| && path[i + 1] == path[i].children[index[i]]
    }

    function Last(): Node
      requires Valid()
    {
      path[|path| - 1]
    }

    function Child(i: nat): (c: Place)
      requires Valid() && i < |Last().children|
      ensures c.Last() == Last().children[i]
    {
      Way(path + [Last().children[i]], index + [i])
    }
  }

  type Place = w: Way | w.Valid() witness Way([Node("", Point(0, 0), Point(0, 0), [])], [])

  const OBJECT_PATH := ["program", "lexical_declaration", "variable_declarator", "as_expression"]

  function Kinds(path: seq<Node>): seq<string> {
    seq(|path|, i requires 0 <= i < |path| => path[i].kind)
  }

  /** The object literal assigned to translation_de or translation_en. */
  predicate IsTranslationObject(rows: seq<string>, path: seq<Node>) {
    && |path| == 5
    && path[4].kind == "object"
    && Kinds(path[..4]) == OBJECT_PATH
    && path[2].children != []
    && var name := path[2].children[0];
       && name.kind == "identifier"
       && ValidPoint(rows, name.start) && ValidPoint(rows, name.end) && Before(name.start, name.end)
       && Slice(rows, name.start, name.end) in ["translation_de", "translation_en"]
  }

  /** The step into path[k] leaves the text that may be hyphenated: string keys of an object,
      string subscripts, call arguments, JSX attributes and literal types. */
  predicate Blocked(place: Place, k: nat)
    requires 1 <= k < |place.path|
  {
    var node, child := place.path[k - 1], place.path[k];
    || (node.kind == "pair" && k >= 2 && place.path[k - 2].kind == "object" && place.index[k - 1] == 0 &&
      child.kind == "string")
    || (node.kind == "string" && k >= 2 && place.path[k - 2].kind == "subscript_expression")
    || child.kind in ["call_expression", "jsx_attribute", "literal_type"]
  }

  /** Strings at this place are hyphenated: it lies inside the translation object and no
      step from there down to it is blocked. */
  predicate Enabled(rows: seq<string>, place: Place)
  {
    && |place.path| > 5
    && IsTranslationObject(rows, place.path[..5])
    && forall k :: 5 <= k < |place.path| ==> !Blocked(place, k)
  }

  /** Whether the text of the leaf at this place goes through `hyphenate`. */
  predicate Selected(rows: seq<string>, place: Place)
  {
    var kind := place.Last().kind;
    (kind == "string_fragment" && Enabled(rows, place)) || kind == "jsx_text"
  }

  /** The leaves below a place, in document order. */
  function Leaves(place: Place): seq<Place>
    decreases place.Last(), 1, 0
  {
    if place.Last().children == [] then [place] else LeavesFrom(place, 0)
  }

  function LeavesFrom(place: Place, i: nat): seq<Place>
    requires i <= |place.Last().children|
    decreases place.Last(), 0, |place.Last().children| - i
  {
    if i == |place.Last().children| then [] else Leaves(place.Child(i)) + LeavesFrom(place, i + 1)
  }

  /** The leaf lies within the text and not before the cursor. */
  predicate Fits(c: Config, leaf: Place, from: Point) {
    var node := leaf.Last();
    && OnCharacter(c, from) && OnCharacter(c, node.start) && OnCharacter(c, node.end)
    && Before(from, node.start) && Before(node.start, node.end)
  }

  /** The parser's promise: leaf spans are ordered, do not overlap, lie within the text and do not
      divide a character. */
  predicate Ordered(c: Config, leaves: seq<Place>, from: Point)
  {
    if leaves == [] then OnCharacter(c, from)
    else Fits(c, leaves[0], from) && Ordered(c, leaves[1..], leaves[0].Last().end)
  }

  /** Where the cursor stands after the leaves. */
  function CursorAfter(leaves: seq<Place>, from: Point): Point
  {
    if leaves == [] then from else leaves[|leaves| - 1].Last().end
  }

  /** The text between the previous leaf and this one, and the leaf's own text. */
  function Piece(c: Config, leaf: Place, from: Point): seq<string>
    requires Fits(c, leaf, from)
  {
    var node := leaf.Last();
    var text := Text(c, node.start, node.end);
    [Text(c, from, node.start),
     if Selected(c.rows, leaf) then Substituted(text, c.isWord, c.table) else text]
  }

  predicate RefusedLeaf(c: Config, leaf: Place)
  {
    var node := leaf.Last();
    && Selected(c.rows, leaf)
    && OnCharacter(c, node.start) && OnCharacter(c, node.end) && Before(node.start, node.end)
    && Refused(Text(c, node.start, node.end))
  }

  /** What the walk writes for a run of leaves. */
  function Output(c: Config, leaves: seq<Place>, from: Point): seq<string>
    requires Ordered(c, leaves, from)
  {
    if leaves == [] then []
    else Piece(c, leaves[0], from) + Output(c, leaves[1..], leaves[0].Last().end)
  }

  predicate NoneRefused(c: Config, leaves: seq<Place>)
  {
    forall i :: 0 <= i < |leaves| ==> !RefusedLeaf(c, leaves[i])
  }

  lemma {:induction false} OrderedSplit(c: Config, a: seq<Place>, b: seq<Place>, from: Point)
    ensures Ordered(c, a + b, from) <==> Ordered(c, a, from) && Ordered(c, b, CursorAfter(a, from))
  {
    if a == [] {
      assert a + b == b;
    } else {
      assert (a + b)[1..] == a[1..] + b;
      OrderedSplit(c, a[1..], b, a[0].Last().end);
    }
  }

  lemma {:induction false} OutputSplit(c: Config, a: seq<Place>, b: seq<Place>, from: Point)
    requires Ordered(c, a + b, from)
    ensures Ordered(c, a, from) && Ordered(c, b, CursorAfter(a, from))
    ensures Output(c, a + b, from) == Output(c, a, from) + Output(c, b, CursorAfter(a, from))
  {
    OrderedSplit(c, a, b, from);
    if a == [] {
      assert a + b == b;
    } else {
      var rest, next, end := a[1..], a[0].Last().end, CursorAfter(a, from);
      assert (a + b)[1..] == rest + b;
      OutputSplit(c, rest, b, next);
      assert CursorAfter(rest, next) == end;
      OutputFirst(c, a + b, from);
      OutputFirst(c, a, from);
      Assoc(Piece(c, a[0], from), Output(c, rest, next), Output(c, b, end));
    }
  }

  lemma {:induction false} OutputFirst(c: Config, leaves: seq<Place>, from: Point)
    requires Ordered(c, leaves, from) && leaves != []
    ensures Fits(c, leaves[0], from) && Ordered(c, leaves[1..], leaves[0].Last().end)
    ensures Output(c, leaves, from) == Piece(c, leaves[0], from) + Output(c, leaves[1..], leaves[0].Last().end)
  {
  }

  /** `last_end_point_ref`: the one-element list the recursive calls share. */
  class Cursor {
    var point: Point
    constructor (p: Point)
      ensures point == p
    {
      point := p;
    }
  }

  /** `hyphenate`: `None` stands for the early exit. */
  method Hyphenate(c: Config, text: string) returns (r: Option<string>)
    ensures r == if Refused(text) then None else Some(Substituted(text, c.isWord, c.table))
  {
    if SHY in text {
      return None;
    }
    if Contains(text, "&shy;") {
      return None;
    }
    var rest := text;
    var out: string := [];
    while rest != []
      invariant Substituted(text, c.isWord, c.table) == out + Substituted(rest, c.isWord, c.table)
      decreases |rest|
    {
      if !c.isWord(rest[0]) {
        out, rest := out + [rest[0]], rest[1..];
      } else {
        var n := WordLength(rest, c.isWord);
        var word := LookUp(rest[..n], c.table);
        out, rest := out + word, rest[n..];
      }
    }
    assert Substituted(rest, c.isWord, c.table) == [];
    assert Substituted(text, c.isWord, c.table) == out;
    return Some(out);
  }

  /** The leaf case of `process_node`. */
  method ProcessLeaf(c: Config, leaf: Place, cursor: Cursor, doHyphenate: bool) returns (output: Option<seq<string>>)
    requires leaf.Last().children == [] && doHyphenate == Enabled(c.rows, leaf)
    requires Decodes(c.decode) && Fits(c, leaf, cursor.point)
    modifies cursor
    ensures output.Some? <==> !RefusedLeaf(c, leaf)
    ensures output.Some? ==> output.value == Piece(c, leaf, old(cursor.point))
    ensures cursor.point == leaf.Last().end
  {
    var node := leaf.Last();
    TextDecodes(c, cursor.point, node.start);
    TextDecodes(c, node.start, node.end);
    var before := GetText(c, cursor.point, node.start);
    var own := GetText(c, node.start, node.end);
    var prefix, text := before.value, own.value;
    cursor.point := node.end;
    if (node.kind == "string_fragment" && doHyphenate) || node.kind == "jsx_text" {
      var r := Hyphenate(c, text);
      if r.None? {
        return None;
      }
      text := r.value;
    }
    return Some([prefix, text]);
  }

  /** `process_node`: the flag handed down agrees with the place, each leaf is written once
      with the gap before it, and the cursor ends after the last leaf. */
  method ProcessNode(c: Config, place: Place, cursor: Cursor, doHyphenate: bool) returns (output: Option<seq<string>>)
    requires doHyphenate == Enabled(c.rows, place)
    requires Decodes(c.decode) && Ordered(c, Leaves(place), cursor.point)
    modifies cursor
    ensures output.Some? <==> NoneRefused(c, Leaves(place))
    ensures output.Some? ==> output.value == Output(c, Leaves(place), old(cursor.point))
    ensures output.Some? ==> cursor.point == CursorAfter(Leaves(place), old(cursor.point))
    decreases place.Last(), 1
  {
    if place.Last().children == [] {
      OneLeaf(c, place, cursor.point);
      output := ProcessLeaf(c, place, cursor, doHyphenate);
    } else {
      var doHyphenateChildren := doHyphenate || IsTranslationObject(c.rows, place.path);
      output := ProcessChildren(c, place, cursor, doHyphenateChildren);
    }
  }

  lemma OneLeaf(c: Config, leaf: Place, from: Point)
    requires leaf.Last().children == [] && Ordered(c, Leaves(leaf), from)
    ensures Fits(c, leaf, from)
    ensures Output(c, Leaves(leaf), from) == Piece(c, leaf, from)
    ensures NoneRefused(c, Leaves(leaf)) <==> !RefusedLeaf(c, leaf)
  {
    assert Leaves(leaf) == [leaf];
  }

  /** The flag a child gets: the node's own, unless the step into the child is blocked. */
  method ChildFlag(rows: seq<string>, place: Place, i: nat, doHyphenateChildren: bool) returns (doHyphenateChild: bool)
    requires i < |place.Last().children|
    requires doHyphenateChildren == (Enabled(rows, place) || IsTranslationObject(rows, place.path))
    ensures doHyphenateChild == Enabled(rows, place.Child(i))
  {
    EnabledChild(rows, place, i);
    doHyphenateChild := doHyphenateChildren;
    if doHyphenateChild && Blocked(place.Child(i), |place.path|) {
      doHyphenateChild := false;
    }
  }

  /** The child loop of `process_node`. */
  method ProcessChildren(c: Config, place: Place, cursor: Cursor, doHyphenateChildren: bool)
    returns (output: Option<seq<string>>)
    requires doHyphenateChildren == (Enabled(c.rows, place) || IsTranslationObject(c.rows, place.path))
    requires Decodes(c.decode) && Ordered(c, LeavesFrom(place, 0), cursor.point)
    modifies cursor
    ensures output.Some? <==> NoneRefused(c, LeavesFrom(place, 0))
    ensures output.Some? ==> output.value == Output(c, LeavesFrom(place, 0), old(cursor.point))
    ensures output.Some? ==> cursor.point == CursorAfter(LeavesFrom(place, 0), old(cursor.point))
    decreases place.Last(), 0
  {
    var out: seq<string> := [];
    ghost var all, from := LeavesFrom(place, 0), cursor.point;
    assert Progress(c, all, from, all, from, []) by {
      assert [] + Output(c, all, from) == Output(c, all, from);
    }
    for i := 0 to |place.Last().children|
      invariant Progress(c, all, from, LeavesFrom(place, i), cursor.point, out)
    {
      var child := place.Child(i);
      var doHyphenateChild := ChildFlag(c.rows, place, i, doHyphenateChildren);
      ghost var here, rest, before := Leaves(child), LeavesFrom(place, i + 1), cursor.point;
      assert LeavesFrom(place, i) == here + rest;
      OrderedSplit(c, here, rest, before);
      var r := ProcessNode(c, child, cursor, doHyphenateChild);
      if r.None? {
        NoneRefusedSplit(c, here, rest);
        return None;
      }
      ProgressStep(c, all, from, here, rest, before, out);
      out := out + r.value;
    }
    ProgressEnd(c, all, from, cursor.point, out);
    return Some(out);
  }

  /** Loop invariant of the walk: `out` is the output of all leaves but the rest. */
  predicate Progress(c: Config, all: seq<Place>, from: Point, rest: seq<Place>, point: Point, out: seq<string>)
    requires Ordered(c, all, from)
  {
    && Ordered(c, rest, point)
    && (NoneRefused(c, rest) <==> NoneRefused(c, all))
    && Output(c, all, from) == out + Output(c, rest, point)
    && CursorAfter(rest, point) == CursorAfter(all, from)
  }

  lemma ProgressEnd(c: Config, all: seq<Place>, from: Point, point: Point, out: seq<string>)
    requires Ordered(c, all, from) && Progress(c, all, from, [], point, out)
    ensures NoneRefused(c, all) && out == Output(c, all, from) && point == CursorAfter(all, from)
  {
    assert Output(c, [], point) == [];
  }

  lemma ProgressStep(c: Config, all: seq<Place>, from: Point, here: seq<Place>, rest: seq<Place>, point: Point,
    out: seq<string>)
    requires Ordered(c, all, from) && Progress(c, all, from, here + rest, point, out)
    requires Ordered(c, here, point) && NoneRefused(c, here)
    ensures Progress(c, all, from, rest, CursorAfter(here, point), out + Output(c, here, point))
  {
    OutputSplit(c, here, rest, point);
    NoneRefusedSplit(c, here, rest);
    Assoc(out, Output(c, here, point), Output(c, rest, CursorAfter(here, point)));
  }

  lemma NoneRefusedSplit(c: Config, a: seq<Place>, b: seq<Place>)
    ensures NoneRefused(c, a + b) <==> NoneRefused(c, a) && NoneRefused(c, b)
  {
    if NoneRefused(c, a + b) {
      assert forall i :: 0 <= i < |a| ==> (a + b)[i] == a[i];
      assert forall i :: 0 <= i < |b| ==> (a + b)[|a| + i] == b[i];
    }
  }

  /** The flag computed on the way down is the flag of the child's place. */
  lemma EnabledChild(rows: seq<string>, place: Place, i: nat)
    requires i < |place.Last().children|
    ensures Enabled(rows, place.Child(i))
        <==> (Enabled(rows, place) || IsTranslationObject(rows, place.path)) && !Blocked(place.Child(i), |place.path|)
  {
    var child := place.Child(i);
    var n := |place.path|;
    if n >= 5 {
      assert child.path[..5] == place.path[..5];
      assert n == 5 ==> place.path[..5] == place.path;
      forall k | 5 <= k < n ensures Blocked(child, k) == Blocked(place, k) {
      }
    }
  }

  function Setup(translation: string, isWord: char -> bool, words: seq<string>): Config {
    Config(Split(Encode(translation)), Decode, isWord, Table(words))
  }

  /** `hyphenate_translation`: hyphenation is lossless up to the end of the root node. */
  method HyphenateTranslation(translation: string, root: Node, isWord: char -> bool, words: seq<string>)
    returns (result: Option<string>)
    requires OnCharacter(Setup(translation, isWord, words), root.end)
    requires Ordered(Setup(translation, isWord, words), Leaves(Way([root], [])), ORIGIN)
    requires Before(CursorAfter(Leaves(Way([root], [])), ORIGIN), root.end)
    ensures result.Some? <==> NoneRefused(Setup(translation, isWord, words), Leaves(Way([root], [])))
    ensures result.Some? && (forall i :: 0 <= i < |words| ==> SHY !in words[i]) && SHY !in translation
            ==> OnCharacter(Setup(translation, isWord, words), ORIGIN)
                && Unhyphenated(result.value) == Text(Setup(translation, isWord, words), ORIGIN, root.end)
  {
    var c := Setup(translation, isWord, words);
    var top: Place := Way([root], []);
    Utf8Decodes();
    result := Walk(c, top, root.end);
    if result.Some? && (forall i :: 0 <= i < |words| ==> SHY !in words[i]) && SHY !in translation {
      TableIsSound(words);
      SetupIsPlain(translation, isWord, words);
      Lossless(c, Leaves(top), ORIGIN, root.end);
    }
  }

  lemma SetupIsPlain(translation: string, isWord: char -> bool, words: seq<string>)
    requires SHY !in translation
    ensures IsPlainText(Setup(translation, isWord, words))
  {
    JoinSplit(Encode(translation));
    DecodeEncode(translation);
  }

  /** The walk from the root, and the text behind the last leaf. */
  method Walk(c: Config, top: Place, end: Point) returns (result: Option<string>)
    requires Decodes(c.decode) && !Enabled(c.rows, top)
    requires OnCharacter(c, end) && Ordered(c, Leaves(top), ORIGIN) && Before(CursorAfter(Leaves(top), ORIGIN), end)
    ensures OnCharacter(c, CursorAfter(Leaves(top), ORIGIN))
    ensures result.Some? <==> NoneRefused(c, Leaves(top))
    ensures result.Some? ==>
      result.value == Concat(Output(c, Leaves(top), ORIGIN)) + Text(c, CursorAfter(Leaves(top), ORIGIN), end)
  {
    OrderedCursor(c, Leaves(top), ORIGIN);
    var cursor := new Cursor(ORIGIN);
    var output := ProcessNode(c, top, cursor, false);
    if output.None? {
      return None;
    }
    TextDecodes(c, cursor.point, end);
    var tail := GetText(c, cursor.point, end);
    return Some(Concat(output.value) + tail.value);
  }

  /** `''.join(parts)`. */
  function Concat(parts: seq<string>): string {
    if parts == [] then [] else parts[0] + Concat(parts[1..])
  }

  lemma {:induction false} ConcatAppend(a: seq<string>, b: seq<string>)
    ensures Concat(a + b) == Concat(a) + Concat(b)
  {
    if a == [] {
      assert a + b == b;
    } else {
      ConcatAppend(a[1..], b);
      assert (a + b)[1..] == a[1..] + b;
      Assoc(a[0], Concat(a[1..]), Concat(b));
    }
  }

  lemma {:induction false} OrderedCursor(c: Config, leaves: seq<Place>, from: Point)
    requires Ordered(c, leaves, from)
    ensures OnCharacter(c, from) && OnCharacter(c, CursorAfter(leaves, from)) && Before(from, CursorAfter(leaves, from))
  {
    if leaves != [] {
      OrderedCursor(c, leaves[1..], leaves[0].Last().end);
    }
  }

  lemma TextSpells(c: Config, p: Point, q: Point)
    requires Decodes(c.decode) && OnCharacter(c, p) && OnCharacter(c, q) && Before(p, q) && IsPlainText(c)
    ensures SHY !in Text(c, p, q) && Unhyphenated(Text(c, p, q)) == Text(c, p, q)
  {
    OffsetMonotone(c.rows, ORIGIN, q);
    var head, rest := Slice(c.rows, ORIGIN, q), Join(c.rows)[Offset(c.rows, q)..];
    assert Join(c.rows) == head + rest;
    assert c.decode(head + rest).value == c.decode(head).value + c.decode(rest).value;
    TextDecodes(c, p, q);
    UnhyphenatedPlain(Text(c, p, q));
  }

  lemma ConcatPair(x: string, y: string)
    ensures Concat([x, y]) == x + y
  {
    assert [x, y][1..] == [y];
    assert Concat([y]) == y + [];
  }

  lemma PairSpells(x: string, y: string, left: string, right: string)
    requires Unhyphenated(x) == left && Unhyphenated(y) == right
    ensures Unhyphenated(Concat([x, y])) == left + right
  {
    ConcatPair(x, y);
    UnhyphenatedConcat(x, y);
  }

  lemma PieceSpells(c: Config, leaf: Place, from: Point)
    requires Fits(c, leaf, from)
    requires Decodes(c.decode) && Sound(c.table) && IsPlainText(c)
    ensures Unhyphenated(Concat(Piece(c, leaf, from))) == Text(c, from, leaf.Last().end)
  {
    var node := leaf.Last();
    var gap, text := Text(c, from, node.start), Text(c, node.start, node.end);
    TextSpells(c, from, node.start);
    TextSpells(c, node.start, node.end);
    SubstitutedSpells(text, c.isWord, c.table);
    PairSpells(gap, if Selected(c.rows, leaf) then Substituted(text, c.isWord, c.table) else text, gap, text);
    TextSplit(c, from, node.start, node.end);
  }

  /** Deleting the soft hyphens from everything the walk wrote gives the source text back. */
  lemma {:induction false} OutputSpells(c: Config, leaves: seq<Place>, from: Point, end: Point)
    requires Ordered(c, leaves, from) && OnCharacter(c, end) && Before(CursorAfter(leaves, from), end)
    requires Decodes(c.decode) && Sound(c.table) && IsPlainText(c)
    ensures OnCharacter(c, from) && OnCharacter(c, CursorAfter(leaves, from)) && Before(from, end)
    ensures Unhyphenated(Concat(Output(c, leaves, from))) + Text(c, CursorAfter(leaves, from), end)
         == Text(c, from, end)
  {
    if leaves != [] {
      var next := leaves[0].Last().end;
      OutputSpells(c, leaves[1..], next, end);
      PieceSpells(c, leaves[0], from);
      SpellsJoined(Piece(c, leaves[0], from), Output(c, leaves[1..], next),
                   Text(c, from, next), Text(c, CursorAfter(leaves, from), end), Text(c, next, end));
      TextSplit(c, from, next, end);
    }
  }

  lemma SpellsJoined(piece: seq<string>, rest: seq<string>, left: string, tail: string, right: string)
    requires Unhyphenated(Concat(piece)) == left && Unhyphenated(Concat(rest)) + tail == right
    ensures Unhyphenated(Concat(piece + rest)) + tail == left + right
  {
    ConcatAppend(piece, rest);
    UnhyphenatedConcat(Concat(piece), Concat(rest));
    Assoc(left, Unhyphenated(Concat(rest)), tail);
  }

  lemma Lossless(c: Config, leaves: seq<Place>, from: Point, end: Point)
    requires Ordered(c, leaves, from) && OnCharacter(c, end) && Before(CursorAfter(leaves, from), end)
    requires Decodes(c.decode) && Sound(c.table) && IsPlainText(c)
    ensures OnCharacter(c, from) && OnCharacter(c, CursorAfter(leaves, from)) && Before(from, end)
    ensures Unhyphenated(Concat(Output(c, leaves, from)) + Text(c, CursorAfter(leaves, from), end))
         == Text(c, from, end)
  {
    OutputSpells(c, leaves, from, end);
    var tail := Text(c, CursorAfter(leaves, from), end);
    TextSpells(c, CursorAfter(leaves, from), end);
    UnhyphenatedConcat(Concat(Output(c, leaves, from)), tail);
  }

  /** When the root node ends at the end of the text, nothing at all is lost. */
  lemma WholeText(translation: string, isWord: char -> bool, words: seq<string>, end: Point)
    requires var rows := Split(Encode(translation)); end.row == |rows| - 1 && end.column == |rows[end.row]|
    ensures var c := Setup(translation, isWord, words);
      OnCharacter(c, ORIGIN) && OnCharacter(c, end) && Text(c, ORIGIN, end) == translation
  {
    var rows := Split(Encode(translation));
    JoinSplit(Encode(translation));
    WholeSlice(rows, end);
    DecodeEncode(translation);
  }

  lemma WholeSlice(rows: seq<string>, end: Point)
    requires end.row == |rows| - 1 && end.column == |rows[end.row]|
    ensures Slice(rows, ORIGIN, end) == Join(rows) && Slice(rows, ORIGIN, ORIGIN) == []
  {
    RowInText(rows, end.row);
  }
}
