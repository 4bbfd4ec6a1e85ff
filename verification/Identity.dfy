/** The identity burned into eFuse block 3: reading it (`block3_to_payload`) and generating it (the
    middle part of `handle_block3_fuses`) in provisioning/provision_common/provision_common.py, and
    the derived passphrase in provisioning/provision_common/wifi_pass.py. */
module Identity {
  import opened Bytes
  import opened Lines
  import opened Radix

  type Block = b: seq<Byte> | |b| == 32 witness Zeros(32)
  type Mac = m: seq<Byte> | |m| == 6 witness Zeros(6)

  /** The key derivation of libsodium, as an unknown function of the master key. */
  type Kdf = seq<Byte> -> seq<Byte>

  const LAST_BASE58_UID := 257899
  const SMALLEST_CHUNK := 195112
  const LARGEST_CHUNK := 11316495
  const GROUP_LIMIT := 11316496

  /** `last_base58_uid_num(False)` decides between the two encodings. */
  predicate UsesBase58(uidNum: nat) {
    uidNum <= LAST_BASE58_UID
  }

  // ---- Passphrases ----

  /** The 32 bytes the library leaves in the buffer that starts as zeros. */
  function Subkey(kdf: Kdf, key: seq<Byte>): (r: seq<Byte>)
    ensures |r| == 32
  {
    (kdf(key) + Zeros(32))[..32]
  }

  /** Block 3 with its reserved bytes taken from the MAC address. */
  function MasterKey(block: Block, mac: Mac): Block {
    block[0 := mac[3]][1 := mac[4]][23 := mac[5]]
  }

  /** `rjust(4, '1')`. */
  function Justified(s: string): string
    decreases 4 - |s|
  {
    if |s| >= 4 then s else Justified(['1'] + s)
  }

  function Group(sub: seq<Byte>, i: nat): string
    requires |sub| == 32 && i < 4
  {
    Justified(Encode(FromLE(sub[i * 8..i * 8 + 8]) % GROUP_LIMIT, Base58()))
  }

  function Dashed(a: string, b: string, c: string, d: string): string {
    a + "-" + b + "-" + c + "-" + d
  }

  function Derived(block: Block, mac: Mac, kdf: Kdf): string {
    var sub := Subkey(kdf, MasterKey(block, mac));
    Dashed(Group(sub, 0), Group(sub, 1), Group(sub, 2), Group(sub, 3))
  }

  /** The master key: the block with three bytes of the MAC address at 0, 1 and 23. */
  predicate IsKey(key: Block, block: Block, mac: Mac) {
    && key[0] == mac[3] && key[1] == mac[4] && key[23] == mac[5]
    && forall j | 0 <= j < 32 && j != 0 && j != 1 && j != 23 :: key[j] == block[j]
  }

  /** Four characters that spell eight bytes as a little-endian number, modulo the number of such
      groups. */
  predicate GroupSpells(group: string, bytes: seq<Byte>) {
    |group| == 4 && Decodable(group, Base58()) && Number(group, Base58()) == FromLE(bytes) % (58 * 58 * 58 * 58)
  }

  /** Four groups, joined by dashes, that spell the four quarters of the subkey in their order. */
  predicate PassphraseSpells(p: string, sub: seq<Byte>) {
    && |sub| == 32 && |p| == 19 && p[4] == '-' && p[9] == '-' && p[14] == '-'
    && GroupSpells(p[0..4], sub[0..8]) && GroupSpells(p[5..9], sub[8..16])
    && GroupSpells(p[10..14], sub[16..24]) && GroupSpells(p[15..19], sub[24..32])
  }

  /** `calculate_passphrase`. */
  method CalculatePassphrase(block: Block, mac: Mac, kdf: Kdf) returns (passphrase: string)
    ensures passphrase == Derived(block, mac, kdf)
    ensures forall key: Block | IsKey(key, block, mac) :: PassphraseSpells(passphrase, Subkey(kdf, key))
  {
    var masterKey := new Byte[32];
    for i := 0 to 32
      invariant masterKey[..i] == block[..i]
    {
      masterKey[i] := block[i];
    }
    masterKey[0] := mac[3];
    masterKey[1] := mac[4];
    masterKey[23] := mac[5];
    assert masterKey[..] == MasterKey(block, mac);
    var sub := Subkey(kdf, masterKey[..]);
    var text := "";
    for i := 0 to 4
      invariant i == 0 ==> text == ""
      invariant i == 1 ==> text == Group(sub, 0) + "-"
      invariant i == 2 ==> text == Group(sub, 0) + "-" + Group(sub, 1) + "-"
      invariant i == 3 ==> text == Group(sub, 0) + "-" + Group(sub, 1) + "-" + Group(sub, 2) + "-"
      invariant i == 4 ==> text == Dashed(Group(sub, 0), Group(sub, 1), Group(sub, 2), Group(sub, 3)) + "-"
    {
      var group := EncodeNumber(FromLE(sub[i * 8..i * 8 + 8]) % GROUP_LIMIT, Base58());
      text := text + Justified(group) + "-";
    }
    passphrase := text[..|text| - 1];
    DerivedSpells(block, mac, kdf);
  }

  /** The groups spell the subkey of the one key there is. */
  lemma {:induction false} DerivedSpells(block: Block, mac: Mac, kdf: Kdf)
    ensures forall key: Block | IsKey(key, block, mac) :: PassphraseSpells(Derived(block, mac, kdf), Subkey(kdf, key))
  {
    SubkeyIsSpelled(Subkey(kdf, MasterKey(block, mac)));
    forall key: Block | IsKey(key, block, mac) ensures key == MasterKey(block, mac) {
      OneKey(key, block, mac);
    }
  }

  lemma {:induction false} SubkeyIsSpelled(sub: seq<Byte>)
    requires |sub| == 32
    ensures PassphraseSpells(Dashed(Group(sub, 0), Group(sub, 1), Group(sub, 2), Group(sub, 3)), sub)
  {
    var a, b, c, d := Group(sub, 0), Group(sub, 1), Group(sub, 2), Group(sub, 3);
    GroupIsSpelled(sub, 0, sub[0..8]);
    GroupIsSpelled(sub, 1, sub[8..16]);
    GroupIsSpelled(sub, 2, sub[16..24]);
    GroupIsSpelled(sub, 3, sub[24..32]);
    DashedSpells(a, b, c, d, sub);
  }

  lemma OneKey(key: Block, block: Block, mac: Mac)
    requires IsKey(key, block, mac)
    ensures key == MasterKey(block, mac)
  {
  }

  lemma {:induction false} DashedSpells(a: string, b: string, c: string, d: string, sub: seq<Byte>)
    requires |sub| == 32 && GroupSpells(a, sub[0..8]) && GroupSpells(b, sub[8..16])
    requires GroupSpells(c, sub[16..24]) && GroupSpells(d, sub[24..32])
    ensures PassphraseSpells(Dashed(a, b, c, d), sub)
  {
    DashedParts(a, b, c, d);
  }

  lemma DashedParts(a: string, b: string, c: string, d: string)
    requires |a| == |b| == |c| == |d| == 4
    ensures var p := Dashed(a, b, c, d);
      && |p| == 19 && p[4] == '-' && p[9] == '-' && p[14] == '-'
      && p[0..4] == a && p[5..9] == b && p[10..14] == c && p[15..19] == d
  {
  }

  lemma ZeroIsOne()
    ensures Base58()[0] == '1'
  {
  }

  /** Justifying with the zero digit keeps the number. */
  lemma {:induction false} JustifiedNumber(s: string)
    requires |s| <= 4 && Decodable(s, Base58())
    ensures Decodable(Justified(s), Base58()) && Number(Justified(s), Base58()) == Number(s, Base58())
    decreases 4 - |s|
  {
    if |s| < 4 {
      ZeroIsOne();
      ZeroDigit(s, Base58());
      JustifiedNumber(['1'] + s);
    }
  }

  lemma {:induction false} GroupIsSpelled(sub: seq<Byte>, i: nat, quarter: seq<Byte>)
    requires |sub| == 32 && i < 4 && quarter == sub[i * 8..i * 8 + 8]
    ensures GroupSpells(Group(sub, i), quarter)
  {
    var v := FromLE(quarter) % GROUP_LIMIT;
    GroupLimit();
    GroupShape(sub, i);
    DecodeEncode(v, Base58());
    EncodeLength(v, Base58(), 4);
    JustifiedNumber(Encode(v, Base58()));
  }

  /** Four groups of four base58 characters joined by dashes: what the label printer accepts. */
  predicate IsGroup(s: string) {
    |s| == 4 && Decodable(s, Base58())
  }

  ghost predicate IsPassphrase(s: string) {
    exists a, b, c, d :: IsGroup(a) && IsGroup(b) && IsGroup(c) && IsGroup(d) && s == Dashed(a, b, c, d)
  }

  lemma {:induction false} JustifiedIsGroup(s: string)
    requires |s| <= 4 && Decodable(s, Base58())
    ensures IsGroup(Justified(s))
    decreases 4 - |s|
  {
    if |s| < 4 {
      assert Base58()[0] == '1';
      JustifiedIsGroup(['1'] + s);
    }
  }

  lemma GroupLimit()
    ensures Power(58, 4) == GROUP_LIMIT && Power(58, 3) == SMALLEST_CHUNK
  {
    assert Power(58, 1) == 58 * Power(58, 0);
    assert Power(58, 2) == 58 * Power(58, 1);
    assert Power(58, 3) == 58 * Power(58, 2);
  }

  lemma GroupShape(sub: seq<Byte>, i: nat)
    requires |sub| == 32 && i < 4
    ensures IsGroup(Group(sub, i))
  {
    var v := FromLE(sub[i * 8..i * 8 + 8]) % GROUP_LIMIT;
    GroupLimit();
    EncodeLength(v, Base58(), 4);
    DecodeEncode(v, Base58());
    JustifiedIsGroup(Encode(v, Base58()));
  }

  /** The derived passphrase always has the shape printed on labels. */
  lemma DerivedShape(block: Block, mac: Mac, kdf: Kdf)
    ensures IsPassphrase(Derived(block, mac, kdf))
  {
    var sub := Subkey(kdf, MasterKey(block, mac));
    GroupShape(sub, 0);
    GroupShape(sub, 1);
    GroupShape(sub, 2);
    GroupShape(sub, 3);
  }

  /** The derived passphrase does not depend on the reserved bytes 0, 1 and 23. */
  lemma DerivedIgnoresReserved(block: Block, other: Block, mac: Mac, kdf: Kdf)
    requires forall i :: 0 <= i < 32 && i !in {0, 1, 23} ==> block[i] == other[i]
    ensures Derived(block, mac, kdf) == Derived(other, mac, kdf)
  {
    assert MasterKey(block, mac) == MasterKey(other, mac);
  }

  // ---- The block ----

  /** What the random source delivers: four chunk numbers and 25 bytes. */
  datatype Material = Material(chunks: seq<nat>, head: seq<Byte>, tail: seq<Byte>) {
    predicate Valid() {
      && |chunks| == 4 && |head| == 21 && |tail| == 4
      && forall i :: 0 <= i < 4 ==> SMALLEST_CHUNK <= chunks[i] <= LARGEST_CHUNK
    }
  }

  function Chunk(m: Material, i: nat): (bs: seq<Byte>)
    requires m.Valid() && i < 4
    ensures |bs| == 3
  {
    ToLE(m.chunks[i], 3)
  }

  /** The 32 bytes burned for a UID. */
  function BlockFor(uidNum: nat, m: Material): Block
    requires m.Valid()
  {
    if UsesBase58(uidNum) then
      Zeros(7) + Chunk(m, 0) + Chunk(m, 1)[..2] + Zeros(8) + [Chunk(m, 1)[2]]
      + Chunk(m, 2)[..2] + [0] + [Chunk(m, 2)[2]] + Chunk(m, 3) + ToLE(uidNum, 4)
    else
      [0, 0] + m.head + [0] + m.tail + ToLE(uidNum, 4)
  }

  /** Where the block holds what: the UID in the last four bytes, up to 257899 the four chunks of
      the passphrase in the places left for them, above that the random bytes; all else is zero. */
  lemma {:induction false} BlockLayout(uidNum: nat, m: Material)
    requires m.Valid() && uidNum < 0x1_0000_0000
    ensures var b := BlockFor(uidNum, m);
      && FromLE(b[28..32]) == uidNum
      && (uidNum <= 257899 ==>
            && FromLE([b[7], b[8], b[9]]) == m.chunks[0] && FromLE([b[10], b[11], b[20]]) == m.chunks[1]
            && FromLE([b[21], b[22], b[24]]) == m.chunks[2] && FromLE([b[25], b[26], b[27]]) == m.chunks[3]
            && b[0..7] == Zeros(7) && b[12..20] == Zeros(8) && b[23] == 0)
      && (uidNum > 257899 ==> b[0] == 0 && b[1] == 0 && b[2..23] == m.head && b[23] == 0 && b[24..28] == m.tail)
  {
    UidBytes(uidNum, m);
    assert BlockFor(uidNum, m)[28..32] == BlockFor(uidNum, m)[28..];
    if UsesBase58(uidNum) {
      ChunkPlaces(uidNum, m);
      LimitFour();
      FromToLE(m.chunks[0], 3);
      FromToLE(m.chunks[1], 3);
      FromToLE(m.chunks[2], 3);
      FromToLE(m.chunks[3], 3);
    }
  }

  lemma ChunkPlaces(uidNum: nat, m: Material)
    requires m.Valid() && UsesBase58(uidNum)
    ensures var b := BlockFor(uidNum, m);
      && [b[7], b[8], b[9]] == Chunk(m, 0) && [b[10], b[11], b[20]] == Chunk(m, 1)
      && [b[21], b[22], b[24]] == Chunk(m, 2) && [b[25], b[26], b[27]] == Chunk(m, 3)
      && b[0..7] == Zeros(7) && b[12..20] == Zeros(8) && b[23] == 0
  {
  }

  function UidText(uidNum: nat): string {
    Encode(uidNum, if UsesBase58(uidNum) then Base58() else Zbase32())
  }

  /** The passphrase announced for a freshly generated block. */
  function NewPassphrase(uidNum: nat, m: Material, mac: Mac, kdf: Kdf): string
    requires m.Valid()
  {
    if UsesBase58(uidNum) then
      Dashed(Encode(m.chunks[0], Base58()), Encode(m.chunks[1], Base58()),
             Encode(m.chunks[2], Base58()), Encode(m.chunks[3], Base58()))
    else Derived(BlockFor(uidNum, m), mac, kdf)
  }

  /** The generating part of `handle_block3_fuses`, for a number that fits four bytes. */
  method GenerateBlock(uidNum: nat, m: Material, mac: Mac, kdf: Kdf)
    returns (block: Block, uid: string, passphrase: string)
    requires m.Valid() && uidNum < 0x1_0000_0000
    ensures block == BlockFor(uidNum, m)
    ensures uid == UidText(uidNum) && passphrase == NewPassphrase(uidNum, m, mac, kdf)
  {
    var alphabet := if UsesBase58(uidNum) then Base58() else Zbase32();
    uid := EncodeNumber(uidNum, alphabet);
    var decoded := DecodeNumber(uid, alphabet);
    DecodeEncode(uidNum, alphabet);
    var binary := StartBlock(decoded.value);
    if UsesBase58(uidNum) {
      var words := GenerateWords(m);
      StoreWords(binary, uidNum, m, words);
      passphrase := words[0] + "-" + words[1] + "-" + words[2] + "-" + words[3];
      block := binary[..];
    } else {
      StoreRandom(binary, uidNum, m);
      block := binary[..];
      passphrase := CalculatePassphrase(block, mac, kdf);
    }
  }

  /** `bytearray(32)` with the UID stored in its last four bytes. */
  method StartBlock(uidNum: nat) returns (binary: array<Byte>)
    ensures fresh(binary) && binary.Length == 32
    ensures binary[..28] == Zeros(28) && binary[28..] == ToLE(uidNum, 4)
  {
    binary := new Byte[32](_ => 0);
    assert binary[..] == Zeros(32);
    StoreSlice(binary, 28, ToLE(uidNum, 4));
    assert binary[..] == Zeros(32)[..28] + ToLE(uidNum, 4);
  }

  /** The scattered slice assignments of the base58 layout. */
  method StoreWords(binary: array<Byte>, uidNum: nat, m: Material, words: seq<string>)
    requires m.Valid() && UsesBase58(uidNum)
    requires |words| == 4 && forall i :: 0 <= i < 4 ==> words[i] == Encode(m.chunks[i], Base58())
    requires binary.Length == 32 && binary[..28] == Zeros(28) && binary[28..] == ToLE(uidNum, 4)
    modifies binary
    ensures binary[..] == BlockFor(uidNum, m)
  {
    var p0 := DecodeChunk(words[0], m.chunks[0]);
    var p1 := DecodeChunk(words[1], m.chunks[1]);
    var p2 := DecodeChunk(words[2], m.chunks[2]);
    var p3 := DecodeChunk(words[3], m.chunks[3]);
    ghost var b0 := binary[..];
    assert b0 == Zeros(28) + ToLE(uidNum, 4);
    StoreSlice(binary, 7, p0);
    StoreSlice(binary, 10, p1[..2]);
    binary[20] := p1[2];
    StoreSlice(binary, 21, p2[..2]);
    binary[24] := p2[2];
    StoreSlice(binary, 25, p3);
    ScatteredIsBlock(uidNum, m);
    assert binary[..] == Scattered(b0, p0, p1, p2, p3);
  }

  function Scattered(b: Block, p0: seq<Byte>, p1: seq<Byte>, p2: seq<Byte>, p3: seq<Byte>): Block
    requires |p0| == |p1| == |p2| == |p3| == 3
  {
    Spliced(Spliced(Spliced(Spliced(b, 7, p0), 10, p1[..2])[20 := p1[2]], 21, p2[..2])[24 := p2[2]], 25, p3)
  }

  lemma ScatteredIsBlock(uidNum: nat, m: Material)
    requires m.Valid() && UsesBase58(uidNum)
    ensures Scattered(Zeros(28) + ToLE(uidNum, 4), Chunk(m, 0), Chunk(m, 1), Chunk(m, 2), Chunk(m,
      3)) == BlockFor(uidNum, m)
  {
    var u, c0, c1, c2, c3 := ToLE(uidNum, 4), Chunk(m, 0), Chunk(m, 1), Chunk(m, 2), Chunk(m, 3);
    var s1 := Spliced(Zeros(28) + u, 7, c0);
    assert s1 == Zeros(7) + c0 + Zeros(18) + u;
    var s2 := Spliced(s1, 10, c1[..2]);
    var left := Zeros(7) + c0 + c1[..2];
    assert s2 == left + Zeros(16) + u;
    var s3 := s2[20 := c1[2]];
    var middle := left + Zeros(8) + [c1[2]];
    assert s3 == middle + Zeros(7) + u;
    var s4 := Spliced(s3, 21, c2[..2]);
    assert s4 == middle + c2[..2] + Zeros(5) + u;
    var s5 := s4[24 := c2[2]];
    var right := middle + c2[..2] + [0] + [c2[2]];
    assert s5 == right + Zeros(3) + u;
    assert Spliced(s5, 25, c3) == right + c3 + u;
  }

  /** The two random slices of the zbase32 layout. */
  method StoreRandom(binary: array<Byte>, uidNum: nat, m: Material)
    requires m.Valid() && !UsesBase58(uidNum)
    requires binary.Length == 32 && binary[..28] == Zeros(28) && binary[28..] == ToLE(uidNum, 4)
    modifies binary
    ensures binary[..] == BlockFor(uidNum, m)
  {
    ghost var b0 := binary[..];
    assert b0 == Zeros(28) + ToLE(uidNum, 4);
    StoreSlice(binary, 2, m.head);
    StoreSlice(binary, 24, m.tail);
    SplicedIsBlock(uidNum, m);
  }

  lemma SplicedIsBlock(uidNum: nat, m: Material)
    requires m.Valid() && !UsesBase58(uidNum)
    ensures Spliced(Spliced(Zeros(28) + ToLE(uidNum, 4), 2, m.head), 24, m.tail) == BlockFor(uidNum, m)
  {
  }

  function Spliced(b: seq<Byte>, at: nat, bs: seq<Byte>): (r: seq<Byte>)
    requires at + |bs| <= |b|
    ensures |r| == |b|
  {
    b[..at] + bs + b[at + |bs|..]
  }

  /** `binary[at:at + len(bs)] = bs`. */
  method StoreSlice(binary: array<Byte>, at: nat, bs: seq<Byte>)
    requires at + |bs| <= binary.Length
    modifies binary
    ensures binary[..] == Spliced(old(binary[..]), at, bs)
  {
    for i := 0 to |bs|
      invariant forall j :: 0 <= j < binary.Length ==>
        binary[j] == if at <= j < at + i then bs[j - at] else old(binary[j])
    {
      binary[at + i] := bs[i];
    }
  }

  method GenerateWords(m: Material) returns (words: seq<string>)
    requires m.Valid()
    ensures |words| == 4 && forall i :: 0 <= i < 4 ==> words[i] == Encode(m.chunks[i], Base58())
  {
    words := [];
    for i := 0 to 4
      invariant |words| == i && forall j :: 0 <= j < i ==> words[j] == Encode(m.chunks[j], Base58())
    {
      var word := EncodeNumber(m.chunks[i], Base58());
      words := words + [word];
    }
  }

  method DecodeChunk(word: string, chunk: nat) returns (bs: seq<Byte>)
    requires word == Encode(chunk, Base58())
    ensures bs == ToLE(chunk, 3)
  {
    DecodeEncode(chunk, Base58());
    var n := DecodeNumber(word, Base58());
    bs := ToLE(n.value, 3);
  }

  datatype Payload = Payload(passphrase: string, uid: string, passphraseEmpty: bool, uidEmpty: bool)

  /** The four passphrase chunks scattered over the block. */
  function ReadChunk(block: Block, i: nat): seq<Byte>
    requires i < 4
  {
    match i
    case 0 => block[7..10]
    case 1 => block[10..12] + [block[20]]
    case 2 => block[21..23] + [block[24]]
    case 3 => block[25..28]
  }

  function ReadWord(block: Block, i: nat): string
    requires i < 4
  {
    Encode(FromLE(ReadChunk(block, i)), Base58())
  }

  const EMPTY_PASSPHRASE := "1-1-1-1"

  /** `block3_to_payload`. */
  function PayloadOf(block: Block, mac: Mac, kdf: Kdf): Payload {
    var uidNum := FromLE(block[28..]);
    if UsesBase58(uidNum) then
      var passphrase := Dashed(ReadWord(block, 0), ReadWord(block, 1), ReadWord(block, 2), ReadWord(block, 3));
      var uid := Encode(uidNum, Base58());
      Payload(passphrase, uid, passphrase == EMPTY_PASSPHRASE, uid == "1")
    else
      var passphrase := Derived(block, mac, kdf);
      var uid := Encode(uidNum, Zbase32());
      Payload(passphrase, uid, passphrase == Derived(Zeros(32), mac, kdf), uid == "y")
  }

  /** `block3_to_payload`, with its list of byte chunks filled place by place. */
  method Block3ToPayload(block: Block, mac: Mac, kdf: Kdf) returns (p: Payload)
    ensures p == PayloadOf(block, mac, kdf)
  {
    var uidNum := FromLE(block[28..32]);
    assert block[28..32] == block[28..];
    if UsesBase58(uidNum) {
      var chunks: seq<seq<Byte>> := [[0, 0, 0], [0, 0, 0], [0, 0, 0], [0, 0, 0]];
      chunks := chunks[0 := block[7..10]];
      chunks := chunks[1 := block[10..12] + chunks[1][2..]];
      chunks := chunks[1 := chunks[1][2 := block[20]]];
      chunks := chunks[2 := block[21..23] + chunks[2][2..]];
      chunks := chunks[2 := chunks[2][2 := block[24]]];
      chunks := chunks[3 := block[25..28]];
      assert chunks[1] == ReadChunk(block, 1) && chunks[2] == ReadChunk(block, 2);
      var w0 := EncodeNumber(FromLE(chunks[0]), Base58());
      var w1 := EncodeNumber(FromLE(chunks[1]), Base58());
      var w2 := EncodeNumber(FromLE(chunks[2]), Base58());
      var w3 := EncodeNumber(FromLE(chunks[3]), Base58());
      var passphrase := w0 + "-" + w1 + "-" + w2 + "-" + w3;
      var uid := EncodeNumber(uidNum, Base58());
      p := Payload(passphrase, uid, passphrase == EMPTY_PASSPHRASE, uid == "1");
    } else {
      var uid := EncodeNumber(uidNum, Zbase32());
      var passphrase := CalculatePassphrase(block, mac, kdf);
      var emptyPassphrase := CalculatePassphrase(Zeros(32), mac, kdf);
      p := Payload(passphrase, uid, passphrase == emptyPassphrase, uid == "y");
    }
  }

  lemma LimitFour()
    ensures Limit(4) == 0x1_0000_0000 && Limit(3) == 0x100_0000
  {
    assert Limit(1) == 256 * Limit(0);
    assert Limit(2) == 256 * Limit(1);
    assert Limit(3) == 256 * Limit(2);
  }

  lemma UidBytes(uidNum: nat, m: Material)
    requires m.Valid() && uidNum < 0x1_0000_0000
    ensures FromLE(BlockFor(uidNum, m)[28..]) == uidNum
  {
    assert BlockFor(uidNum, m)[28..] == ToLE(uidNum, 4);
    LimitFour();
    FromToLE(uidNum, 4);
  }

  lemma ChunkBytes(uidNum: nat, m: Material, i: nat)
    requires m.Valid() && UsesBase58(uidNum) && i < 4
    ensures ReadChunk(BlockFor(uidNum, m), i) == Chunk(m, i)
    ensures FromLE(ReadChunk(BlockFor(uidNum, m), i)) == m.chunks[i]
  {
    LimitFour();
    FromToLE(m.chunks[i], 3);
  }

  lemma ZeroNumeral()
    ensures Encode(0, Base58()) == "1" && Encode(0, Zbase32()) == "y"
  {
  }

  /** A passphrase with at least two characters in its first group is not the empty one. */
  lemma NotEmptyPassphrase(a: string, b: string, c: string, d: string)
    requires |a| >= 2 && a[1] != '-'
    ensures Dashed(a, b, c, d) != EMPTY_PASSPHRASE
  {
    assert Dashed(a, b, c, d)[1] == a[1];
  }

  lemma ChunkIsGroup(v: nat)
    requires SMALLEST_CHUNK <= v <= LARGEST_CHUNK
    ensures IsGroup(Encode(v, Base58()))
  {
    GroupLimit();
    EncodeLength(v, Base58(), 4);
    EncodeLengthAtLeast(v, Base58(), 4);
    DecodeEncode(v, Base58());
  }

  lemma DashIsNoDigit()
    ensures '-' !in Base58()
  {
    forall i | 0 <= i < 58 ensures BASE58[i] != '-' {
      BRanks(i);
    }
  }

  /** Reading back a generated block picks the writer's encoding and gives the same UID and
      passphrase; it never looks blank, except for a derived passphrase that happens to equal
      the one of an all-zero block. */
  lemma ReadBack(uidNum: nat, m: Material, mac: Mac, kdf: Kdf)
    requires m.Valid() && 1 <= uidNum < 0x1_0000_0000
    ensures var p := PayloadOf(BlockFor(uidNum, m), mac, kdf);
      && p.uid == UidText(uidNum) && p.passphrase == NewPassphrase(uidNum, m, mac, kdf)
      && !p.uidEmpty
      && (p.passphraseEmpty <==>
        !UsesBase58(uidNum) && NewPassphrase(uidNum, m, mac, kdf) == Derived(Zeros(32), mac, kdf))
    ensures IsPassphrase(NewPassphrase(uidNum, m, mac, kdf))
  {
    UidBytes(uidNum, m);
    ZeroNumeral();
    if UsesBase58(uidNum) {
      ReadBackBase58(uidNum, m);
      if Encode(uidNum, Base58()) == "1" {
        EncodeInjective(uidNum, 0, Base58());
      }
    } else {
      DerivedShape(BlockFor(uidNum, m), mac, kdf);
      if Encode(uidNum, Zbase32()) == "y" {
        EncodeInjective(uidNum, 0, Zbase32());
      }
    }
  }

  lemma ReadBackBase58(uidNum: nat, m: Material)
    requires m.Valid() && UsesBase58(uidNum)
    ensures forall i :: 0 <= i < 4 ==> ReadWord(BlockFor(uidNum, m), i) == Encode(m.chunks[i], Base58())
    ensures forall i :: 0 <= i < 4 ==> IsGroup(Encode(m.chunks[i], Base58()))
    ensures Dashed(Encode(m.chunks[0], Base58()), Encode(m.chunks[1], Base58()),
                   Encode(m.chunks[2], Base58()), Encode(m.chunks[3], Base58())) != EMPTY_PASSPHRASE
  {
    forall i | 0 <= i < 4
      ensures ReadWord(BlockFor(uidNum, m), i) == Encode(m.chunks[i], Base58()) &&
        IsGroup(Encode(m.chunks[i], Base58()))
    {
      ChunkBytes(uidNum, m, i);
      ChunkIsGroup(m.chunks[i]);
    }
    DashIsNoDigit();
    NotEmptyPassphrase(Encode(m.chunks[0], Base58()), Encode(m.chunks[1], Base58()),
                       Encode(m.chunks[2], Base58()), Encode(m.chunks[3], Base58()));
  }

  /** The reserved bytes stay zero in both layouts. */
  lemma ReservedBytes(uidNum: nat, m: Material)
    requires m.Valid()
    ensures var b := BlockFor(uidNum, m); b[0] == b[1] == b[23] == 0
  {
  }
}
