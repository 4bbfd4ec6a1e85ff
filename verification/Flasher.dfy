/** Writing a firmware image to a Co-MCU Bricklet: the search for the magic number that ends
    the regular firmware, the plan of 64-byte packets, and what is in the flash afterwards. */
module Flasher {
  import opened Lines
  import opened Bytes

  const PACKET: nat := 64
  const PAGE: nat := 256

  // ---------------------------------------------------------------------------------------
  // The magic number

  predicate IsMagic(image: seq<Byte>, i: int) {
    4 <= i < |image| - 12 && image[i] == 0x12 && image[i - 1] == 0x34 && image[i - 2] == 0x56 && image[i - 3] == 0x78
  }

  /** The last place of the magic number; `None` stands for the failure to find it. */
  method FindMagic(image: seq<Byte>) returns (r: Option<nat>)
    ensures r.Some? <==> exists i: int :: IsMagic(image, i)
    ensures r.Some? ==> IsMagic(image, r.value) && forall i: int | IsMagic(image, i) :: i <= r.value
  {
    var i := |image| - 13;
    while i >= 4
      invariant forall j: int | IsMagic(image, j) :: j <= i
    {
      if image[i] == 0x12 && image[i - 1] == 0x34 && image[i - 2] == 0x56 && image[i - 3] == 0x78 {
        assert IsMagic(image, i);
        return Some(i);
      }
      assert !IsMagic(image, i);
      i := i - 1;
    }
    return None;
  }

  // ---------------------------------------------------------------------------------------
  // The plan

  function Range(from: nat, to: nat): (s: seq<nat>)
    ensures |s| == (if from <= to then to - from else 0) && forall i | 0 <= i < |s| :: s[i] == from + i
  {
    if from < to then seq(to - from, i requires 0 <= i => from + i) else []
  }

  predicate WritesAll(length: nat, upto: nat) {
    upto >= length - PACKET * 4
  }

  /** The packets up to the end of the page of the magic number. */
  function PacketsUpTo(upto: nat): nat {
    (upto / PAGE + 1) * 4
  }

  function Plan(length: nat, upto: nat): seq<nat> {
    var packets := length / PACKET;
    if WritesAll(length, upto) then Range(0, packets)
    else Range(0, PacketsUpTo(upto)) + Range(packets - 4, packets)
  }

  ghost predicate Increasing(plan: seq<nat>) {
    forall i, j | 0 <= i < j < |plan| :: plan[i] < plan[j]
  }

  /** For every length, the plan is increasing, so no packet is in it twice, exactly when the page
      of the magic number ends before the last four packets begin. */
  lemma PlanIncreasesExactly(length: nat, upto: nat)
    ensures Increasing(Plan(length, upto)) <==> WritesAll(length, upto) || PacketsUpTo(upto) + 4 <= length / PACKET
  {
    var plan, packets, m := Plan(length, upto), length / PACKET, PacketsUpTo(upto);
    if !WritesAll(length, upto) {
      var first, last := Range(0, m), Range(packets - 4, packets);
      assert plan == first + last;
      assert plan[m - 1] == first[m - 1] == m - 1;
      assert plan[m] == last[0] == packets - 4;
    }
  }

  /** Every packet of the plan lies within the image, whatever its length. */
  lemma PlanInRange(length: nat, upto: nat)
    ensures forall k | 0 <= k < |Plan(length, upto)| :: Plan(length, upto)[k] < length / PACKET
  {
    if !WritesAll(length, upto) {
      var m := upto / PAGE + 1;
      assert m * PAGE <= upto + PAGE < length;
      assert m * 4 <= length / PACKET;
    }
  }

  lemma PagesAndPackets(pages: nat, upto: nat)
    ensures PAGE * pages / PACKET == 4 * pages && PAGE * pages / PAGE == pages
    ensures upto < PAGE * (pages - 1) ==> PacketsUpTo(upto) <= 4 * (pages - 1)
  {
  }

  /** A length in whole pages is one for which this always holds. */
  lemma WholePagesIncrease(length: nat, upto: nat)
    requires length % PAGE == 0
    ensures Increasing(Plan(length, upto))
  {
    var pages := length / PAGE;
    PagesAndPackets(pages, upto);
    PlanIncreasesExactly(PAGE * pages, upto);
  }

  /** The first `n` packets of the plan cover the address. */
  ghost predicate CoveredBy(plan: seq<nat>, n: nat, address: nat) {
    exists k :: 0 <= k < n && k < |plan| && plan[k] == address / PACKET
  }

  /** The addresses that the plan covers. */
  ghost predicate Covered(length: nat, upto: nat, address: nat) {
    CoveredBy(Plan(length, upto), |Plan(length, upto)|, address)
  }

  /** The whole pages strictly between the one of the magic number and the last. */
  predicate Between(length: nat, upto: nat, address: nat) {
    upto / PAGE < address / PAGE < length / PAGE - 1
  }

  lemma CoveredMeans(length: nat, upto: nat, address: nat)
    requires length % PAGE == 0 && address < length && upto <= length
    ensures Covered(length, upto, address) <==> !Between(length, upto, address)
  {
    var plan, packets, m, p := Plan(length, upto), length / PACKET, PacketsUpTo(upto), address / PACKET;
    var pages := length / PAGE;
    assert packets == 4 * pages && p < packets && address / PAGE == p / 4;
    if WritesAll(length, upto) {
      assert plan[p] == p;
      assert upto >= PAGE * (pages - 1);
    } else {
      var first, last := Range(0, m), Range(packets - 4, packets);
      assert plan == first + last;
      if p < m {
        assert plan[p] == p;
      }
      if p >= packets - 4 {
        assert plan[m + (p - (packets - 4))] == p;
      }
    }
  }

  // ---------------------------------------------------------------------------------------
  // The flash

  /** A write request is done, or lost, or done with its answer lost. */
  datatype Request = Done | Lost | Unanswered

  /** The flash where the first `n` packets of the plan have been written. */
  ghost predicate Holds(flash: array<Byte>, was: seq<Byte>, image: seq<Byte>, plan: seq<nat>, n: nat)
    reads flash
    requires |image| <= flash.Length == |was|
  {
    forall a | 0 <= a < flash.Length ::
      flash[a] == if a < |image| && CoveredBy(plan, n, a) then image[a] else was[a]
  }

  method WritePacket(flash: array<Byte>, image: seq<Byte>, position: nat, request: Request) returns (ok: bool)
    requires (position + 1) * PACKET <= |image| <= flash.Length
    modifies flash
    ensures ok <==> request.Done?
    ensures forall a | 0 <= a < flash.Length ::
      flash[a] == if !request.Lost? && a / PACKET == position then image[a] else old(flash[a])
  {
    if !request.Lost? {
      for i := 0 to PACKET
        invariant forall a | 0 <= a < flash.Length ::
          flash[a] == if position * PACKET <= a < position * PACKET + i then image[a] else old(flash[a])
      {
        flash[position * PACKET + i] := image[position * PACKET + i];
      }
    }
    return request.Done?;
  }

  /** A packet gets a second chance. */
  method WriteTwice(flash: array<Byte>, image: seq<Byte>, position: nat, first: Request, second: Request)
    returns (ok: bool)
    requires (position + 1) * PACKET <= |image| <= flash.Length
    modifies flash
    ensures ok <==> first.Done? || second.Done?
    ensures forall a | 0 <= a < flash.Length && a / PACKET != position :: flash[a] == old(flash[a])
    ensures forall a | 0 <= a < flash.Length && a / PACKET == position ::
      flash[a] == image[a] || flash[a] == old(flash[a])
    ensures ok ==> forall a | 0 <= a < flash.Length && a / PACKET == position :: flash[a] == image[a]
  {
    ok := WritePacket(flash, image, position, first);
    if !ok {
      ok := WritePacket(flash, image, position, second);
    }
  }

  type Requests = nat -> (Request, Request)

  method WriteNext(flash: array<Byte>, ghost was: seq<Byte>, image: seq<Byte>, plan: seq<nat>, n: nat,
    requests: (Request, Request))
    returns (ok: bool)
    requires |image| <= flash.Length == |was| && Holds(flash, was, image, plan, n)
    requires n < |plan| && (plan[n] + 1) * PACKET <= |image|
    modifies flash
    ensures ok <==> requests.0.Done? || requests.1.Done?
    ensures ok ==> Holds(flash, was, image, plan, n + 1)
    ensures forall a | 0 <= a < flash.Length :: flash[a] == was[a] || (a < |image| && flash[a] == image[a])
  {
    ok := WriteTwice(flash, image, plan[n], requests.0, requests.1);
    forall a: nat ensures CoveredBy(plan, n + 1, a) <==> CoveredBy(plan, n, a) || a / PACKET == plan[n] {
    }
  }

  /** Succeeds exactly if every packet of the plan got through in one of its two chances; then
      the flash holds the image at all covered addresses and is unchanged elsewhere. */
  method WriteFirmware(flash: array<Byte>, image: seq<Byte>, upto: nat, requests: Requests) returns (ok: bool)
    requires |image| <= flash.Length
    modifies flash
    ensures ok <==> forall p | p in Plan(|image|, upto) :: requests(p).0.Done? || requests(p).1.Done?
    ensures ok ==> Holds(flash, old(flash[..]), image, Plan(|image|, upto), |Plan(|image|, upto)|)
    ensures forall a | 0 <= a < flash.Length :: flash[a] == old(flash[a]) || (a < |image| && flash[a] == image[a])
  {
    var plan := Plan(|image|, upto);
    PlanInRange(|image|, upto);
    ghost var was := flash[..];
    for n := 0 to |plan|
      invariant forall p | p in plan[..n] :: requests(p).0.Done? || requests(p).1.Done?
      invariant Holds(flash, was, image, plan, n)
    {
      assert plan[..n + 1] == plan[..n] + [plan[n]];
      var done := WriteNext(flash, was, image, plan, n, requests(plan[n]));
      if !done {
        return false;
      }
    }
    assert plan[..|plan|] == plan;
    return true;
  }

  /** The flash after an attempt: the image where the plan covers it. For images of whole pages
      this is all but the pages in between, so all of it where flash and image agreed there. */
  ghost predicate Written(was: seq<Byte>, now: seq<Byte>, image: seq<Byte>, upto: nat) {
    && |was| == |now| == |image|
    && (forall a | 0 <= a < |image| :: now[a] == if Covered(|image|, upto, a) then image[a] else was[a])
    && (|image| % PAGE == 0 ==> PagesWritten(was, now, image, upto))
  }

  ghost predicate PagesWritten(was: seq<Byte>, now: seq<Byte>, image: seq<Byte>, upto: nat)
    requires |was| == |now| == |image|
  {
    && (forall a | 0 <= a < |image| :: now[a] == if Between(|image|, upto, a) then was[a] else image[a])
    && ((forall a | 0 <= a < |image| && Between(|image|, upto, a) :: was[a] == image[a]) ==> now == image)
  }

  method Attempt(flash: array<Byte>, image: seq<Byte>, upto: nat, requests: Requests) returns (ok: bool)
    requires flash.Length == |image| && upto <= |image|
    modifies flash
    ensures ok ==> Written(old(flash[..]), flash[..], image, upto)
    ensures old(flash[..]) == image ==> flash[..] == image
  {
    ok := WriteFirmware(flash, image, upto, requests);
    if ok && |image| % PAGE == 0 {
      AttemptMeans(old(flash[..]), flash[..], image, upto);
    }
  }

  datatype Mode = NoAnswer | Answer(code: nat)

  predicate Accepts(m: Mode) {
    m == Answer(0) || m == Answer(2)
  }

  const CRC_MISMATCH := Answer(5)

  /** Flashing as a whole. After a first attempt that the bootloader accepts, the flash is the
      image where the plan for the last magic number covers it; after a checksum error and a
      second attempt it is the image throughout, if that consists of whole pages. */
  method WriteBrickletPlugin(flash: array<Byte>, image: seq<Byte>, first: Requests, answer: Mode, second: Requests,
    again: Mode) returns (ok: bool)
    requires flash.Length == |image|
    modifies flash
    ensures ok ==> exists i: int :: IsMagic(image, i)
    ensures ok ==> Accepts(answer) || (answer == CRC_MISMATCH && Accepts(again))
    ensures ok && !Accepts(answer) && |image| % PAGE == 0 ==> flash[..] == image
    ensures ok && Accepts(answer) ==> exists magic: nat ::
      IsMagic(image, magic) && (forall i: int | IsMagic(image, i) :: i <= magic) &&
      Written(old(flash[..]), flash[..], image, magic)
    ensures ok && old(flash[..]) == image ==> flash[..] == image
  {
    var magic := FindMagic(image);
    if magic.None? {
      return false;
    }
    var upto := magic.value;
    ok := Attempt(flash, image, upto, first);
    if !ok {
      return false;
    }
    if Accepts(answer) {
      return true;
    }
    if answer != CRC_MISMATCH {
      return false;
    }
    ok := Attempt(flash, image, |image|, second);
    assert forall a | 0 <= a < |image| :: !Between(|image|, |image|, a);
    ok := ok && Accepts(again);
  }

  /** A whole attempt on an image of whole pages. */
  lemma AttemptMeans(was: seq<Byte>, now: seq<Byte>, image: seq<Byte>, upto: nat)
    requires |was| == |now| == |image| && |image| % PAGE == 0 && upto <= |image|
    requires forall a | 0 <= a < |now| :: now[a] == if Covered(|image|, upto, a) then image[a] else was[a]
    ensures PagesWritten(was, now, image, upto)
  {
    forall a | 0 <= a < |image| ensures Covered(|image|, upto, a) <==> !Between(|image|, upto, a) {
      CoveredMeans(|image|, upto, a);
    }
  }
}
