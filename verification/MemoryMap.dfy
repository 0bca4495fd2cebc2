/** The guest memory map (src/runtime/ps2_memory_map.cpp): the value of a map,
    the partial byte memory it denotes, and the object that is written in place. */
module MemoryMap {
  import opened Words
  import opened Options
  import opened Elf

  const GUEST_ADDRESS_SPACE_SIZE: int := 0x1_0000_0000

  datatype Region = Region(guestBase: U32, size: U32, flags: U32) {
    function End(): int { guestBase as int + size }
  }

  /** A region and its bytes. */
  datatype Mapped = Mapped(metadata: Region, bytes: seq<U8>)

  type MapValue = seq<Mapped>

  /** Regions are non-empty, fit the address space, carry their bytes, and lie
      in ascending order without overlap. */
  predicate WellFormed(m: MapValue) {
    && (forall i :: 0 <= i < |m| ==>
          |m[i].bytes| == m[i].metadata.size && m[i].metadata.size > 0 &&
          m[i].metadata.End() <= GUEST_ADDRESS_SPACE_SIZE)
    && (forall i, j :: 0 <= i < j < |m| ==> m[i].metadata.End() <= m[j].metadata.guestBase)
  }

  predicate Holds(r: Region, from: int, to: int) {
    r.guestBase <= from && to <= r.End()
  }

  predicate AccessRangeFits(address: U32, length: nat) {
    length <= GUEST_ADDRESS_SPACE_SIZE && address + length <= GUEST_ADDRESS_SPACE_SIZE
  }

  /** The first region from i on that holds [from, to). */
  function FirstHolding(m: MapValue, from: int, to: int, i: nat): (r: Option<nat>)
    requires i <= |m|
    ensures r.Some? ==> i <= r.value < |m| && Holds(m[r.value].metadata, from, to)
    ensures r.None? ==> forall j :: i <= j < |m| ==> !Holds(m[j].metadata, from, to)
    decreases |m| - i
  {
    if i == |m| then None
    else if Holds(m[i].metadata, from, to) then Some(i)
    else FirstHolding(m, from, to, i + 1)
  }

  /** A window of a region's bytes. */
  datatype Span = Span(region: nat, offset: nat)

  function Translate(m: MapValue, address: U32, length: nat): Option<Span> {
    if !AccessRangeFits(address, length) then None
    else
      var r := FirstHolding(m, address, address + length, 0);
      if r.None? then None else Some(Span(r.value, address - m[r.value].metadata.guestBase))
  }

  /** The bytes an access of the given length sees. */
  function ReadBytes(m: MapValue, address: U32, length: nat): (r: Option<seq<U8>>)
    requires WellFormed(m)
    ensures r.Some? ==> |r.value| == length
  {
    var s := Translate(m, address, length);
    if s.None? then None
    else Some(m[s.value.region].bytes[s.value.offset..s.value.offset + length])
  }

  function ReadU32At(m: MapValue, address: U32): Option<U32>
    requires WellFormed(m)
  {
    var b := ReadBytes(m, address, 4);
    if b.None? then None else Some(LeU32(b.value))
  }

  function Overwrite(bytes: seq<U8>, at: nat, data: seq<U8>): (r: seq<U8>)
    requires at + |data| <= |bytes|
    ensures |r| == |bytes|
    ensures forall k :: 0 <= k < |bytes| ==> r[k] == if at <= k < at + |data| then data[k - at] else bytes[k]
  {
    bytes[..at] + data + bytes[at + |data|..]
  }

  /** The map after writing data at address; unchanged where the access fails. */
  function WriteBytes(m: MapValue, address: U32, data: seq<U8>): (r: MapValue)
    requires WellFormed(m)
    ensures WellFormed(r)
  {
    var s := Translate(m, address, |data|);
    if s.None? then m
    else
      var region := m[s.value.region];
      m[s.value.region := region.(bytes := Overwrite(region.bytes, s.value.offset, data))]
  }

  // ---------------------------------------------------------------- the flat memory a map denotes

  /** The byte at address a, if some region covers it. */
  function FlatByte(m: MapValue, a: int): Option<U8>
    requires WellFormed(m)
  {
    var r := FirstHolding(m, a, a + 1, 0);
    if r.None? then None else Some(m[r.value].bytes[a - m[r.value].metadata.guestBase])
  }

  /** No two regions cover a common byte. */
  lemma HolderUnique(m: MapValue, i: nat, j: nat, a: int, from: int, to: int, from': int, to': int)
    requires WellFormed(m) && i < |m| && j < |m|
    requires Holds(m[i].metadata, from, to) && Holds(m[j].metadata, from', to')
    requires from <= a < to && from' <= a < to'
    ensures i == j
  {
  }

  lemma FlatByteAt(m: MapValue, i: nat, a: int)
    requires WellFormed(m) && i < |m| && Holds(m[i].metadata, a, a + 1)
    ensures FlatByte(m, a) == Some(m[i].bytes[a - m[i].metadata.guestBase])
  {
    var r := FirstHolding(m, a, a + 1, 0);
    HolderUnique(m, i, r.value, a, a, a + 1, a, a + 1);
  }

  /** An access of n > 0 bytes succeeds exactly when one region holds the whole
      range, and that region is unique. */
  lemma TranslateIff(m: MapValue, address: U32, n: nat)
    requires WellFormed(m) && n > 0
    ensures Translate(m, address, n).Some? <==> exists i :: 0 <= i < |m| && Holds(m[i].metadata, address, address + n)
    ensures forall i, j | 0 <= i < |m| && 0 <= j < |m| ::
              Holds(m[i].metadata, address, address + n) && Holds(m[j].metadata, address, address + n) ==> i == j
  {
  }

  /** A successful read returns the flat memory's bytes. */
  lemma ReadRefinesFlat(m: MapValue, address: U32, n: nat)
    requires WellFormed(m) && ReadBytes(m, address, n).Some?
    ensures forall k :: 0 <= k < n ==> FlatByte(m, address + k) == Some(ReadBytes(m, address, n).value[k])
  {
    var s := Translate(m, address, n).value;
    forall k | 0 <= k < n
      ensures FlatByte(m, address + k) == Some(ReadBytes(m, address, n).value[k])
    {
      FlatByteAt(m, s.region, address + k);
    }
  }

  /** A byte is in the flat memory exactly when reading it succeeds, with that value. */
  lemma FlatByteIsRead(m: MapValue, a: U32)
    requires WellFormed(m)
    ensures var b := ReadBytes(m, a, 1); FlatByte(m, a) == if b.None? then None else Some(b.value[0])
  {
  }

  /** The write of data at address succeeds and covers byte a. */
  predicate Covers(m: MapValue, address: U32, data: seq<U8>, a: int) {
    Translate(m, address, |data|).Some? && address <= a < address + |data|
  }

  /** A write changes the flat memory in the written range only, and only if the
      access succeeds. */
  lemma WriteRefinesFlat(m: MapValue, address: U32, data: seq<U8>, a: int)
    requires WellFormed(m)
    ensures FlatByte(WriteBytes(m, address, data), a) ==
            if Covers(m, address, data, a) then Some(data[a - address]) else FlatByte(m, a)
  {
    SameRegions(m, address, data, a, a + 1);
    var s, r := Translate(m, address, |data|), FirstHolding(m, a, a + 1, 0);
    if Covers(m, address, data, a) && r.Some? {
      HolderUnique(m, s.value.region, r.value, a, address, address + |data|, a, a + 1);
    }
  }

  lemma SameRegions(m: MapValue, address: U32, data: seq<U8>, from: int, to: int)
    requires WellFormed(m)
    ensures var m' := WriteBytes(m, address, data);
            && |m'| == |m| && (forall i :: 0 <= i < |m| ==> m'[i].metadata == m[i].metadata)
            && FirstHolding(m', from, to, 0) == FirstHolding(m, from, to, 0)
  {
    SameMetadataSameHolder(m, WriteBytes(m, address, data), from, to, 0);
  }

  lemma {:induction false} SameMetadataSameHolder(m: MapValue, m': MapValue, from: int, to: int, i: nat)
    requires |m| == |m'| && i <= |m| && forall k :: 0 <= k < |m| ==> m[k].metadata == m'[k].metadata
    ensures FirstHolding(m', from, to, i) == FirstHolding(m, from, to, i)
    decreases |m| - i
  {
    if i < |m| {
      SameMetadataSameHolder(m, m', from, to, i + 1);
    }
  }

  lemma ReadAfterWriteAt(m: MapValue, address: U32, data: seq<U8>, at: U32, n: nat, k: nat)
    requires WellFormed(m) && k < n && ReadBytes(m, at, n).Some? && ReadBytes(WriteBytes(m, address, data), at, n).Some?
    ensures ReadBytes(WriteBytes(m, address, data), at, n).value[k] ==
            if Covers(m, address, data, at + k) then data[at + k - address] else ReadBytes(m, at, n).value[k]
  {
    hide FlatByte, WriteBytes, ReadBytes, WellFormed, Translate;
    ReadRefinesFlat(m, at, n);
    ReadRefinesFlat(WriteBytes(m, address, data), at, n);
    WriteRefinesFlat(m, address, data, at + k);
  }

  /** Reading after writing, at any widths and any overlap: the read succeeds as
      before, and sees the written bytes where the ranges meet. */
  lemma ReadAfterWrite(m: MapValue, address: U32, data: seq<U8>, at: U32, n: nat)
    requires WellFormed(m)
    ensures var before, after := ReadBytes(m, at, n), ReadBytes(WriteBytes(m, address, data), at, n);
            && (after.Some? <==> before.Some?)
            && (after.Some? ==> forall k :: 0 <= k < n ==>
                  after.value[k] ==
                  if Covers(m, address, data, at + k) then data[at + k - address] else before.value[k])
  {
    SameRegions(m, address, data, at, at + n);
    if ReadBytes(m, at, n).Some? {
      hide WriteBytes, ReadBytes, WellFormed, Covers;
      forall k | 0 <= k < n
        ensures ReadBytes(WriteBytes(m, address, data), at, n).value[k] ==
                if Covers(m, address, data, at + k) then data[at + k - address] else ReadBytes(m, at, n).value[k]
      {
        ReadAfterWriteAt(m, address, data, at, n, k);
      }
    }
  }

  /** A word just written is read back. */
  lemma WordRoundTrip(m: MapValue, address: U32, value: U32)
    requires WellFormed(m) && Translate(m, address, 4).Some?
    ensures ReadU32At(WriteBytes(m, address, LeBytes(value, 4)), address) == Some(value)
  {
    hide LeBytes, LeValue, Translate;
    var data := LeBytes(value, 4);
    ReadAfterWrite(m, address, data, address, 4);
    var r := ReadBytes(WriteBytes(m, address, data), address, 4);
    assert r.value == data;
    LeRoundTrip32(value);
  }

  // ---------------------------------------------------------------- building a map from an image

  datatype BuildError = AddressOverflow | OverlappingRegions | SegmentPayloadMismatch

  function SegmentRegion(s: LoadSegment): Region {
    Region(s.virtualAddress, s.memorySize, s.flags)
  }

  /** A region waiting to be mapped, with the payload of its segment. */
  datatype PendingRegion = PendingRegion(metadata: Region, fileBytes: seq<U8>)

  function SegmentPending(elf: ElfImage, i: nat): PendingRegion
    requires elf.Valid() && i < |elf.loadSegments|
  {
    PendingRegion(SegmentRegion(elf.loadSegments[i]), elf.SegmentFileBytes(i))
  }

  /** The regions of the first n segments, empty ones skipped. */
  function Pending(elf: ElfImage, n: nat): seq<PendingRegion>
    requires elf.Valid() && n <= |elf.loadSegments|
  {
    if n == 0 then []
    else if elf.loadSegments[n - 1].memorySize == 0 then Pending(elf, n - 1)
    else Pending(elf, n - 1) + [SegmentPending(elf, n - 1)]
  }

  /** The payload, then zeros up to the memory size. */
  function Materialize(p: PendingRegion): Mapped
    requires |p.fileBytes| <= p.metadata.size
  {
    Mapped(p.metadata, p.fileBytes + seq(p.metadata.size - |p.fileBytes|, _ => 0))
  }

  function MaterializeAll(s: seq<PendingRegion>): (m: MapValue)
    requires AllNonEmpty(s)
    ensures |m| == |s| && forall i :: 0 <= i < |m| ==> m[i].metadata == s[i].metadata
  {
    seq(|s|, i requires 0 <= i < |s| => assert s[i] in s; Materialize(s[i]))
  }

  predicate FitsAddressSpace(s: LoadSegment) {
    s.memorySize == 0 || s.virtualAddress + s.memorySize <= GUEST_ADDRESS_SPACE_SIZE
  }

  /** Both regions are empty, or no byte belongs to both. */
  predicate Apart(a: LoadSegment, b: LoadSegment) {
    a.memorySize == 0 || b.memorySize == 0 || SegmentRegion(a).End() <= b.virtualAddress ||
    SegmentRegion(b).End() <= a.virtualAddress
  }

  /** The property from_elf is to decide: all non-empty ranges fit in 2^32 and
      are pairwise disjoint. */
  predicate Mappable(elf: ElfImage) {
    && (forall s | s in elf.loadSegments :: FitsAddressSpace(s))
    && (forall i, j :: 0 <= i < j < |elf.loadSegments| ==> Apart(elf.loadSegments[i], elf.loadSegments[j]))
  }

  // sorting

  predicate SortedByBase(s: seq<PendingRegion>) {
    forall i, j :: 0 <= i < j < |s| ==> s[i].metadata.guestBase <= s[j].metadata.guestBase
  }

  predicate AllNonEmpty(s: seq<PendingRegion>) {
    forall m | m in s :: |m.fileBytes| <= m.metadata.size && m.metadata.size > 0 &&
      m.metadata.End() <= GUEST_ADDRESS_SPACE_SIZE
  }

  /** The scan from_elf performs after sorting. */
  predicate AdjacentApart(s: seq<PendingRegion>) {
    forall i :: 1 <= i < |s| ==> s[i - 1].metadata.End() <= s[i].metadata.guestBase
  }

  predicate RegionsApart(a: Region, b: Region) { a.End() <= b.guestBase || b.End() <= a.guestBase }

  predicate PairwiseApart(s: seq<PendingRegion>) {
    forall i, j :: 0 <= i < j < |s| ==> RegionsApart(s[i].metadata, s[j].metadata)
  }

  /** On non-empty regions sorted by base, comparing neighbours decides global
      disjointness. */
  lemma AdjacentDecidesGlobal(s: seq<PendingRegion>)
    requires SortedByBase(s) && AllNonEmpty(s)
    ensures AdjacentApart(s) <==> PairwiseApart(s)
    ensures AdjacentApart(s) ==> WellFormed(MaterializeAll(s))
  {
    if AdjacentApart(s) {
      forall i, j | 0 <= i < j < |s|
        ensures s[i].metadata.End() <= s[j].metadata.guestBase
      {
        assert s[i].metadata.End() <= s[i + 1].metadata.guestBase;
      }
    }
    if PairwiseApart(s) {
      forall i | 1 <= i < |s|
        ensures s[i - 1].metadata.End() <= s[i].metadata.guestBase
      {
        assert RegionsApart(s[i - 1].metadata, s[i].metadata);
        assert s[i] in s;
      }
    }
  }

  /** Pairwise disjointness is a property of the multiset of regions. */
  predicate ApartInBag(b: multiset<PendingRegion>) {
    && (forall x | x in b :: b[x] == 1)
    && (forall x, y | x in b && y in b && x != y :: RegionsApart(x.metadata, y.metadata))
  }

  lemma {:induction false} CountTwice(s: seq<PendingRegion>, i: nat, j: nat)
    requires i < j < |s| && s[i] == s[j]
    ensures multiset(s)[s[i]] >= 2
  {
    assert s == s[..j] + [s[j]] + s[j + 1..];
    assert s[..j][i] == s[i];
    assert s[i] in multiset(s[..j]);
  }

  lemma {:induction false} FindTwice(s: seq<PendingRegion>, x: PendingRegion)
    requires multiset(s)[x] >= 2
    ensures exists i, j :: 0 <= i < j < |s| && s[i] == s[j] == x
  {
    var last := |s| - 1;
    assert s == s[..last] + [s[last]];
    if s[last] == x {
      assert x in multiset(s[..last]);
      var i :| 0 <= i < last && s[..last][i] == x;
      assert s[i] == s[last] == x;
    } else {
      FindTwice(s[..last], x);
    }
  }

  lemma PairwiseIsBagProperty(s: seq<PendingRegion>)
    requires AllNonEmpty(s)
    ensures PairwiseApart(s) <==> ApartInBag(multiset(s))
  {
    var b := multiset(s);
    if PairwiseApart(s) {
      forall x | x in b
        ensures b[x] == 1
      {
        if b[x] >= 2 {
          FindTwice(s, x);
        }
      }
      forall x, y | x in b && y in b && x != y
        ensures RegionsApart(x.metadata, y.metadata)
      {
        var i, j :| 0 <= i < |s| && 0 <= j < |s| && s[i] == x && s[j] == y;
        assert i < j || j < i;
      }
    }
    if ApartInBag(b) {
      forall i, j | 0 <= i < j < |s|
        ensures RegionsApart(s[i].metadata, s[j].metadata)
      {
        if s[i] == s[j] {
          CountTwice(s, i, j);
        }
        assert s[i] in b && s[j] in b;
      }
    }
  }

  lemma {:induction false} PendingMembers(elf: ElfImage, n: nat, p: PendingRegion)
    requires elf.Valid() && n <= |elf.loadSegments|
    ensures p in Pending(elf, n) <==>
            exists i :: 0 <= i < n && elf.loadSegments[i].memorySize != 0 && p == SegmentPending(elf, i)
  {
    hide SegmentPending;
    if n > 0 {
      PendingMembers(elf, n - 1, p);
    }
  }

  /** The pending regions are pairwise disjoint exactly when the segments are. */
  lemma {:induction false} PendingApart(elf: ElfImage, n: nat)
    requires elf.Valid() && n <= |elf.loadSegments|
    ensures PairwiseApart(Pending(elf, n)) <==>
            forall i, j :: 0 <= i < j < n ==> Apart(elf.loadSegments[i], elf.loadSegments[j])
  {
    if n > 0 {
      PendingApart(elf, n - 1);
      var before, last := Pending(elf, n - 1), elf.loadSegments[n - 1];
      if last.memorySize != 0 {
        LastApart(elf, n - 1);
        PairwiseSnoc(before, SegmentPending(elf, n - 1));
      }
    }
  }

  lemma PairwiseSnoc(s: seq<PendingRegion>, x: PendingRegion)
    ensures PairwiseApart(s + [x]) <==>
            PairwiseApart(s) && forall k :: 0 <= k < |s| ==> RegionsApart(s[k].metadata, x.metadata)
  {
    var all := s + [x];
    if PairwiseApart(all) {
      forall i, j | 0 <= i < j < |s|
        ensures RegionsApart(s[i].metadata, s[j].metadata)
      {
        assert all[i] == s[i] && all[j] == s[j];
      }
      forall k | 0 <= k < |s|
        ensures RegionsApart(s[k].metadata, x.metadata)
      {
        assert all[k] == s[k] && all[|s|] == x;
      }
    }
  }

  lemma LastApart(elf: ElfImage, n: nat)
    requires elf.Valid() && n < |elf.loadSegments| && elf.loadSegments[n].memorySize != 0
    ensures (forall k :: 0 <= k < |Pending(elf, n)| ==>
               RegionsApart(Pending(elf, n)[k].metadata, SegmentRegion(elf.loadSegments[n]))) <==>
            forall i :: 0 <= i < n ==> Apart(elf.loadSegments[i], elf.loadSegments[n])
  {
    var before, last := Pending(elf, n), SegmentRegion(elf.loadSegments[n]);
    if forall i :: 0 <= i < n ==> Apart(elf.loadSegments[i], elf.loadSegments[n]) {
      forall k | 0 <= k < |before|
        ensures RegionsApart(before[k].metadata, last)
      {
        PendingMembers(elf, n, before[k]);
      }
    }
    if forall k :: 0 <= k < |before| ==> RegionsApart(before[k].metadata, last) {
      forall i | 0 <= i < n && elf.loadSegments[i].memorySize != 0
        ensures Apart(elf.loadSegments[i], elf.loadSegments[n])
      {
        PendingMembers(elf, n, SegmentPending(elf, i));
        var k :| 0 <= k < |before| && before[k] == SegmentPending(elf, i);
        assert RegionsApart(before[k].metadata, last);
      }
    }
  }
}
