/** The memory map object (src/runtime/ps2_memory_map.cpp): built by sorting and
    scanning the segments of an image, read by translation, written in place. */
module MemoryMapObject {
  import opened Words
  import opened Options
  import opened Elf
  import opened MemoryMap
  import opened Sorting

  function BaseKey(p: PendingRegion): seq<int> { [p.metadata.guestBase] }

  /** std::sort by guest base. */
  function SortByGuestBase(pending: seq<PendingRegion>): (sorted: seq<PendingRegion>)
    ensures SortedByBase(sorted) && multiset(sorted) == multiset(pending)
  {
    assert Uniform(BaseKey, 1);
    var sorted := Sort(BaseKey, 1, pending);
    SortedKeysAreSorted(sorted);
    sorted
  }

  lemma SortedKeysAreSorted(s: seq<PendingRegion>)
    requires Uniform(BaseKey, 1) && SortedBy(BaseKey, 1, s)
    ensures SortedByBase(s)
  {
    forall i, j | 0 <= i < j < |s|
      ensures s[i].metadata.guestBase <= s[j].metadata.guestBase
    {
      assert !LexLess(BaseKey(s[j]), BaseKey(s[i]));
    }
  }

  /** Zero-filled storage with the payload copied to its front. */
  method NewBytes(item: PendingRegion) returns (bytes: array<U8>)
    requires |item.fileBytes| <= item.metadata.size
    ensures fresh(bytes) && bytes[..] == Materialize(item).bytes
  {
    bytes := new U8[item.metadata.size](_ => 0);
    for k := 0 to |item.fileBytes|
      invariant forall j :: 0 <= j < bytes.Length ==> bytes[j] == if j < k then item.fileBytes[j] else 0
    {
      bytes[k] := item.fileBytes[k];
    }
  }

  /** The bytes of a region are an array that writes update. */
  datatype BackingRegion = BackingRegion(metadata: Region, bytes: array<U8>)

  class Ps2MemoryMap {
    var regions: seq<Region>
    var backing: seq<BackingRegion>
    ghost var Repr: set<object>

    /** Each region owns its own array. */
    ghost predicate Owned()
      reads this
    {
      && this in Repr
      && (forall i :: 0 <= i < |backing| ==> backing[i].bytes in Repr)
      && (forall i, j :: 0 <= i < j < |backing| ==> backing[i].bytes != backing[j].bytes)
    }

    ghost function Value(): (m: MapValue)
      requires Owned()
      reads this, Repr
      ensures |m| == |backing|
      ensures forall i :: 0 <= i < |m| ==> m[i] == Mapped(backing[i].metadata, backing[i].bytes[..])
    {
      seq(|backing|, i requires 0 <= i < |backing| && Owned() reads this, Repr =>
        Mapped(backing[i].metadata, backing[i].bytes[..]))
    }

    ghost predicate Valid()
      reads this, Repr
    {
      && Owned()
      && |regions| == |backing| && (forall i :: 0 <= i < |backing| ==> regions[i] == backing[i].metadata)
      && WellFormed(Value())
    }

    constructor FromSorted(sorted: seq<PendingRegion>)
      requires AllNonEmpty(sorted) && WellFormed(MaterializeAll(sorted))
      ensures Valid() && fresh(Repr) && Value() == MaterializeAll(sorted)
    {
      regions, backing := [], [];
      Repr := {this};
      new;
      for i := 0 to |sorted|
        invariant Owned() && fresh(Repr)
        invariant |regions| == |backing| == i
        invariant forall k :: 0 <= k < i ==> regions[k] == backing[k].metadata == sorted[k].metadata
        invariant forall k :: 0 <= k < i ==> backing[k].bytes[..] == MaterializeAll(sorted)[k].bytes
      {
        var item := sorted[i];
        assert item in sorted;
        var bytes := NewBytes(item);
        regions := regions + [item.metadata];
        backing := backing + [BackingRegion(item.metadata, bytes)];
        Repr := Repr + {bytes};
      }
      assert Value() == MaterializeAll(sorted);
    }

    /** translate: the window of an access, as region and offset. */
    method TranslateRange(address: U32, length: nat) returns (r: Option<Span>)
      requires Valid()
      ensures r == Translate(Value(), address, length)
    {
      if !AccessRangeFits(address, length) {
        return None;
      }
      for i := 0 to |backing|
        invariant FirstHolding(Value(), address, address + length, 0) ==
                  FirstHolding(Value(), address, address + length, i)
      {
        var region := backing[i].metadata;
        if Holds(region, address, address + length) {
          return Some(Span(i, address - region.guestBase));
        }
      }
      r := None;
    }

    method ReadU8(address: U32) returns (r: Option<U8>)
      requires Valid()
      ensures r == var b := ReadBytes(Value(), address, 1); if b.None? then None else Some(b.value[0])
    {
      var s := TranslateRange(address, 1);
      if s.None? {
        return None;
      }
      r := Some(backing[s.value.region].bytes[s.value.offset]);
    }

    method ReadU16(address: U32) returns (r: Option<U16>)
      requires Valid()
      ensures r == var b := ReadBytes(Value(), address, 2); if b.None? then None else Some(Le16(b.value))
    {
      var s := TranslateRange(address, 2);
      if s.None? {
        return None;
      }
      var bytes, at := backing[s.value.region].bytes, s.value.offset;
      OrOfTwoBytes(bytes[at], bytes[at + 1]);
      assert bytes[..][at..at + 2] == [bytes[at], bytes[at + 1]];
      r := Some(BitOr(bytes[at], Shl(bytes[at + 1], 8)));
    }

    method ReadU32(address: U32) returns (r: Option<U32>)
      requires Valid()
      ensures r == ReadU32At(Value(), address)
    {
      hide BitOr, Shl, LeValue;
      var s := TranslateRange(address, 4);
      if s.None? {
        return None;
      }
      var bytes, at := backing[s.value.region].bytes, s.value.offset;
      ghost var four := [bytes[at], bytes[at + 1], bytes[at + 2], bytes[at + 3]];
      OrOfFourBytes(bytes[at], bytes[at + 1], bytes[at + 2], bytes[at + 3]);
      assert bytes[..][at..at + 4] == four;
      assert LeU32(four) == LeValue(four);
      r := Some(BitOr(BitOr(BitOr(bytes[at], Shl(bytes[at + 1], 8)), Shl(bytes[at + 2], 16)), Shl(bytes[at + 3], 24)));
    }

    method WriteU8(address: U32, value: U8) returns (ok: bool)
      requires Valid()
      modifies Repr
      ensures Valid() && Repr == old(Repr)
      ensures ok == Translate(old(Value()), address, 1).Some?
      ensures Value() == WriteBytes(old(Value()), address, [value])
    {
      var s := TranslateRange(address, 1);
      if s.None? {
        return false;
      }
      SingleStore(Value(), address, value);
      StoreByte(s.value.region, s.value.offset, value);
      ok := true;
    }

    method WriteU16(address: U32, value: U16) returns (ok: bool)
      requires Valid()
      modifies Repr
      ensures Valid() && Repr == old(Repr)
      ensures ok == Translate(old(Value()), address, 2).Some?
      ensures Value() == WriteBytes(old(Value()), address, LeBytes(value, 2))
    {
      var s := TranslateRange(address, 2);
      if s.None? {
        return false;
      }
      TwoStores(Value(), address, value);
      StoreByte(s.value.region, s.value.offset, ByteAt(value, 0));
      StoreByte(s.value.region, s.value.offset + 1, ByteAt(value, 8));
      ok := true;
    }

    method WriteU32(address: U32, value: U32) returns (ok: bool)
      requires Valid()
      modifies Repr
      ensures Valid() && Repr == old(Repr)
      ensures ok == Translate(old(Value()), address, 4).Some?
      ensures Value() == WriteBytes(old(Value()), address, LeBytes(value, 4))
    {
      hide WellFormed, LeBytes, ByteAt;
      var s := TranslateRange(address, 4);
      if s.None? {
        return false;
      }
      FourStores(Value(), address, value);
      StoreByte(s.value.region, s.value.offset, ByteAt(value, 0));
      StoreByte(s.value.region, s.value.offset + 1, ByteAt(value, 8));
      StoreByte(s.value.region, s.value.offset + 2, ByteAt(value, 16));
      StoreByte(s.value.region, s.value.offset + 3, ByteAt(value, 24));
      ok := true;
    }

    /** One byte of one region. */
    method StoreByte(region: nat, offset: nat, value: U8)
      requires Valid() && region < |backing| && offset < backing[region].metadata.size
      modifies backing[region].bytes
      ensures Valid()
      ensures Value() == StoredByte(old(Value()), region, offset, value)
    {
      backing[region].bytes[offset] := value;
      assert Value() == StoredByte(old(Value()), region, offset, value);
    }
  }

  function StoredByte(m: MapValue, region: nat, offset: nat, value: U8): MapValue
    requires region < |m| && offset < |m[region].bytes|
  {
    m[region := m[region].(bytes := m[region].bytes[offset := value])]
  }

  lemma SingleStore(m: MapValue, address: U32, value: U8)
    requires WellFormed(m) && Translate(m, address, 1).Some?
    ensures var s := Translate(m, address, 1).value;
            WriteBytes(m, address, [value]) == StoredByte(m, s.region, s.offset, value)
  {
    var s := Translate(m, address, 1).value;
    var bytes := m[s.region].bytes;
    assert Overwrite(bytes, s.offset, [value]) == bytes[s.offset := value];
  }

  lemma TwoStores(m: MapValue, address: U32, value: U16)
    requires WellFormed(m) && Translate(m, address, 2).Some?
    ensures var s := Translate(m, address, 2).value;
            WriteBytes(m, address, LeBytes(value, 2)) ==
            StoredByte(StoredByte(m, s.region, s.offset, ByteAt(value, 0)), s.region, s.offset + 1, ByteAt(value, 8))
  {
    hide LeBytes, ByteAt;
    var s := Translate(m, address, 2).value;
    var bytes := m[s.region].bytes;
    LeBytesAt(value, 2, 0);
    LeBytesAt(value, 2, 1);
    var one: seq<U8> := bytes[s.offset := ByteAt(value, 0)];
    assert Overwrite(bytes, s.offset, LeBytes(value, 2)) == one[s.offset + 1 := ByteAt(value, 8)];
  }

  lemma FourStores(m: MapValue, address: U32, value: U32)
    requires WellFormed(m) && Translate(m, address, 4).Some?
    ensures var s := Translate(m, address, 4).value;
            var two := StoredByte(StoredByte(m, s.region, s.offset, ByteAt(value, 0)), s.region, s.offset + 1,
                                  ByteAt(value, 8));
            WriteBytes(m, address, LeBytes(value, 4)) ==
            StoredByte(StoredByte(two, s.region, s.offset + 2, ByteAt(value, 16)), s.region, s.offset + 3,
                       ByteAt(value, 24))
  {
    hide LeBytes, ByteAt;
    var s := Translate(m, address, 4).value;
    var bytes := m[s.region].bytes;
    LeBytesAt(value, 4, 0);
    LeBytesAt(value, 4, 1);
    LeBytesAt(value, 4, 2);
    LeBytesAt(value, 4, 3);
    var one: seq<U8> := bytes[s.offset := ByteAt(value, 0)];
    var two: seq<U8> := one[s.offset + 1 := ByteAt(value, 8)];
    var three: seq<U8> := two[s.offset + 2 := ByteAt(value, 16)];
    assert Overwrite(bytes, s.offset, LeBytes(value, 4)) == three[s.offset + 3 := ByteAt(value, 24)];
  }

  function Le16(b: seq<U8>): U16
    requires |b| == 2
  {
    assert b == [b[0], b[1]];
    OrOfTwoBytes(b[0], b[1]);
    LeValue(b)
  }

  // ---------------------------------------------------------------- from_elf

  datatype BuildResult = Built(memory: Ps2MemoryMap) | BuildFailed(error: BuildError)

  predicate AllFit(elf: ElfImage, n: nat)
    requires n <= |elf.loadSegments|
  {
    forall i :: 0 <= i < n ==> FitsAddressSpace(elf.loadSegments[i])
  }

  lemma PendingNonEmpty(elf: ElfImage, n: nat)
    requires elf.Valid() && n <= |elf.loadSegments| && AllFit(elf, n)
    ensures AllNonEmpty(Pending(elf, n))
  {
    forall p | p in Pending(elf, n)
      ensures |p.fileBytes| <= p.metadata.size && p.metadata.size > 0 && p.metadata.End() <= GUEST_ADDRESS_SPACE_SIZE
    {
      PendingMembers(elf, n, p);
      var i :| 0 <= i < n && elf.loadSegments[i].memorySize != 0 && p == SegmentPending(elf, i);
      assert elf.loadSegments[i] in elf.loadSegments;
    }
  }

  /** Ps2MemoryMap::from_elf: accepts exactly the mappable images, and then maps
      each non-empty segment once. A payload mismatch cannot occur. */
  method FromElf(elf: ElfImage) returns (result: BuildResult)
    requires elf.Valid()
    ensures result.Built? <==> Mappable(elf)
    ensures result.BuildFailed? ==>
              result.error == if AllFit(elf, |elf.loadSegments|) then OverlappingRegions else AddressOverflow
    ensures result.Built? ==>
              fresh(result.memory) && fresh(result.memory.Repr) && result.memory.Valid() &&
              IsMapOf(result.memory.Value(), elf)
  {
    hide Materialize, SegmentPending;
    var pending := [];
    for i := 0 to |elf.loadSegments|
      invariant pending == Pending(elf, i) && AllFit(elf, i)
    {
      var segment := elf.loadSegments[i];
      if segment.memorySize == 0 {
        continue;
      }
      if segment.virtualAddress + segment.memorySize > GUEST_ADDRESS_SPACE_SIZE {
        assert segment in elf.loadSegments && !FitsAddressSpace(segment);
        return BuildFailed(AddressOverflow);
      }
      if |elf.SegmentFileBytes(i)| != segment.fileSize {
        assert false;
      }
      pending := pending + [SegmentPending(elf, i)];
    }
    result := MapPending(elf, pending);
  }

  /** The scan of neighbours. */
  method ScanAdjacent(sorted: seq<PendingRegion>) returns (apart: bool)
    ensures apart <==> AdjacentApart(sorted)
  {
    var i := 1;
    while i < |sorted|
      invariant 1 <= i
      invariant forall k :: 1 <= k < i && k < |sorted| ==> sorted[k - 1].metadata.End() <= sorted[k].metadata.guestBase
    {
      if sorted[i].metadata.guestBase < sorted[i - 1].metadata.End() {
        return false;
      }
      i := i + 1;
    }
    apart := true;
  }

  lemma AdjacentIsWellFormed(sorted: seq<PendingRegion>)
    requires SortedByBase(sorted) && AllNonEmpty(sorted)
    ensures AdjacentApart(sorted) ==> WellFormed(MaterializeAll(sorted))
  {
    hide SortedByBase, AllNonEmpty, AdjacentApart, WellFormed, Materialize;
    AdjacentDecidesGlobal(sorted);
  }

  /** Sorting, the adjacent scan, and storage. */
  method MapPending(elf: ElfImage, pending: seq<PendingRegion>) returns (result: BuildResult)
    requires elf.Valid() && AllFit(elf, |elf.loadSegments|) && pending == Pending(elf, |elf.loadSegments|)
    ensures result.Built? <==> Mappable(elf)
    ensures result.BuildFailed? ==> result.error == OverlappingRegions
    ensures result.Built? ==>
              fresh(result.memory) && fresh(result.memory.Repr) && result.memory.Valid() &&
              IsMapOf(result.memory.Value(), elf)
  {
    hide Materialize, SegmentPending, Pending, WellFormed, AdjacentApart, Mappable, IsMapOf, SortedByBase;
    var sorted := SortByGuestBase(pending);
    SortingDecides(elf, sorted);
    AdjacentIsWellFormed(sorted);
    var apart := ScanAdjacent(sorted);
    if !apart {
      return BuildFailed(OverlappingRegions);
    }
    var memory := new Ps2MemoryMap.FromSorted(sorted);
    result := Built(memory);
  }

  /** m holds, in some order, one region per non-empty segment. */
  ghost predicate IsMapOf(m: MapValue, elf: ElfImage)
    requires elf.Valid()
  {
    WellFormed(m) &&
    exists sorted: seq<PendingRegion> :: AllNonEmpty(sorted) && m == MaterializeAll(sorted) &&
      multiset(sorted) == multiset(Pending(elf, |elf.loadSegments|))
  }

  /** After sorting, the adjacent scan decides whether the image is mappable. */
  lemma SortingDecides(elf: ElfImage, sorted: seq<PendingRegion>)
    requires elf.Valid() && AllFit(elf, |elf.loadSegments|)
    requires SortedByBase(sorted) && multiset(sorted) == multiset(Pending(elf, |elf.loadSegments|))
    ensures AdjacentApart(sorted) <==> Mappable(elf)
    ensures AllNonEmpty(sorted)
    ensures AdjacentApart(sorted) ==> IsMapOf(MaterializeAll(sorted), elf)
  {
    hide Materialize, SegmentPending, Pending, WellFormed, PairwiseApart, ApartInBag;
    var n := |elf.loadSegments|;
    var pending := Pending(elf, n);
    PendingNonEmpty(elf, n);
    SameBagSameMembers(sorted, pending);
    assert AllNonEmpty(sorted);
    AdjacentDecidesGlobal(sorted);
    PairwiseIsBagProperty(sorted);
    PairwiseIsBagProperty(pending);
    PendingApart(elf, n);
  }

  lemma SameBagSameMembers(s: seq<PendingRegion>, t: seq<PendingRegion>)
    requires multiset(s) == multiset(t)
    ensures forall p :: p in s <==> p in t
  {
    forall p
      ensures p in s <==> p in t
    {
      assert p in s <==> p in multiset(s);
      assert p in t <==> p in multiset(t);
    }
  }

  lemma SegmentIsMapped(m: MapValue, elf: ElfImage, i: nat) returns (r: nat)
    requires elf.Valid() && IsMapOf(m, elf) && i < |elf.loadSegments| && elf.loadSegments[i].memorySize != 0
    ensures |SegmentPending(elf, i).fileBytes| <= elf.loadSegments[i].memorySize
    ensures r < |m| && m[r] == Materialize(SegmentPending(elf, i))
  {
    hide WellFormed, Pending, SegmentPending;
    var sorted: seq<PendingRegion> :| AllNonEmpty(sorted) && m == MaterializeAll(sorted) &&
      multiset(sorted) == multiset(Pending(elf, |elf.loadSegments|));
    var p := SegmentPending(elf, i);
    PendingMembers(elf, |elf.loadSegments|, p);
    SameBagSameMembers(sorted, Pending(elf, |elf.loadSegments|));
    r :| 0 <= r < |sorted| && sorted[r] == p;
    PayloadFits(elf, i);
  }

  lemma PayloadFits(elf: ElfImage, i: nat)
    requires elf.Valid() && i < |elf.loadSegments|
    ensures |SegmentPending(elf, i).fileBytes| <= elf.loadSegments[i].memorySize
  {
    assert elf.loadSegments[i] in elf.loadSegments;
  }

  /** What the file says byte k of segment i is. */
  function ExpectedByte(elf: ElfImage, i: nat, k: nat): U8
    requires elf.Valid() && i < |elf.loadSegments| && k < elf.loadSegments[i].memorySize
  {
    var s := elf.loadSegments[i];
    assert s in elf.loadSegments;
    if k < s.fileSize then elf.bytes[s.fileOffset + k] else 0
  }

  /** End to end: in the map of an image, guest byte vaddr + k of every segment is
      file byte offset + k below the file size and zero from there to the memory
      size. */
  lemma MappedBytes(m: MapValue, elf: ElfImage, i: nat, k: nat)
    requires elf.Valid() && IsMapOf(m, elf) && i < |elf.loadSegments| && k < elf.loadSegments[i].memorySize
    ensures FlatByte(m, elf.loadSegments[i].virtualAddress + k) == Some(ExpectedByte(elf, i, k))
  {
    hide FirstHolding, FlatByte;
    var r := SegmentIsMapped(m, elf, i);
    assert elf.loadSegments[i] in elf.loadSegments;
    hide WellFormed, IsMapOf;
    FlatByteAt(m, r, elf.loadSegments[i].virtualAddress + k);
  }

  /** Every byte of the flat memory comes from some segment. */
  lemma MappedBytesOnly(m: MapValue, elf: ElfImage, a: int)
    requires elf.Valid() && IsMapOf(m, elf) && FlatByte(m, a).Some?
    ensures exists i :: 0 <= i < |elf.loadSegments| && elf.loadSegments[i].memorySize != 0 &&
                        Holds(SegmentRegion(elf.loadSegments[i]), a, a + 1)
  {
    var sorted: seq<PendingRegion> :| AllNonEmpty(sorted) && m == MaterializeAll(sorted) &&
      multiset(sorted) == multiset(Pending(elf, |elf.loadSegments|));
    var r := FirstHolding(m, a, a + 1, 0).value;
    SameBagSameMembers(sorted, Pending(elf, |elf.loadSegments|));
    assert sorted[r] in sorted;
    PendingMembers(elf, |elf.loadSegments|, sorted[r]);
  }

  lemma MapOfIsWellFormed(m: MapValue, elf: ElfImage)
    requires elf.Valid() && IsMapOf(m, elf)
    ensures WellFormed(m)
  {
    hide WellFormed;
  }

  lemma FlatByteInRange(m: MapValue, a: int)
    requires WellFormed(m) && FlatByte(m, a).Some?
    ensures 0 <= a < GUEST_ADDRESS_SPACE_SIZE
  {
  }

  /** From file to guest memory: for every byte string that parses and maps, reading
      guest byte vaddr + k succeeds, with the byte of the file or zero. */
  lemma ParsedFileIsMapped(file: seq<U8>, m: MapValue, i: nat, k: nat)
    requires Parse(file).Parsed? && IsMapOf(m, Parse(file).image)
    requires i < |Parse(file).image.loadSegments| && k < Parse(file).image.loadSegments[i].memorySize
    ensures var s := Parse(file).image.loadSegments[i];
            FlatByte(m, s.virtualAddress + k) == Some(ExpectedByte(Parse(file).image, i, k)) &&
            (k < s.fileSize ==> s.fileOffset + k < |file| &&
                                FlatByte(m, s.virtualAddress + k) == Some(file[s.fileOffset + k]))
    ensures var s := Parse(file).image.loadSegments[i];
            s.virtualAddress + k < GUEST_ADDRESS_SPACE_SIZE &&
            ReadBytes(m, s.virtualAddress + k, 1) == Some([if k < s.fileSize then file[s.fileOffset + k] else 0])
  {
    hide Parse, FlatByte, WellFormed, IsMapOf, ReadBytes;
    MapOfIsWellFormed(m, Parse(file).image);
    var image := Parse(file).image;
    var a := image.loadSegments[i].virtualAddress + k;
    assert image.loadSegments[i] in image.loadSegments;
    MappedBytes(m, image, i, k);
    FlatByteInRange(m, a);
    FlatByteIsRead(m, a);
    assert ReadBytes(m, a, 1).value == [ReadBytes(m, a, 1).value[0]];
  }
}
