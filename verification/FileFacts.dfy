/** From the raw bytes of a file to guest memory, without the loader's own functions:
    header fields, program headers and errors by byte offset (System V gABI, chapters 4
    and 5), and the bytes a guest then reads
    (src/recompiler/ps2_elf.cpp, src/runtime/ps2_memory_map.cpp). */
module FileFacts {
  import opened Words
  import opened Options
  import opened Elf
  import opened MemoryMap
  import opened MemoryMapObject

  // ---------------------------------------------------------------- raw fields

  /** The little-endian halfword and word at an offset of the file. */
  function HalfAt(file: seq<U8>, at: nat): U16
    requires at + 2 <= |file|
  {
    LeValueBound(file[at..at + 2]);
    Pow2Values();
    LeValue(file[at..at + 2])
  }

  function WordAt(file: seq<U8>, at: nat): U32
    requires at + 4 <= |file|
  {
    LeValueBound(file[at..at + 4]);
    Pow2Values();
    LeValue(file[at..at + 4])
  }

  lemma HalfIsRead(file: seq<U8>, at: nat)
    requires at + 2 <= |file|
    ensures ReadU16(file, at) == HalfAt(file, at)
  {
    assert file[at..at + 2] == [file[at], file[at + 1]];
    LeValueOfTwo(file[at], file[at + 1]);
  }

  lemma WordIsRead(file: seq<U8>, at: nat)
    requires at + 4 <= |file|
    ensures ReadU32(file, at) == WordAt(file, at)
  {
    hide LeValue;
  }

  /** The eleven header checks, by number. */
  predicate Check(file: seq<U8>, n: nat)
    requires n == 0 || |file| >= 52
  {
    match n
    case 0 => |file| >= 52
    case 1 => file[..4] == [0x7F, 0x45, 0x4C, 0x46]
    case 2 => file[4] == 1
    case 3 => file[5] == 1
    case 4 => file[6] == 1
    case 5 => HalfAt(file, 16) == 2
    case 6 => HalfAt(file, 18) == 8
    case 7 => WordAt(file, 20) == 1
    case 8 => HalfAt(file, 40) == 52
    case 9 => HalfAt(file, 42) == 32
    case 10 => WordAt(file, 28) + 32 * HalfAt(file, 44) <= |file|
    case _ => true
  }

  function CheckError(n: nat): ElfError
    requires n < 11
  {
    [TooSmall, BadMagic, UnsupportedClass, UnsupportedEndian, UnsupportedIdentVersion, UnsupportedType,
     UnsupportedMachine, UnsupportedVersion, InvalidHeaderSize, InvalidProgramHeaderSize,
     ProgramHeaderTableOutOfBounds][n]
  }

  predicate HeaderPasses(file: seq<U8>) {
    |file| >= 52 && forall n :: 0 <= n < 11 ==> Check(file, n)
  }

  predicate FirstFailing(file: seq<U8>, n: nat) {
    && n < 11 && (|file| < 52 ==> n == 0) && !Check(file, n)
    && forall k :: 0 <= k < n ==> |file| >= 52 && Check(file, k)
  }

  lemma MagicBytes(file: seq<U8>)
    requires |file| >= 52
    ensures file[..4] == [0x7F, 0x45, 0x4C, 0x46] <==>
            file[0] == 0x7F && file[1] == 0x45 && file[2] == 0x4C && file[3] == 0x46
  {
    assert file[..4] == [file[0], file[1], file[2], file[3]];
    assert file[0] == file[..4][0] && file[1] == file[..4][1] && file[2] == file[..4][2] && file[3] == file[..4][3];
  }

  lemma HeaderReads(file: seq<U8>)
    requires |file| >= 52
    ensures ReadU16(file, 16) == HalfAt(file, 16) && ReadU16(file, 18) == HalfAt(file, 18)
    ensures ReadU16(file, 40) == HalfAt(file, 40) && ReadU16(file, 42) == HalfAt(file, 42)
    ensures ReadU16(file, 44) == HalfAt(file, 44) && ReadU32(file, 20) == WordAt(file, 20)
    ensures ReadU32(file, 24) == WordAt(file, 24) && ReadU32(file, 28) == WordAt(file, 28)
  {
    hide ReadU16, ReadU32, HalfAt, WordAt;
    HalfIsRead(file, 16);
    HalfIsRead(file, 18);
    HalfIsRead(file, 40);
    HalfIsRead(file, 42);
    HalfIsRead(file, 44);
    WordIsRead(file, 20);
    WordIsRead(file, 24);
    WordIsRead(file, 28);
  }

  /** The header error is that of the first failing check. */
  lemma HeaderErrorIsFirstFailing(file: seq<U8>, n: nat)
    requires FirstFailing(file, n)
    ensures HeaderError(file) == Some(CheckError(n))
  {
    hide ReadU16, ReadU32, HalfAt, WordAt;
    if n > 0 {
      assert Check(file, 0);
    }
    if |file| >= 52 {
      HeaderReads(file);
      MagicBytes(file);
      assert n > 1 ==> Check(file, 1);
      assert n > 2 ==> Check(file, 2);
      assert n > 3 ==> Check(file, 3);
      assert n > 4 ==> Check(file, 4);
      assert n > 5 ==> Check(file, 5);
      assert n > 6 ==> Check(file, 6);
      assert n > 7 ==> Check(file, 7);
      assert n > 8 ==> Check(file, 8);
      assert n > 9 ==> Check(file, 9);
    }
  }

  lemma HeaderPassesIff(file: seq<U8>)
    ensures HeaderError(file).None? <==> HeaderPasses(file)
  {
    hide ReadU16, ReadU32, HalfAt, WordAt;
    if |file| >= 52 {
      HeaderReads(file);
      MagicBytes(file);
    }
    if HeaderPasses(file) {
      assert Check(file, 1) && Check(file, 2) && Check(file, 3) && Check(file, 4) && Check(file, 5) && Check(file, 6);
      assert Check(file, 7) && Check(file, 8) && Check(file, 9) && Check(file, 10);
    }
  }

  // ---------------------------------------------------------------- program headers

  /** The offset of program header i; the header lies in the file. */
  function HeaderAt(file: seq<U8>, i: nat): (base: nat)
    requires HeaderPasses(file) && i < HalfAt(file, 44)
    ensures base + 32 <= |file|
  {
    assert Check(file, 10);
    WordAt(file, 28) + 32 * i
  }

  predicate IsLoadEntry(file: seq<U8>, i: nat)
    requires HeaderPasses(file) && i < HalfAt(file, 44)
  {
    WordAt(file, HeaderAt(file, i)) == 1
  }

  /** p_offset, p_vaddr, p_filesz, p_memsz and p_flags of entry i. */
  function FileOffset(file: seq<U8>, i: nat): U32
    requires HeaderPasses(file) && i < HalfAt(file, 44)
  {
    WordAt(file, HeaderAt(file, i) + 4)
  }

  function VirtualAddress(file: seq<U8>, i: nat): U32
    requires HeaderPasses(file) && i < HalfAt(file, 44)
  {
    WordAt(file, HeaderAt(file, i) + 8)
  }

  function FileSize(file: seq<U8>, i: nat): U32
    requires HeaderPasses(file) && i < HalfAt(file, 44)
  {
    WordAt(file, HeaderAt(file, i) + 16)
  }

  function MemorySize(file: seq<U8>, i: nat): U32
    requires HeaderPasses(file) && i < HalfAt(file, 44)
  {
    WordAt(file, HeaderAt(file, i) + 20)
  }

  function Flags(file: seq<U8>, i: nat): U32
    requires HeaderPasses(file) && i < HalfAt(file, 44)
  {
    WordAt(file, HeaderAt(file, i) + 24)
  }

  lemma EntryReads(file: seq<U8>, i: nat)
    requires HeaderPasses(file) && i < HalfAt(file, 44)
    ensures ReadU16(file, 44) == HalfAt(file, 44)
    ensures TableFits(file, ReadU32(file, 28), ReadU16(file, 44)) && TableFits(file, ReadU32(file, 28), i + 1)
    ensures IsLoad(file, ReadU32(file, 28), i) <==> IsLoadEntry(file, i)
    ensures var base := HeaderAt(file, i);
            SegmentAt(file, ReadU32(file, 28), i) ==
            LoadSegment(FileOffset(file, i), VirtualAddress(file, i), WordAt(file, base + 12), FileSize(file, i),
                        MemorySize(file, i), Flags(file, i), WordAt(file, base + 28))
  {
    hide ReadU16, ReadU32, HalfAt, WordAt;
    var base := HeaderAt(file, i);
    HeaderReads(file);
    WordIsRead(file, base);
    WordIsRead(file, base + 4);
    WordIsRead(file, base + 8);
    WordIsRead(file, base + 12);
    WordIsRead(file, base + 16);
    WordIsRead(file, base + 20);
    WordIsRead(file, base + 24);
    WordIsRead(file, base + 28);
    assert Check(file, 10);
  }

  /** A PT_LOAD entry is acceptable: no smaller in memory than in the file, and with its
      payload inside the file. */
  predicate EntryAcceptable(file: seq<U8>, i: nat)
    requires HeaderPasses(file) && i < HalfAt(file, 44)
  {
    IsLoadEntry(file, i) ==>
      FileSize(file, i) <= MemorySize(file, i) && FileOffset(file, i) + FileSize(file, i) <= |file|
  }

  lemma EntryOkIff(file: seq<U8>, i: nat)
    requires HeaderPasses(file) && i < HalfAt(file, 44)
    ensures TableFits(file, ReadU32(file, 28), i + 1)
    ensures EntryOk(file, ReadU32(file, 28), i) <==> EntryAcceptable(file, i)
  {
    hide ReadU16, ReadU32, HalfAt, WordAt, HeaderAt, HeaderPasses, SegmentAt, IsLoad, IsLoadEntry;
    EntryReads(file, i);
  }

  /** A file parses exactly when its header passes all checks and every entry is
      acceptable; the image then has the file's entry point and bytes. */
  lemma ParsesIff(file: seq<U8>)
    ensures Parse(file).Parsed? <==>
            HeaderPasses(file) && forall i :: 0 <= i < HalfAt(file, 44) ==> EntryAcceptable(file, i)
    ensures Parse(file).Parsed? ==>
              && Parse(file).image.entryPoint == WordAt(file, 24) && Parse(file).image.bytes == file
              && Parse(file).image.programHeaderCount == HalfAt(file, 44)
  {
    hide LoadSegments, EntryOk, SegmentAt, IsLoad, ReadU16, ReadU32, HalfAt, WordAt, HeaderAt, HeaderPasses,
      EntryAcceptable, HeaderError, CountLoads;
    HeaderPassesIff(file);
    ParseMeaning(file);
    if HeaderError(file).None? {
      HeaderIsLong(file);
      HeaderReads(file);
      forall i | 0 <= i < HalfAt(file, 44)
        ensures TableFits(file, ReadU32(file, 28), i + 1)
        ensures EntryOk(file, ReadU32(file, 28), i) <==> EntryAcceptable(file, i)
      {
        EntryOkIff(file, i);
      }
    }
  }

  lemma HeaderIsLong(file: seq<U8>)
    requires HeaderPasses(file)
    ensures |file| >= 52
  {
  }

  /** What fails to parse: the first failing header check, or the first unacceptable
      entry, decides the error. */
  lemma ParseErrors(file: seq<U8>, n: nat)
    ensures FirstFailing(file, n) ==> Parse(file) == ParseFailed(CheckError(n))
    ensures HeaderPasses(file) && n < HalfAt(file, 44) && !EntryAcceptable(file, n) &&
            (forall i :: 0 <= i < n ==> EntryAcceptable(file, i)) ==>
              Parse(file) == ParseFailed(if MemorySize(file, n) < FileSize(file, n) then SegmentMemoryTooSmall
                                         else SegmentOutOfBounds)
  {
    hide LoadSegments, EntryOk, SegmentAt, IsLoad, ReadU16, ReadU32, HalfAt, WordAt, HeaderAt, HeaderPasses,
      EntryAcceptable, HeaderError, CountLoads, FirstFailing;
    if FirstFailing(file, n) {
      HeaderErrorIsFirstFailing(file, n);
    }
    if HeaderPasses(file) {
      HeaderIsLong(file);
      HeaderPassesIff(file);
      if n < HalfAt(file, 44) && !EntryAcceptable(file, n) && forall i :: 0 <= i < n ==> EntryAcceptable(file, i) {
        FirstBadEntry(file, n);
      }
    }
  }

  lemma FirstBadEntry(file: seq<U8>, n: nat)
    requires HeaderPasses(file) && n < HalfAt(file, 44) && !EntryAcceptable(file, n)
    requires forall i :: 0 <= i < n ==> EntryAcceptable(file, i)
    ensures TableFits(file, ReadU32(file, 28), ReadU16(file, 44))
    ensures LoadSegments(file, ReadU32(file, 28), ReadU16(file, 44)) ==
            BadSegment(if MemorySize(file, n) < FileSize(file, n) then SegmentMemoryTooSmall else SegmentOutOfBounds)
  {
    hide EntryOk, SegmentAt, IsLoad, ReadU16, ReadU32, HalfAt, WordAt, HeaderAt, HeaderPasses, CountLoads;
    HeaderIsLong(file);
    var table := ReadU32(file, 28);
    EntryReads(file, n);
    forall i | 0 <= i < n
      ensures TableFits(file, table, i + 1) && EntryOk(file, table, i)
    {
      EntryOkIff(file, i);
    }
    ScanSucceedsIff(file, table, n);
    StopsAtFirstBad(file, table, n + 1, ReadU16(file, 44));
  }

  // ---------------------------------------------------------------- what the guest reads

  /** The segment of the image for PT_LOAD entry i. */
  lemma SegmentOfEntry(file: seq<U8>, i: nat) returns (c: nat)
    requires Parse(file).Parsed? && HeaderPasses(file) && i < HalfAt(file, 44) && IsLoadEntry(file, i)
    ensures c < |Parse(file).image.loadSegments|
    ensures var s := Parse(file).image.loadSegments[c];
            && s.fileOffset == FileOffset(file, i) && s.virtualAddress == VirtualAddress(file, i)
            && s.fileSize == FileSize(file, i) && s.memorySize == MemorySize(file, i) && s.flags == Flags(file, i)
  {
    hide LoadSegments, EntryOk, SegmentAt, IsLoad, ReadU16, ReadU32, HalfAt, WordAt, HeaderAt, HeaderPasses,
      IsLoadEntry, HeaderError, CountLoads;
    ParseMeaning(file);
    EntryReads(file, i);
    c := CountLoads(file, ReadU32(file, 28), i);
  }

  /** From file to guest: for every PT_LOAD entry of a file that parses and maps, reading
      guest byte p_vaddr + k gives byte p_offset + k of the file below p_filesz, and zero
      from there to p_memsz; the region there has exactly the entry's range and flags. */
  lemma GuestReadsFile(file: seq<U8>, m: MapValue, i: nat, k: nat)
    requires Parse(file).Parsed? && IsMapOf(m, Parse(file).image)
    requires HeaderPasses(file) && i < HalfAt(file, 44) && IsLoadEntry(file, i) && k < MemorySize(file, i)
    ensures WellFormed(m) && VirtualAddress(file, i) + k < 0x1_0000_0000
    ensures k < FileSize(file, i) ==> FileOffset(file, i) + k < |file|
    ensures var a := VirtualAddress(file, i) + k;
            && ReadBytes(m, a, 1) == Some([if k < FileSize(file, i) then file[FileOffset(file, i) + k] else 0])
            && Translate(m, a, 1).Some?
            && m[Translate(m, a, 1).value.region].metadata ==
               Region(VirtualAddress(file, i), MemorySize(file, i), Flags(file, i))
  {
    hide Parse, IsMapOf, WellFormed, HalfAt, WordAt, HeaderAt, HeaderPasses, IsLoadEntry, FileOffset, VirtualAddress,
      FileSize, MemorySize, Flags, FirstHolding, ReadBytes, FlatByte, ExpectedByte, Translate,
      ElfImage.Valid, InSegment;
    var c := SegmentOfEntry(file, i);
    GuestReadsSegment(file, m, c, k);
  }

  lemma GuestReadsSegment(file: seq<U8>, m: MapValue, c: nat, k: nat)
    requires Parse(file).Parsed? && IsMapOf(m, Parse(file).image)
    requires c < |Parse(file).image.loadSegments| && k < Parse(file).image.loadSegments[c].memorySize
    ensures WellFormed(m)
    ensures var s := Parse(file).image.loadSegments[c];
            && s.virtualAddress + k < 0x1_0000_0000 && (k < s.fileSize ==> s.fileOffset + k < |file|)
            && ReadBytes(m, s.virtualAddress + k, 1) == Some([if k < s.fileSize then file[s.fileOffset + k] else 0])
            && var t := Translate(m, s.virtualAddress + k, 1);
               t.Some? && m[t.value.region].metadata == Region(s.virtualAddress, s.memorySize, s.flags)
  {
    hide Parse, IsMapOf, WellFormed, FirstHolding, ReadBytes, FlatByte, ExpectedByte, Translate, ElfImage.Valid;
    var image := Parse(file).image;
    MapOfIsWellFormed(m, image);
    ParsedFileIsMapped(file, m, c, k);
    RegionOfSegment(m, image, c, k);
  }

  lemma RegionOfSegment(m: MapValue, elf: ElfImage, c: nat, k: nat)
    requires elf.Valid() && IsMapOf(m, elf) && c < |elf.loadSegments| && k < elf.loadSegments[c].memorySize
    requires elf.loadSegments[c].virtualAddress + k < 0x1_0000_0000
    ensures WellFormed(m)
    ensures var s := elf.loadSegments[c];
            var t := Translate(m, s.virtualAddress + k, 1);
            t.Some? && m[t.value.region].metadata == Region(s.virtualAddress, s.memorySize, s.flags)
  {
    hide WellFormed, IsMapOf, FirstHolding;
    var s := elf.loadSegments[c];
    var a: int := s.virtualAddress + k;
    MapOfIsWellFormed(m, elf);
    var r := SegmentIsMapped(m, elf, c);
    TranslateIff(m, a, 1);
    var t := Translate(m, a, 1);
    HolderUnique(m, r, t.value.region, a, a, a + 1, a, a + 1);
  }

  // ---------------------------------------------------------------- mappable files

  /** An image is mappable exactly when every address a segment occupies is below 2^32
      and no two segments occupy a common one. */
  lemma MappableByAddress(elf: ElfImage)
    ensures Mappable(elf) <==>
            && (forall s, a: int | s in elf.loadSegments :: InSegment(s, a) ==> a < 0x1_0000_0000)
            && (forall i, j, a: int | 0 <= i < j < |elf.loadSegments| ::
                  !(InSegment(elf.loadSegments[i], a) && InSegment(elf.loadSegments[j], a)))
  {
    if Mappable(elf) {
      forall i, j, a: int | 0 <= i < j < |elf.loadSegments|
        ensures !(InSegment(elf.loadSegments[i], a) && InSegment(elf.loadSegments[j], a))
      {
        assert Apart(elf.loadSegments[i], elf.loadSegments[j]);
      }
    } else {
      if s :| s in elf.loadSegments && !FitsAddressSpace(s) {
        var a: int := s.virtualAddress + s.memorySize - 1;
        assert InSegment(s, a);
      } else {
        var i, j :| 0 <= i < j < |elf.loadSegments| && !Apart(elf.loadSegments[i], elf.loadSegments[j]);
        var s, t := elf.loadSegments[i], elf.loadSegments[j];
        var a: int := if s.virtualAddress < t.virtualAddress then t.virtualAddress else s.virtualAddress;
        assert InSegment(s, a) && InSegment(t, a);
      }
    }
  }

  predicate InSegment(s: LoadSegment, a: int) { s.virtualAddress <= a < s.virtualAddress + s.memorySize }
}
