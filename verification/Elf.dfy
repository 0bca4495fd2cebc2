/** The ELF32 loader (src/recompiler/ps2_elf.cpp). Layouts follow the System V
    gABI, chapter 4 (ELF Header) and chapter 5 (Program Header). */
module Elf {
  import opened Words
  import opened Options

  const ELF32_HEADER_SIZE: nat := 52
  const ELF32_PROGRAM_HEADER_SIZE: nat := 32
  const PT_LOAD: nat := 1

  datatype ElfError =
    | TooSmall
    | BadMagic
    | UnsupportedClass
    | UnsupportedEndian
    | UnsupportedIdentVersion
    | UnsupportedType
    | UnsupportedMachine
    | UnsupportedVersion
    | InvalidHeaderSize
    | InvalidProgramHeaderSize
    | ProgramHeaderTableOutOfBounds
    | SegmentOutOfBounds
    | SegmentMemoryTooSmall

  datatype LoadSegment = LoadSegment(
    fileOffset: U32,
    virtualAddress: U32,
    physicalAddress: U32,
    fileSize: U32,
    memorySize: U32,
    flags: U32,
    alignment: U32)

  datatype ElfImage = ElfImage(
    entryPoint: U32,
    programHeaderCount: U16,
    loadSegments: seq<LoadSegment>,
    bytes: seq<U8>)
  {
    /** What parsing guarantees of every segment. */
    predicate Valid() {
      forall s | s in loadSegments :: SegmentInBounds(s, bytes)
    }

    /** The payload of one segment; an index out of range names no bytes. */
    function SegmentFileBytes(index: nat): (payload: seq<U8>)
      requires Valid()
      ensures index < |loadSegments| ==> |payload| == loadSegments[index].fileSize
    {
      if index >= |loadSegments| then []
      else
        var s := loadSegments[index];
        assert s in loadSegments;
        bytes[s.fileOffset..s.fileOffset + s.fileSize]
    }
  }

  datatype ParseResult = Parsed(image: ElfImage) | ParseFailed(error: ElfError)

  predicate SegmentInBounds(s: LoadSegment, bytes: seq<U8>) {
    s.fileSize <= s.memorySize && s.fileOffset + s.fileSize <= |bytes|
  }

  /** offset + length <= total without overflow. */
  predicate RangeFits(offset: nat, length: nat, total: nat) {
    offset <= total && length <= total - offset
  }

  function ReadU16(bytes: seq<U8>, offset: nat): U16
    requires offset + 2 <= |bytes|
  {
    var low: int, high: int := bytes[offset], bytes[offset + 1];
    low + 0x100 * high
  }

  function ReadU32(bytes: seq<U8>, offset: nat): U32
    requires offset + 4 <= |bytes|
  {
    LeU32(bytes[offset..offset + 4])
  }

  /** The header checks in the order they are made; None when all pass. */
  function HeaderError(bytes: seq<U8>): Option<ElfError> {
    if |bytes| < ELF32_HEADER_SIZE then Some(TooSmall)
    else if bytes[0] != 0x7F || bytes[1] != 0x45 || bytes[2] != 0x4C || bytes[3] != 0x46 then Some(BadMagic)
    else if bytes[4] != 1 then Some(UnsupportedClass)
    else if bytes[5] != 1 then Some(UnsupportedEndian)
    else if bytes[6] != 1 then Some(UnsupportedIdentVersion)
    else if ReadU16(bytes, 16) != 2 then Some(UnsupportedType)
    else if ReadU16(bytes, 18) != 8 then Some(UnsupportedMachine)
    else if ReadU32(bytes, 20) != 1 then Some(UnsupportedVersion)
    else if ReadU16(bytes, 40) != ELF32_HEADER_SIZE then Some(InvalidHeaderSize)
    else if ReadU16(bytes, 42) != ELF32_PROGRAM_HEADER_SIZE then Some(InvalidProgramHeaderSize)
    else if !RangeFits(ReadU32(bytes, 28), ReadU16(bytes, 44) * ELF32_PROGRAM_HEADER_SIZE, |bytes|) then
      Some(ProgramHeaderTableOutOfBounds)
    else None
  }

  /** The offset of program header i of a table. */
  function EntryBase(table: nat, i: nat): nat { table + i * ELF32_PROGRAM_HEADER_SIZE }

  predicate TableFits(bytes: seq<U8>, table: nat, count: nat) { EntryBase(table, count) <= |bytes| }

  predicate IsLoad(bytes: seq<U8>, table: nat, i: nat)
    requires TableFits(bytes, table, i + 1)
  {
    ReadU32(bytes, EntryBase(table, i)) == PT_LOAD
  }

  function SegmentAt(bytes: seq<U8>, table: nat, i: nat): LoadSegment
    requires TableFits(bytes, table, i + 1)
  {
    var base := EntryBase(table, i);
    LoadSegment(ReadU32(bytes, base + 4), ReadU32(bytes, base + 8), ReadU32(bytes, base + 12),
                ReadU32(bytes, base + 16), ReadU32(bytes, base + 20), ReadU32(bytes, base + 24),
                ReadU32(bytes, base + 28))
  }

  function SegmentError(s: LoadSegment, total: nat): Option<ElfError> {
    if s.memorySize < s.fileSize then Some(SegmentMemoryTooSmall)
    else if !RangeFits(s.fileOffset, s.fileSize, total) then Some(SegmentOutOfBounds)
    else None
  }

  datatype Segments = Segments(list: seq<LoadSegment>) | BadSegment(error: ElfError)

  /** The PT_LOAD entries among the first count program headers, in table order;
      the first bad one stops the scan. */
  function LoadSegments(bytes: seq<U8>, table: nat, count: nat): Segments
    requires TableFits(bytes, table, count)
  {
    if count == 0 then Segments([])
    else
      var before := LoadSegments(bytes, table, count - 1);
      if before.BadSegment? || !IsLoad(bytes, table, count - 1) then before
      else
        var s := SegmentAt(bytes, table, count - 1);
        var e := SegmentError(s, |bytes|);
        if e.Some? then BadSegment(e.value) else Segments(before.list + [s])
  }

  /** parse_ps2_elf as a function of the file. */
  function Parse(bytes: seq<U8>): (r: ParseResult)
    ensures r.Parsed? ==> r.image.Valid() && r.image.bytes == bytes
  {
    var e := HeaderError(bytes);
    if e.Some? then ParseFailed(e.value)
    else
      var segments := LoadSegments(bytes, ReadU32(bytes, 28), ReadU16(bytes, 44));
      if segments.BadSegment? then ParseFailed(segments.error)
      else
        ScanLists(bytes, ReadU32(bytes, 28), ReadU16(bytes, 44));
        Parsed(ElfImage(ReadU32(bytes, 24), ReadU16(bytes, 44), segments.list, bytes))
  }

  /** The program header loop. */
  method ScanSegments(bytes: seq<U8>, table: nat, count: nat) returns (result: Segments)
    requires TableFits(bytes, table, count)
    ensures result == LoadSegments(bytes, table, count)
  {
    hide ReadU32, SegmentAt, IsLoad;
    var list := [];
    for i := 0 to count
      invariant LoadSegments(bytes, table, i) == Segments(list)
    {
      if !IsLoad(bytes, table, i) {
        continue;
      }
      var s := SegmentAt(bytes, table, i);
      if s.memorySize < s.fileSize {
        StopsAtFirstBad(bytes, table, i + 1, count);
        return BadSegment(SegmentMemoryTooSmall);
      }
      if !RangeFits(s.fileOffset, s.fileSize, |bytes|) {
        StopsAtFirstBad(bytes, table, i + 1, count);
        return BadSegment(SegmentOutOfBounds);
      }
      list := list + [s];
    }
    result := Segments(list);
  }

  method ParsePs2Elf(bytes: seq<U8>) returns (result: ParseResult)
    ensures result == Parse(bytes)
  {
    hide LoadSegments;
    var e := HeaderError(bytes);
    if e.Some? {
      return ParseFailed(e.value);
    }
    var segments := ScanSegments(bytes, ReadU32(bytes, 28), ReadU16(bytes, 44));
    if segments.BadSegment? {
      return ParseFailed(segments.error);
    }
    result := Parsed(ElfImage(ReadU32(bytes, 24), ReadU16(bytes, 44), segments.list, bytes));
  }

  lemma {:induction false} StopsAtFirstBad(bytes: seq<U8>, table: nat, i: nat, count: nat)
    requires i <= count && TableFits(bytes, table, count)
    requires LoadSegments(bytes, table, i).BadSegment?
    ensures LoadSegments(bytes, table, count) == LoadSegments(bytes, table, i)
    decreases count - i
  {
    if i < count {
      StopsAtFirstBad(bytes, table, i, count - 1);
    }
  }

  // ---------------------------------------------------------------- what a successful parse means

  /** A program header is acceptable: not PT_LOAD, or with a payload inside the
      file that its memory size covers. */
  predicate EntryOk(bytes: seq<U8>, table: nat, i: nat)
    requires TableFits(bytes, table, i + 1)
  {
    IsLoad(bytes, table, i) ==> SegmentInBounds(SegmentAt(bytes, table, i), bytes)
  }

  /** How many of the first n program headers are PT_LOAD. */
  function CountLoads(bytes: seq<U8>, table: nat, n: nat): nat
    requires TableFits(bytes, table, n)
  {
    if n == 0 then 0 else CountLoads(bytes, table, n - 1) + (if IsLoad(bytes, table, n - 1) then 1 else 0)
  }

  /** The scan succeeds exactly when every entry is acceptable. */
  lemma {:induction false} ScanSucceedsIff(bytes: seq<U8>, table: nat, count: nat)
    requires TableFits(bytes, table, count)
    ensures LoadSegments(bytes, table, count).Segments? <==> forall i :: 0 <= i < count ==> EntryOk(bytes, table, i)
  {
    if count > 0 {
      hide SegmentAt, IsLoad;
      ScanSucceedsIff(bytes, table, count - 1);
      assert EntryOk(bytes, table, count - 1) <==>
             (IsLoad(bytes, table, count - 1) ==> SegmentError(SegmentAt(bytes, table, count - 1), |bytes|).None?);
    }
  }

  /** A successful scan lists each PT_LOAD entry once, at its rank among the
      PT_LOAD entries. */
  lemma {:induction false} ScanLists(bytes: seq<U8>, table: nat, count: nat)
    requires TableFits(bytes, table, count) && LoadSegments(bytes, table, count).Segments?
    ensures var list := LoadSegments(bytes, table, count).list;
            && |list| == CountLoads(bytes, table, count)
            && (forall i :: 0 <= i < count && IsLoad(bytes, table, i) ==>
                  CountLoads(bytes, table, i) < |list| &&
                  list[CountLoads(bytes, table, i)] == SegmentAt(bytes, table, i))
            && (forall s :: s in list ==> SegmentInBounds(s, bytes))
  {
    if count > 0 {
      hide SegmentAt, IsLoad;
      ScanLists(bytes, table, count - 1);
    }
  }

  /** A file parses exactly when its header is a little-endian ET_EXEC MIPS ELF32
      header with an in-bounds program header table whose entries are all
      acceptable; the image then holds the whole file and the PT_LOAD entries in
      table order. */
  lemma ParseMeaning(bytes: seq<U8>)
    ensures Parse(bytes).Parsed? <==>
            HeaderError(bytes).None? &&
            forall i :: 0 <= i < ReadU16(bytes, 44) ==> EntryOk(bytes, ReadU32(bytes, 28), i)
    ensures Parse(bytes).Parsed? ==>
              var image, table := Parse(bytes).image, ReadU32(bytes, 28);
              && image.entryPoint == ReadU32(bytes, 24)
              && |image.loadSegments| == CountLoads(bytes, table, ReadU16(bytes, 44))
              && forall i :: 0 <= i < ReadU16(bytes, 44) && IsLoad(bytes, table, i) ==>
                   CountLoads(bytes, table, i) < |image.loadSegments| &&
                   image.loadSegments[CountLoads(bytes, table, i)] == SegmentAt(bytes, table, i)
  {
    if HeaderError(bytes).None? {
      hide LoadSegments, CountLoads, EntryOk, SegmentAt, IsLoad;
      ScanSucceedsIff(bytes, ReadU32(bytes, 28), ReadU16(bytes, 44));
      if Parse(bytes).Parsed? {
        ScanLists(bytes, ReadU32(bytes, 28), ReadU16(bytes, 44));
      }
    }
  }
}
