/** The byte layout of R5900IrExecutionState that generated code relies on
    (src/recompiler/r5900_ir_executor.h, src/recompiler/windows/r5900_x64_backend.cpp):
    field offsets, and the state a record of bytes denotes. */
module StateRecord {
  import opened Words
  import opened GuestState
  import opened X64Machine

  /** sizeof(R5900IrExecutionState): 684 bytes of fields, padded to a multiple of 8. */
  const RECORD_SIZE: nat := 688

  type Record = r: seq<U8> | |r| == RECORD_SIZE
    witness seq(RECORD_SIZE, _ => 0)

  datatype Slot =
    | GprLow(index: nat)
    | GprHigh(index: nat)
    | HiSlot
    | LoSlot
    | Hi1Slot
    | Lo1Slot
    | SaSlot
    | FprSlot(index: nat)
    | Fcr31Slot
    | FpAccSlot

  predicate ValidSlot(slot: Slot) {
    slot.GprLow? || slot.GprHigh? || slot.FprSlot? ==> slot.index < 32
  }

  function Offset(slot: Slot): (offset: U32)
    requires ValidSlot(slot)
    ensures offset + Size(slot) <= RECORD_SIZE
  {
    match slot
    case GprLow(i) => 16 * i
    case GprHigh(i) => 16 * i + 8
    case HiSlot => 512
    case LoSlot => 520
    case Hi1Slot => 528
    case Lo1Slot => 536
    case SaSlot => 544
    case FprSlot(i) => 548 + 4 * i
    case Fcr31Slot => 676
    case FpAccSlot => 680
  }

  function Size(slot: Slot): nat {
    if slot.SaSlot? || slot.FprSlot? || slot.Fcr31Slot? || slot.FpAccSlot? then 4 else 8
  }

  /** Distinct fields occupy disjoint bytes. */
  lemma SlotsDisjoint(a: Slot, b: Slot)
    requires ValidSlot(a) && ValidSlot(b) && a != b
    ensures Offset(a) + Size(a) <= Offset(b) || Offset(b) + Size(b) <= Offset(a)
  {
  }

  function Get(s: State, slot: Slot): U64
    requires ValidSlot(slot)
  {
    match slot
    case GprLow(i) => s.gpr[i].low64
    case GprHigh(i) => s.gpr[i].high64
    case HiSlot => s.hi
    case LoSlot => s.lo
    case Hi1Slot => s.hi1
    case Lo1Slot => s.lo1
    case SaSlot => s.sa
    case FprSlot(i) => s.fpr[i]
    case Fcr31Slot => s.fcr31
    case FpAccSlot => s.fpAcc
  }

  predicate Fits(v: int, slot: Slot) { 0 <= v < (if Size(slot) == 4 then 0x1_0000_0000 else 0x1_0000_0000_0000_0000) }

  function Set(s: State, slot: Slot, v: int): State
    requires ValidSlot(slot) && Fits(v, slot)
  {
    match slot
    case GprLow(i) => s.(gpr := s.gpr[i := s.gpr[i].(low64 := v)])
    case GprHigh(i) => s.(gpr := s.gpr[i := s.gpr[i].(high64 := v)])
    case HiSlot => s.(hi := v)
    case LoSlot => s.(lo := v)
    case Hi1Slot => s.(hi1 := v)
    case Lo1Slot => s.(lo1 := v)
    case SaSlot => s.(sa := v)
    case FprSlot(i) => s.(fpr := s.fpr[i := v])
    case Fcr31Slot => s.(fcr31 := v)
    case FpAccSlot => s.(fpAcc := v)
  }

  lemma SetThenGet(s: State, slot: Slot, v: int, other: Slot)
    requires ValidSlot(slot) && ValidSlot(other) && Fits(v, slot)
    ensures Get(Set(s, slot, v), other) == if other == slot then v else Get(s, other)
  {
  }

  /** A state is determined by its fields. */
  lemma SameSlotsSameState(s: State, t: State)
    requires forall slot | ValidSlot(slot) :: Get(s, slot) == Get(t, slot)
    ensures s == t
  {
    forall i | 0 <= i < 32
      ensures s.gpr[i] == t.gpr[i] && s.fpr[i] == t.fpr[i]
    {
      assert Get(s, GprLow(i)) == Get(t, GprLow(i));
      assert Get(s, GprHigh(i)) == Get(t, GprHigh(i));
      assert Get(s, FprSlot(i)) == Get(t, FprSlot(i));
    }
    assert s.gpr == t.gpr && s.fpr == t.fpr;
    assert Get(s, HiSlot) == Get(t, HiSlot) && Get(s, LoSlot) == Get(t, LoSlot);
    assert Get(s, Hi1Slot) == Get(t, Hi1Slot) && Get(s, Lo1Slot) == Get(t, Lo1Slot);
    assert Get(s, SaSlot) == Get(t, SaSlot) && Get(s, Fcr31Slot) == Get(t, Fcr31Slot);
    assert Get(s, FpAccSlot) == Get(t, FpAccSlot);
  }

  /** The bytes of one field. */
  function Bytes(r: Record, slot: Slot): (b: seq<U8>)
    requires ValidSlot(slot)
    ensures |b| == Size(slot)
  {
    r[Offset(slot)..Offset(slot) + Size(slot)]
  }

  function Field64(r: Record, slot: Slot): U64
    requires ValidSlot(slot) && Size(slot) == 8
  {
    LeU64(Bytes(r, slot))
  }

  function Field32(r: Record, slot: Slot): U32
    requires ValidSlot(slot) && Size(slot) == 4
  {
    LeU32(Bytes(r, slot))
  }

  /** The architectural state a record denotes; its padding denotes nothing. */
  function View(r: Record): State {
    State(
      seq(32, i requires 0 <= i < 32 => GprValue(Field64(r, GprLow(i)), Field64(r, GprHigh(i)))),
      Field64(r, HiSlot), Field64(r, LoSlot), Field64(r, Hi1Slot), Field64(r, Lo1Slot),
      Field32(r, SaSlot),
      seq(32, i requires 0 <= i < 32 => Field32(r, FprSlot(i))),
      Field32(r, Fcr31Slot), Field32(r, FpAccSlot))
  }

  lemma ViewGet(r: Record, slot: Slot)
    requires ValidSlot(slot)
    ensures Get(View(r), slot) == LeValue(Bytes(r, slot))
  {
  }

  function Truncate(v: nat, size: nat): nat
    requires size == 4 || size == 8
  {
    if size == 4 then ToU32(v) else ToU64(v)
  }

  function Stored(r: Record, slot: Slot, v: nat): Record
    requires ValidSlot(slot)
  {
    Patch(r, Offset(slot), LeBytes(v, Size(slot)))
  }

  lemma PatchSlice(r: seq<U8>, at: nat, bytes: seq<U8>, from: nat, n: nat)
    requires at + |bytes| <= |r| && from + n <= |r|
    requires from + n <= at || at + |bytes| <= from || (from == at && n == |bytes|)
    ensures Patch(r, at, bytes)[from..from + n] == if from == at && n == |bytes| then bytes else r[from..from + n]
  {
    var p := Patch(r, at, bytes);
    if from == at && n == |bytes| {
      assert p[from..from + n] == bytes;
    } else {
      forall k | from <= k < from + n
        ensures p[k] == r[k]
      {
      }
      assert p[from..from + n] == r[from..from + n];
    }
  }

  lemma StoredBytes(r: Record, slot: Slot, v: nat, other: Slot)
    requires ValidSlot(slot) && ValidSlot(other)
    ensures Bytes(Stored(r, slot, v), other) == if other == slot then LeBytes(v, Size(slot)) else Bytes(r, other)
  {
    hide LeBytes, Patch;
    if other != slot {
      SlotsDisjoint(slot, other);
    }
    PatchSlice(r, Offset(slot), LeBytes(v, Size(slot)), Offset(other), Size(other));
  }

  lemma TruncateFits(v: nat, slot: Slot)
    ensures LeValue(LeBytes(v, Size(slot))) == Truncate(v, Size(slot)) && Fits(Truncate(v, Size(slot)), slot)
  {
    LeValueOfBytes(v, Size(slot));
    Pow2Values();
  }

  /** Storing the low bytes of v at a field's offset updates that field and no other. */
  lemma StoreSlot(r: Record, slot: Slot, v: nat)
    requires ValidSlot(slot)
    ensures Fits(Truncate(v, Size(slot)), slot)
    ensures View(Stored(r, slot, v)) == Set(View(r), slot, Truncate(v, Size(slot)))
  {
    hide View, Get, Set, Stored, Bytes, LeBytes, LeValue, Truncate;
    var r' := Stored(r, slot, v);
    var t := Truncate(v, Size(slot));
    TruncateFits(v, slot);
    forall other | ValidSlot(other)
      ensures Get(View(r'), other) == Get(Set(View(r), slot, t), other)
    {
      ViewGet(r', other);
      ViewGet(r, other);
      SetThenGet(View(r), slot, t, other);
      StoredBytes(r, slot, v, other);
    }
    SameSlotsSameState(View(r'), Set(View(r), slot, t));
  }

  // ---------------------------------------------------------------- states as records

  const SLOTS: nat := 103

  function SlotAt(k: nat): (slot: Slot)
    requires k < SLOTS
    ensures ValidSlot(slot) && SlotNumber(slot) == k
  {
    if k < 32 then GprLow(k)
    else if k < 64 then GprHigh(k - 32)
    else if k < 96 then FprSlot(k - 64)
    else [HiSlot, LoSlot, Hi1Slot, Lo1Slot, SaSlot, Fcr31Slot, FpAccSlot][k - 96]
  }

  function SlotNumber(slot: Slot): nat {
    match slot
    case GprLow(i) => i
    case GprHigh(i) => i + 32
    case FprSlot(i) => i + 64
    case HiSlot => 96
    case LoSlot => 97
    case Hi1Slot => 98
    case Lo1Slot => 99
    case SaSlot => 100
    case Fcr31Slot => 101
    case FpAccSlot => 102
  }

  /** The record with the first k fields of s stored in it. */
  function Filled(s: State, k: nat): Record
    requires k <= SLOTS
  {
    if k == 0 then seq(RECORD_SIZE, _ => 0)
    else Stored(Filled(s, k - 1), SlotAt(k - 1), Get(s, SlotAt(k - 1)))
  }

  function Image(s: State): Record {
    Filled(s, SLOTS)
  }

  lemma {:induction false} FilledGet(s: State, k: nat, slot: Slot)
    requires k <= SLOTS && ValidSlot(slot) && SlotNumber(slot) < k
    ensures Get(View(Filled(s, k)), slot) == Get(s, slot)
  {
    var last := SlotAt(k - 1);
    if SlotNumber(slot) == k - 1 {
      SlotNumberInjective(slot, last);
    }
    TruncateGet(s, last);
    hide View, Get, Set, Stored, SlotAt, SlotNumber, Truncate;
    StoreSlot(Filled(s, k - 1), last, Get(s, last));
    SetThenGet(View(Filled(s, k - 1)), last, Get(s, last), slot);
    if SlotNumber(slot) < k - 1 {
      FilledGet(s, k - 1, slot);
    }
  }

  lemma SlotNumberInjective(a: Slot, b: Slot)
    requires ValidSlot(a) && ValidSlot(b) && SlotNumber(a) == SlotNumber(b)
    ensures a == b
  {
  }

  lemma TruncateGet(s: State, slot: Slot)
    requires ValidSlot(slot)
    ensures Fits(Get(s, slot), slot) && Truncate(Get(s, slot), Size(slot)) == Get(s, slot)
  {
  }

  /** Every state has a record that denotes it. */
  lemma ViewOfImage(s: State)
    ensures View(Image(s)) == s
  {
    forall slot | ValidSlot(slot)
      ensures Get(View(Image(s)), slot) == Get(s, slot)
    {
      FilledGet(s, SLOTS, slot);
    }
    SameSlotsSameState(View(Image(s)), s);
  }
}
