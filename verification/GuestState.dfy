/** The architectural state a block runs on
    (src/recompiler/r5900_ir_executor.h): its value, and the object that the
    executor and native code update in place. */
module GuestState {
  import opened Words

  datatype GprValue = GprValue(low64: U64, high64: U64)

  const ZERO_GPR := GprValue(0, 0)

  datatype StateValue = State(
    gpr: seq<GprValue>,
    hi: U64,
    lo: U64,
    hi1: U64,
    lo1: U64,
    sa: U32,
    fpr: seq<U32>,
    fcr31: U32,
    fpAcc: U32)

  type State = s: StateValue | |s.gpr| == 32 && |s.fpr| == 32
    witness State(seq(32, _ => ZERO_GPR), 0, 0, 0, 0, 0, seq(32, _ => 0), 0, 0)

  /** Single-precision addition on bit patterns, supplied by the host. */
  type F32Add = (U32, U32) -> U32

  class Guest {
    const gpr: array<GprValue>
    var hi: U64
    var lo: U64
    var hi1: U64
    var lo1: U64
    var sa: U32
    const fpr: array<U32>
    var fcr31: U32
    var fpAcc: U32

    ghost predicate Valid() {
      gpr.Length == 32 && fpr.Length == 32
    }

    ghost const Repr: set<object> := {this, gpr, fpr}

    function Snapshot(): State
      requires Valid()
      reads this, gpr, fpr
    {
      State(gpr[..], hi, lo, hi1, lo1, sa, fpr[..], fcr31, fpAcc)
    }

    constructor ()
      ensures Valid() && fresh(Repr)
      ensures Snapshot() == State(seq(32, _ => ZERO_GPR), 0, 0, 0, 0, 0, seq(32, _ => 0), 0, 0)
    {
      gpr := new GprValue[32](_ => ZERO_GPR);
      hi, lo, hi1, lo1, sa, fcr31, fpAcc := 0, 0, 0, 0, 0, 0, 0;
      fpr := new U32[32](_ => 0);
    }

    /** Overwrites every field. */
    method Assign(value: State)
      requires Valid()
      modifies Repr
      ensures Snapshot() == value
    {
      forall i | 0 <= i < 32 {
        gpr[i] := value.gpr[i];
      }
      forall i | 0 <= i < 32 {
        fpr[i] := value.fpr[i];
      }
      hi, lo, hi1, lo1, sa := value.hi, value.lo, value.hi1, value.lo1, value.sa;
      fcr31, fpAcc := value.fcr31, value.fpAcc;
      assert gpr[..] == value.gpr && fpr[..] == value.fpr;
    }
  }
}
