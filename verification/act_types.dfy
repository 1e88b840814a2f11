/**
  Types and constants shared by the model of the Authenticated Countdown Timer
  (ACT) support code of the TPM 2.0 reference implementation.

  The C code keeps three process-wide UINT16 bitmasks (`go.signaledACT`,
  `go.preservedSignaled` and `s_ActUpdated`); bit `n` of such a mask is set
  exactly when slot `n` is a member of the corresponding `set<Slot>` here.
 */
module ActTypes {

  /** An unsigned 32-bit value (UINT32, TPM_HANDLE, TPM_RH). */
  type u32 = x: int | 0 <= x < 0x1_0000_0000

  /** An unsigned 16-bit value (TPM_ALG_ID). */
  type u16 = x: int | 0 <= x < 0x1_0000

  type byte = x: int | 0 <= x < 0x100

  /** Number of ACT slots a TPM can have: TPM_RH_ACT_0 .. TPM_RH_ACT_F. */
  const SlotCount: nat := 16

  /** An ACT number, the index of a slot: `handle - TPM_RH_ACT_0`. The bound
      is `SlotCount`, written as a literal (`SlotBound` states they agree). */
  type Slot = n: nat | n < 16

  /** Slots are exactly the numbers below `SlotCount`. */
  lemma SlotBound(n: nat)
    ensures (n < SlotCount) == (n < 16)
  {
  }

  /** First and last ACT handle (TPM 2.0 Library, Part 2, TPM_RH constants). */
  const RhAct0: u32 := 0x4000_0110
  const RhActF: u32 := 0x4000_011F

  /** Two to the 32nd: UINT32 arithmetic is taken modulo this. */
  const Two32: int := 0x1_0000_0000

  /** UINT32_MAX: a countdown with this value never expires and is never halved. */
  const MaxU32: u32 := 0xFFFF_FFFF

  /** TPM_ALG_NULL (TPM 2.0 Library, Part 2, TPM_ALG_ID constants). */
  const AlgNull: u16 := 0x0010

  /** The saved state of one ACT (ACT_STATE): the count captured at orderly
      shutdown and the authorization policy of the ACT handle. */
  datatype ActState = ActState(remaining: u32, hashAlg: u16, authPolicy: seq<byte>)

  /** Build-time configuration: the ACT numbers compiled in (the slots
      FOR_EACH_ACT enumerates) and MAX_ACT_DATA, the capacity of one
      TPML_ACT_DATA list. */
  datatype Config = Config(configured: set<Slot>, maxActData: nat)

  /** STARTUP_TYPE: what TPM2_Startup decided this start is. */
  datatype StartupType = SuReset | SuRestart | SuResume

  /** TPM_SU: the kind of orderly shutdown requested by TPM2_Shutdown. */
  datatype ShutdownType = SuClear | SuState

  /** g_NvStatus: whether NV memory can be written right now. */
  datatype NvStatus = NvAvailable | NvRate | NvUnavailable

  /** The TPM_RC values ActCounterUpdate can return. */
  datatype Rc = RcSuccess | RcValue | RcRetry | RcNvRate | RcNvUnavailable

  datatype Option<+T> = None | Some(value: T)

  /** TPMS_ACT_DATA, with the two defined TPMA_ACT attribute bits as booleans. */
  datatype ActData = ActData(handle: u32, timeout: u32, signaled: bool, preserveSignaled: bool)

  /** `handle - TPM_RH_ACT_0` computed in UINT32 arithmetic, as the C code
      does. Exactly the ACT handles give an index below 16; every other
      handle wraps to a large index that no slot has. */
  function ActIndex(handle: u32): (act: u32)
    ensures act < SlotCount <==> RhAct0 <= handle <= RhActF
    ensures RhAct0 <= handle ==> act == handle - RhAct0
  {
    (handle - RhAct0) % Two32
  }

  /** The handle of slot `act`. */
  function HandleOf(act: Slot): (h: u32)
    ensures RhAct0 <= h <= RhActF
    ensures ActIndex(h) == act
  {
    RhAct0 + act
  }
}
