/**
  The platform ACT layer (`_plat__ACT_*`) as abstract state. The TPM core only
  sees it through the getters and the few commands below; how the platform
  ticks its counters down is not part of this model.
 */
module ActPlatform {
  import opened ActTypes

  /** The live hardware view of every slot. `pending` holds the writes that
      `UpdateCounter` accepted and the hardware has not yet latched; a slot
      with a pending write rejects the next write. */
  datatype Platform = Platform(
    implemented: set<Slot>,
    remaining: seq<u32>,
    signaled: seq<bool>,
    pending: map<Slot, u32>,
    ticking: bool)
  {
    predicate Valid() {
      |remaining| == SlotCount && |signaled| == SlotCount
    }
  }

  /** `_plat__ACT_GetImplemented`: only a real slot can be implemented, so any
      index of 16 or more yields false. */
  predicate GetImplemented(p: Platform, act: nat) {
    act in p.implemented
  }

  /** `_plat__ACT_Initialize`: every counter is reset to zero, every signaled
      output de-asserted, pending writes dropped and ticks stopped. */
  function Initialize(p: Platform): (p': Platform)
    ensures p'.Valid()
    ensures p'.implemented == p.implemented
    ensures forall i: Slot :: p'.remaining[i] == 0 && !p'.signaled[i]
    ensures p'.pending == map[] && !p'.ticking
  {
    Platform(p.implemented, seq(SlotCount, _ => 0), seq(SlotCount, _ => false), map[], false)
  }

  /** `_plat__ACT_UpdateCounter`: at most one write per slot can be pending;
      a second one is refused (false) and leaves the platform as it was. */
  function UpdateCounter(p: Platform, act: Slot, newValue: u32): (r: (bool, Platform))
    ensures r.0 <==> act !in p.pending
    ensures !r.0 ==> r.1 == p
    ensures r.0 ==> r.1 == p.(pending := p.pending[act := newValue])
  {
    if act in p.pending then (false, p)
    else (true, p.(pending := p.pending[act := newValue]))
  }

  /** `_plat__ACT_SetSignaled`. */
  function SetSignaled(p: Platform, act: Slot, on: bool): (p': Platform)
    requires p.Valid()
    ensures p'.Valid()
  {
    p.(signaled := p.signaled[act := on])
  }

  /** `_plat__ACT_EnableTicks`. */
  function EnableTicks(p: Platform, on: bool): Platform {
    p.(ticking := on)
  }
}
