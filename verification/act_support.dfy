/**
  The lifecycle part of the ACT support code: the implementation query,
  TPM2_Startup and TPM2_Shutdown processing (with the anti-replay halving of
  saved counts) and the TPM2_ACT_SetTimeout update gateway.

  Every operation is a pure transition from one `TpmState` to the next.
 */
module ActSupport {
  import opened ActTypes
  import opened ActPlatform

  /** The part of the TPM state the ACT code reads and writes.
      - `signaledACT`, `preservedSignaled`, `acts`: the orderly-saved `go` fields;
      - `actUpdated`: `s_ActUpdated`, the slots updated since the last startup;
      - `clearOrderly`: `g_clearOrderly`, set when NV must be marked dirty;
      - `platform`: the live hardware view. */
  datatype TpmState = TpmState(
    signaledACT: set<Slot>,
    preservedSignaled: set<Slot>,
    acts: seq<ActState>,
    actUpdated: set<Slot>,
    clearOrderly: bool,
    platform: Platform)
  {
    predicate Valid() {
      |acts| == SlotCount && platform.Valid()
    }
  }

  // ---------------------------------------------------------------------
  // Implementation query

  /** `ActIsImplemented`: an ACT number counts only when it is compiled in
      and the platform also implements it; every other value is refused. */
  function IsImplemented(cfg: Config, p: Platform, act: u32): (r: bool)
    ensures r <==> act < SlotCount && act in cfg.configured && GetImplemented(p, act)
  {
    if act < SlotCount && act as Slot in cfg.configured then GetImplemented(p, act) else false
  }

  // ---------------------------------------------------------------------
  // Startup

  /** `_ActResume`: a saved non-zero count is written back to the hardware;
      a saved zero count whose slot was signaled re-asserts the output. */
  function Resume(p: Platform, signaledACT: set<Slot>, act: Slot, saved: ActState): (p': Platform)
    requires p.Valid()
    ensures p'.Valid()
  {
    if saved.remaining > 0 then UpdateCounter(p, act, saved.remaining).1
    else if act in signaledACT then SetSignaled(p, act, true)
    else p
  }

  /** `_ActResume` applied to every compiled-in slot numbered `from` or more.
      Only the pending writes and signaled outputs of those slots change. */
  function ResumeAll(cfg: Config, p: Platform, signaledACT: set<Slot>, acts: seq<ActState>, from: nat): (p': Platform)
    requires p.Valid() && |acts| == SlotCount && from <= SlotCount
    decreases SlotCount - from
    ensures p'.Valid()
    ensures p'.implemented == p.implemented && p'.remaining == p.remaining && p'.ticking == p.ticking
    ensures forall j: Slot :: (p'.signaled[j] <==>
      p.signaled[j] || (from <= j && j in cfg.configured && acts[j].remaining == 0 && j in signaledACT))
    ensures forall j: Slot :: j in p'.pending <==>
      (j in p.pending || (from <= j && j in cfg.configured && acts[j].remaining > 0))
    ensures forall j: Slot :: j in p'.pending ==>
      p'.pending[j] == (if j in p.pending then p.pending[j] else acts[j].remaining)
  {
    if from == SlotCount then p
    else
      var p1 := if from in cfg.configured then Resume(p, signaledACT, from, acts[from]) else p;
      ResumeAll(cfg, p1, signaledACT, acts, from + 1)
  }

  /** The policy of a compiled-in slot after a non-resume startup. */
  function ClearPolicy(saved: ActState): ActState {
    saved.(hashAlg := AlgNull, authPolicy := [])
  }

  /** `ActStartup`. Resets the hardware, folds `signaledACT` into
      `preservedSignaled` unless power was lost, clears signals and policies
      on TPM Reset/Restart or resumes every slot on TPM Resume, forgets which
      slots were updated, starts the ticks and reports success. */
  function Startup(cfg: Config, s: TpmState, kind: StartupType, powerWasLost: bool): (r: (bool, TpmState))
    requires s.Valid()
    ensures r.0
    ensures r.1.Valid()
    ensures r.1.preservedSignaled == (if powerWasLost then {} else s.preservedSignaled + s.signaledACT)
    ensures !powerWasLost ==> s.preservedSignaled <= r.1.preservedSignaled
    ensures r.1.actUpdated == {}
    ensures r.1.clearOrderly == s.clearOrderly
    ensures r.1.platform.implemented == s.platform.implemented && r.1.platform.ticking
    ensures forall i: Slot :: r.1.platform.remaining[i] == 0
    ensures kind != SuResume ==>
      && r.1.signaledACT == {}
      && r.1.platform.pending == map[]
      && (forall i: Slot :: !r.1.platform.signaled[i])
      && (forall i: Slot :: i in cfg.configured ==>
            r.1.acts[i].hashAlg == AlgNull && r.1.acts[i].authPolicy == []
            && r.1.acts[i].remaining == s.acts[i].remaining)
      && (forall i: Slot :: i !in cfg.configured ==> r.1.acts[i] == s.acts[i])
    ensures kind == SuResume ==>
      && r.1.signaledACT == s.signaledACT
      && r.1.acts == s.acts
      && (forall i: Slot :: r.1.platform.signaled[i] <==>
            i in cfg.configured && s.acts[i].remaining == 0 && i in s.signaledACT)
      && (forall i: Slot :: i in r.1.platform.pending <==>
            i in cfg.configured && s.acts[i].remaining > 0)
      && (forall i: Slot :: i in r.1.platform.pending ==>
            r.1.platform.pending[i] == s.acts[i].remaining)
  {
    var p := Initialize(s.platform);
    var preserved := if powerWasLost then {} else s.preservedSignaled + s.signaledACT;
    var s1 :=
      if kind != SuResume then
        s.(signaledACT := {},
           acts := seq(SlotCount, i requires 0 <= i < SlotCount =>
                         if i in cfg.configured then ClearPolicy(s.acts[i]) else s.acts[i]),
           platform := p)
      else
        s.(platform := ResumeAll(cfg, p, s.signaledACT, s.acts, 0));
    (true, s1.(preservedSignaled := preserved, actUpdated := {},
               platform := EnableTicks(s1.platform, true)))
  }

  // ---------------------------------------------------------------------
  // Orderly shutdown

  /** The count `_ActSaveState` stores for a slot whose live count is `live`.
      A slot not updated since startup has its count halved (rounding down)
      unless it never expires or halving would take it to zero. */
  function SavedRemaining(live: u32, updated: bool): (saved: u32)
    ensures saved <= live
    ensures saved == 0 <==> live == 0
    ensures updated || live == MaxU32 || live <= 1 ==> saved == live
    ensures !updated && live != MaxU32 && live > 1 ==> 2 * saved <= live < 2 * saved + 2
  {
    if !updated && live != MaxU32 && live > 1 then live / 2 else live
  }

  /** `_ActSaveState`: snapshots one slot's count and ORs its live signaled
      output into the `signaledACT` being rebuilt. */
  function SaveState(p: Platform, actUpdated: set<Slot>, act: Slot, saved: ActState, signaledACT: set<Slot>)
    : (r: (ActState, set<Slot>))
    requires p.Valid()
  {
    (saved.(remaining := SavedRemaining(p.remaining[act], act in actUpdated)),
     if p.signaled[act] then signaledACT + {act} else signaledACT)
  }

  /** `_ActSaveState` applied to every compiled-in slot numbered `from` or more. */
  function SaveAll(cfg: Config, p: Platform, actUpdated: set<Slot>, acts: seq<ActState>,
                   signaledACT: set<Slot>, from: nat): (r: (set<Slot>, seq<ActState>))
    requires p.Valid() && |acts| == SlotCount && from <= SlotCount
    decreases SlotCount - from
    ensures |r.1| == SlotCount
    ensures r.0 == signaledACT + set j: Slot | from <= j && j in cfg.configured && p.signaled[j]
    ensures forall j: Slot :: from <= j && j in cfg.configured ==>
      r.1[j] == acts[j].(remaining := SavedRemaining(p.remaining[j], j in actUpdated))
    ensures forall j: Slot :: !(from <= j && j in cfg.configured) ==> r.1[j] == acts[j]
  {
    if from == SlotCount then
      (signaledACT, acts)
    else if from in cfg.configured then
      var (saved, sig) := SaveState(p, actUpdated, from, acts[from], signaledACT);
      SaveAll(cfg, p, actUpdated, acts[from := saved], sig, from + 1)
    else
      SaveAll(cfg, p, actUpdated, acts, signaledACT, from + 1)
  }

  /** `ActShutdown`. TPM_SU_STATE rebuilds `signaledACT` from the live
      outputs of the compiled-in slots and snapshots their counts; TPM_SU_CLEAR
      saves nothing. Either way the result is success. */
  function Shutdown(cfg: Config, s: TpmState, kind: ShutdownType): (r: (bool, TpmState))
    requires s.Valid()
    ensures r.0
    ensures r.1.Valid()
    ensures kind != SuState ==> r.1 == s
    ensures kind == SuState ==>
      && r.1.signaledACT == (set j: Slot | j in cfg.configured && s.platform.signaled[j])
      && (forall j: Slot :: j in cfg.configured ==>
            r.1.acts[j].remaining == SavedRemaining(s.platform.remaining[j], j in s.actUpdated)
            && r.1.acts[j].hashAlg == s.acts[j].hashAlg
            && r.1.acts[j].authPolicy == s.acts[j].authPolicy)
      && (forall j: Slot :: j !in cfg.configured ==> r.1.acts[j] == s.acts[j])
      && r.1.preservedSignaled == s.preservedSignaled
      && r.1.actUpdated == s.actUpdated
      && r.1.clearOrderly == s.clearOrderly
      && r.1.platform == s.platform
  {
    if kind == SuState then
      var (sig, acts) := SaveAll(cfg, s.platform, s.actUpdated, s.acts, {}, 0);
      (true, s.(signaledACT := sig, acts := acts))
    else
      (true, s)
  }

  // ---------------------------------------------------------------------
  // Queries and the update gateway

  /** `ActGetSignaled`: the live signaled output of an ACT handle. */
  function GetSignaled(s: TpmState, handle: u32): (on: bool)
    requires s.Valid() && RhAct0 <= handle <= RhActF
    ensures on <==> s.platform.signaled[handle - RhAct0]
  {
    s.platform.signaled[ActIndex(handle)]
  }

  /** `ActCounterUpdate` for TPM2_ACT_SetTimeout. The gate is the platform's
      own `GetImplemented`, not `IsImplemented`. When the TPM is orderly the
      NV status must allow the write. The hardware may refuse the write while
      an earlier one is pending. Only an accepted write marks the slot
      updated, drops its preserved signal and clears the orderly state; every
      refusal returns the state untouched. */
  function CounterUpdate(s: TpmState, handle: u32, newValue: u32, nvIsOrderly: bool, nvStatus: NvStatus)
    : (r: (Rc, TpmState))
    requires s.Valid()
    ensures r.1.Valid()
    ensures r.0 != RcSuccess ==> r.1 == s
    ensures !GetImplemented(s.platform, ActIndex(handle)) ==> r.0 == RcValue
    ensures GetImplemented(s.platform, ActIndex(handle)) && nvIsOrderly && nvStatus == NvRate ==>
      r.0 == RcNvRate
    ensures GetImplemented(s.platform, ActIndex(handle)) && nvIsOrderly && nvStatus == NvUnavailable ==>
      r.0 == RcNvUnavailable
    ensures r.0 == RcRetry <==>
      GetImplemented(s.platform, ActIndex(handle)) && (!nvIsOrderly || nvStatus == NvAvailable)
      && ActIndex(handle) in s.platform.pending
    ensures r.0 == RcSuccess <==>
      GetImplemented(s.platform, ActIndex(handle)) && (!nvIsOrderly || nvStatus == NvAvailable)
      && ActIndex(handle) !in s.platform.pending
    ensures r.0 == RcSuccess ==>
      && ActIndex(handle) < SlotCount
      && (forall j: Slot :: j in r.1.actUpdated <==> j in s.actUpdated || j == ActIndex(handle))
      && (forall j: Slot :: j in r.1.preservedSignaled <==> j in s.preservedSignaled && j != ActIndex(handle))
      && r.1.clearOrderly
      && r.1.signaledACT == s.signaledACT && r.1.acts == s.acts
      && r.1.platform == s.platform.(pending := s.platform.pending[ActIndex(handle) as Slot := newValue])
  {
    var act := ActIndex(handle);
    if !GetImplemented(s.platform, act) then
      (RcValue, s)
    else if nvIsOrderly && nvStatus == NvRate then
      (RcNvRate, s)
    else if nvIsOrderly && nvStatus == NvUnavailable then
      (RcNvUnavailable, s)
    else
      var (accepted, p) := UpdateCounter(s.platform, act as Slot, newValue);
      assert !nvIsOrderly || nvStatus == NvAvailable;
      assert accepted <==> act !in s.platform.pending;
      if !accepted then
        (RcRetry, s)
      else
        (RcSuccess, s.(actUpdated := s.actUpdated + {act as Slot},
                       preservedSignaled := s.preservedSignaled - {act as Slot},
                       clearOrderly := true,
                       platform := p))
  }
}
