/**
  Properties that relate several ACT operations: what an orderly
  shutdown followed by a resume restores, how an update exempts a slot from
  halving, how the single-handle and paged queries agree, and the two places
  where the code consults the platform alone.
 */
module ActProperties {
  import opened ActTypes
  import opened ActPlatform
  import opened ActSupport
  import opened ActCapability

  /** TPM2_Shutdown(TPM_SU_STATE) followed by a TPM Resume without power loss.
      Every compiled-in slot that was counting is counting again: an updated
      slot from exactly its live count, any other slot from half of it
      (rounded down), except that a count of 1 or UINT32_MAX is kept. A slot
      that had expired and was signaling signals again. Its signal is also
      remembered in `preservedSignaled`. */
  lemma ShutdownThenResume(cfg: Config, s: TpmState)
    requires s.Valid()
    ensures var s1 := Shutdown(cfg, s, SuState).1;
      var s2 := Startup(cfg, s1, SuResume, false).1;
      && s2.preservedSignaled ==
           s.preservedSignaled + (set j: Slot | j in cfg.configured && s.platform.signaled[j])
      && s2.actUpdated == {}
      && (forall j: Slot :: j in cfg.configured ==>
            && (j in s2.platform.pending <==> s.platform.remaining[j] > 0)
            && (s2.platform.signaled[j] <==> s.platform.remaining[j] == 0 && s.platform.signaled[j]))
      && (forall j: Slot :: j !in cfg.configured ==> j !in s2.platform.pending && !s2.platform.signaled[j])
      && (forall j: Slot :: j in cfg.configured && j in s.actUpdated && s.platform.remaining[j] > 0 ==>
            s2.platform.pending[j] == s.platform.remaining[j])
      && (forall j: Slot ::
            (j in cfg.configured && j !in s.actUpdated && 1 < s.platform.remaining[j] < MaxU32) ==>
            s2.platform.pending[j] == s.platform.remaining[j] / 2)
      && (forall j: Slot ::
            (j in cfg.configured && (s.platform.remaining[j] == 1 || s.platform.remaining[j] == MaxU32)) ==>
            s2.platform.pending[j] == s.platform.remaining[j])
  {
  }

  /** A slot that TPM2_ACT_SetTimeout updated is saved at its live count,
      not halved, by the next TPM2_Shutdown(TPM_SU_STATE). */
  lemma UpdatedSlotIsNotHalved(cfg: Config, s: TpmState, handle: u32, newValue: u32,
                               nvIsOrderly: bool, nvStatus: NvStatus)
    requires s.Valid()
    requires CounterUpdate(s, handle, newValue, nvIsOrderly, nvStatus).0 == RcSuccess
    ensures ActIndex(handle) < SlotCount
    ensures var s1 := CounterUpdate(s, handle, newValue, nvIsOrderly, nvStatus).1;
      ActIndex(handle) in cfg.configured ==>
        Shutdown(cfg, s1, SuState).1.acts[ActIndex(handle)].remaining == s1.platform.remaining[ActIndex(handle)]
  {
  }

  /** A startup empties the updated set. In any state `t` whose updated set
      is that empty set, that is, no TPM2_ACT_SetTimeout has succeeded since
      the startup, an orderly save halves every compiled-in slot whose live
      count is above 1 and finite. */
  lemma StartupRearmsHalving(cfg: Config, s: TpmState, kind: StartupType, powerWasLost: bool, t: TpmState)
    requires s.Valid() && t.Valid()
    requires t.actUpdated == Startup(cfg, s, kind, powerWasLost).1.actUpdated
    ensures forall j: Slot :: j in cfg.configured && t.platform.remaining[j] > 1 && t.platform.remaining[j] != MaxU32 ==>
      Shutdown(cfg, t, SuState).1.acts[j].remaining < t.platform.remaining[j]
  {
  }

  /** `ActGetSignaled` and `ActGetOneCapability` report the same signaled state. */
  lemma SignaledAgreesWithCapability(cfg: Config, s: TpmState, handle: u32)
    requires s.Valid() && IsImplemented(cfg, s.platform, ActIndex(handle))
    ensures RhAct0 <= handle <= RhActF
    ensures GetOneCapability(cfg, s, handle).Some?
    ensures GetOneCapability(cfg, s, handle).value.signaled == GetSignaled(s, handle)
  {
  }

  /** Every entry of a page is what `ActGetOneCapability` reports for its handle. */
  lemma PageAgreesWithOneCapability(cfg: Config, s: TpmState, start: Slot, limit: nat)
    requires s.Valid()
    ensures var list := Entries(s, Page(cfg, s.platform, start, limit));
      forall k :: 0 <= k < |list| ==> GetOneCapability(cfg, s, list[k].handle) == Some(list[k])
  {
    PageWellFormed(cfg, s, start, limit);
  }

  /** The update gateway consults only the platform: a slot the platform
      implements but the build does not is still updated. */
  lemma UpdateIgnoresBuildConfiguration(cfg: Config, s: TpmState, newValue: u32)
    requires s.Valid() && 0 !in cfg.configured && 0 in s.platform.implemented && s.platform.pending == map[]
    ensures !IsImplemented(cfg, s.platform, 0)
    ensures CounterUpdate(s, RhAct0, newValue, false, NvAvailable).0 == RcSuccess
  {
  }

  /** The "more data" answer consults only the platform: a full page answers
      YES because of a slot the build does not implement, and the page that
      follows is empty. */
  lemma MoreIgnoresBuildConfiguration(cfg: Config, p: Platform)
    requires cfg.configured == {0} && p.implemented == {0, 1}
    ensures Page(cfg, p, 0, 1) == [0]
    ensures MoreAfter(cfg, p, 0, 1)
    ensures Page(cfg, p, 1, 1) == []
  {
    AppendOne(cfg, p, 0, 0);
    assert ImplementedIn(cfg, p, 0, 1) == [0];
    assert FullAt(cfg, p, 0, 1, 1);
    NoneImplemented(cfg, p, 1, SlotCount);
    Split(cfg, p, 0, 1, SlotCount);
    assert ImplementedIn(cfg, p, 0, SlotCount) == [0];
  }

  /** Three implemented ACTs read two at a time: the first page holds the
      first two and answers YES, the page after it holds the third and
      answers NO. */
  lemma ThreeSlotsInPagesOfTwo(cfg: Config, p: Platform)
    requires cfg.configured == {0, 1, 2} && p.implemented == {0, 1, 2}
    ensures Page(cfg, p, 0, 2) == [0, 1] && MoreAfter(cfg, p, 0, 2)
    ensures Page(cfg, p, 2, 2) == [2] && !MoreAfter(cfg, p, 2, 2)
  {
    AppendOne(cfg, p, 0, 0);
    AppendOne(cfg, p, 0, 1);
    AppendOne(cfg, p, 0, 2);
    AppendOne(cfg, p, 2, 2);
    assert ImplementedIn(cfg, p, 0, 2) == [0, 1];
    assert ImplementedIn(cfg, p, 0, 3) == [0, 1, 2];
    assert ImplementedIn(cfg, p, 2, 3) == [2];
    NoneImplemented(cfg, p, 3, SlotCount);
    Split(cfg, p, 0, 3, SlotCount);
    Split(cfg, p, 2, 3, SlotCount);
    assert FullAt(cfg, p, 0, 2, 2);
    assert ImplementedIn(cfg, p, 2, 2) == [];
  }
}
