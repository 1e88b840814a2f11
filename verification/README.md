# ACT support logic of the TPM 2.0 reference implementation, in Dafny

This project models the Authenticated Countdown Timer (ACT) support code of
the TPM 2.0 reference implementation (`ACT_spt.c`). It proves properties of
that model. An ACT is a hardware countdown addressed by a handle
`TPM_RH_ACT_0 .. TPM_RH_ACT_F`. Its slot number is `handle - TPM_RH_ACT_0`.
When the count reaches zero the ACT asserts a signal.

The model covers:

- the implementation query (`ActIsImplemented`);
- TPM2_Startup processing (`ActStartup`, `_ActResume`);
- orderly TPM2_Shutdown processing (`ActShutdown`, `_ActSaveState`), with
  the anti-replay halving of counts that were not updated since startup;
- the TPM2_ACT_SetTimeout gateway (`ActCounterUpdate`), with its
  not-implemented, NV-unavailable, retry and success outcomes;
- the TPM2_GetCapability(TPM_CAP_ACT) reporters (`ActGetCapabilityData`,
  `ActGetOneCapability`) and `ActGetSignaled`.

Layout:

- `act_types.dfy` (`ActTypes`): UINT32 values, slots, handle constants,
  `ACT_STATE`, `TPMS_ACT_DATA`, the build configuration, return codes. It
  also holds the UINT32 handle-to-slot arithmetic `ActIndex`.
- `act_platform.dfy` (`ActPlatform`): the platform layer `_plat__ACT_*` as
  abstract state. This state has the platform's set of implemented slots,
  the live counts and signaled outputs, the writes accepted but not yet
  latched, and the tick switch.
- `act_support.dfy` (`ActSupport`): the TPM state the code touches, plus
  startup, shutdown, the implementation query and the update gateway. Each
  is a pure transition function.
- `act_capability.dfy` (`ActCapability`, `ActPaging`): the capability scan
  as a method with loop invariants. It is proved equal to a reference
  definition: the implemented slots in ascending order, cut to the page
  size. `ActPaging` proves what a caller gets by paging through the list.
- `act_properties.dfy` (`ActProperties`): properties that span several
  operations. These include shutdown-then-resume, update-then-shutdown, and
  agreement between the two capability reporters. Two lemmas show the
  places where the code consults only the platform.

The three process-wide UINT16 bitmasks (`go.signaledACT`,
`go.preservedSignaled`, `s_ActUpdated`) are sets of slot numbers: bit `n`
is set exactly when `n` is in the set.

In three places the code behaves differently from what one might expect;
the model follows the code:

- Startup resumes, and shutdown saves, every compiled-in slot (the
  `FOR_EACH_ACT` set). It does not first ask the platform whether the slot
  is implemented.
- `ActCounterUpdate` accepts any slot the platform implements, even one
  the build does not enable. `UpdateIgnoresBuildConfiguration` shows this.
- The "more data" answer of the paged scan is YES when the page is full
  and a later slot is implemented by the platform alone. So YES can be
  followed by an empty page. `MoreIgnoresBuildConfiguration` shows this.

## Model

| member | source | states |
|---|---|---|
| ActTypes.ActIndex | TPMCmd/tpm/src/command/ClockTimer/ACT_spt.c:151 | The UINT32 subtraction `handle - TPM_RH_ACT_0` gives a slot number below 16 exactly for the ACT handles; every other handle wraps to an index no slot has |
| ActSupport.IsImplemented | TPMCmd/tpm/src/command/ClockTimer/ACT_spt.c:125-138 | An ACT number is implemented iff it is below 16, compiled in, and reported by the platform; any other value gives FALSE |
| ActSupport.ResumeAll | TPMCmd/tpm/src/command/ClockTimer/ACT_spt.c:23-33 | Resuming the compiled-in slots from `from` on changes only their pending writes and signaled outputs. A slot with a non-zero saved count gets a write of that count unless one is already pending. A slot with a zero count that is in `signaledACT` gets its output asserted. Nothing else changes |
| ActSupport.Startup | TPMCmd/tpm/src/command/ClockTimer/ACT_spt.c:37-71 | `preservedSignaled` becomes empty after power loss, otherwise its old value united with `signaledACT`, so no bit is dropped. Reset/Restart empties `signaledACT` and sets every compiled-in slot's policy to TPM_ALG_NULL with an empty digest. Resume leaves those alone and restarts exactly the compiled-in slots with a saved non-zero count, each at its saved count, and signals exactly the compiled-in slots with a zero count that were in `signaledACT`. Every startup empties the updated set, starts the ticks and returns TRUE |
| ActSupport.SavedRemaining | TPMCmd/tpm/src/command/ClockTimer/ACT_spt.c:78-86 | The saved count never exceeds the live count and is zero only when the live count is. It equals the live count for an updated slot, for UINT32_MAX and for counts 0 and 1. Otherwise it is the live count halved, rounded down |
| ActSupport.SaveAll | TPMCmd/tpm/src/command/ClockTimer/ACT_spt.c:76-89 | Saving the compiled-in slots from `from` on adds exactly those whose live output is signaled to `signaledACT`. It stores each one's halving-rule count and leaves every other snapshot alone |
| ActSupport.Shutdown | TPMCmd/tpm/src/command/ClockTimer/ACT_spt.c:102-120 | TPM_SU_STATE sets `signaledACT` to exactly the compiled-in slots whose live output is signaled. It stores each compiled-in slot's halving-rule count and keeps its policy. It changes nothing else. Any other shutdown changes nothing. Both return TRUE |
| ActSupport.GetSignaled | TPMCmd/tpm/src/command/ClockTimer/ACT_spt.c:93-98 | The result is the platform's live signaled output of the handle's slot |
| ActSupport.CounterUpdate | TPMCmd/tpm/src/command/ClockTimer/ACT_spt.c:143-180 | A slot the platform does not implement gives TPM_RC_VALUE. An orderly TPM whose NV cannot be written gives the NV status. A slot with a pending write gives TPM_RC_RETRY. Each of these leaves the state exactly as it was. Success happens iff none of these applies. It then adds the slot to the updated set, removes only that slot from `preservedSignaled`, sets `g_clearOrderly` and queues the new value for that slot; the rest of the platform state (implemented set, live counts, signaled outputs, other pending writes, tick switch) is unchanged |
| ActCapability.PageLimit | TPMCmd/tpm/src/command/ClockTimer/ACT_spt.c:199-201 | The page size is `maxCount` clamped to MAX_ACT_DATA: never above either, and equal to one of them |
| ActCapability.ImplementedInSound | TPMCmd/tpm/src/command/ClockTimer/ACT_spt.c:203-222 | The reference list of a scan holds only slots in the scanned range that pass the implementation query, in strictly ascending order |
| ActCapability.ImplementedInComplete | TPMCmd/tpm/src/command/ClockTimer/ACT_spt.c:203-222 | The reference list of a scan misses no implemented slot in the scanned range |
| ActCapability.GetCapabilityData | TPMCmd/tpm/src/command/ClockTimer/ACT_spt.c:187-233 | A start handle outside the ACT range gives NO and an empty list. Otherwise the list is the entries of the implemented slots from the start handle, in ascending order, cut to `min(maxCount, MAX_ACT_DATA)`. Each entry has the handle, live count, live signaled bit and preserved bit. The answer is YES iff some slot at or after the start that the platform implements is reached with the page full |
| ActCapability.PageWellFormed | TPMCmd/tpm/src/command/ClockTimer/ACT_spt.c:203-222 | A page has at most `limit` entries. They have strictly ascending handles at or after the start, and each names an implemented ACT |
| ActCapability.GetOneCapability | TPMCmd/tpm/src/command/ClockTimer/ACT_spt.c:237-257 | Data is returned iff the handle's slot is implemented. The data carries the handle itself, the live count, the live signaled output and the preserved-signal bit |
| ActPaging.IndexIsCount | TPMCmd/tpm/src/command/ClockTimer/ACT_spt.c:203-222 | The k-th implemented slot from the start is preceded by exactly k implemented slots, so the page count when the scan reaches it is k |
| ActPaging.LeftoverMeansMore | TPMCmd/tpm/src/command/ClockTimer/ACT_spt.c:224-228 | If more implemented slots exist than fit in the page, the answer is YES |
| ActPaging.NoMoreMeansLastPage | TPMCmd/tpm/src/command/ClockTimer/ACT_spt.c:230-232 | A NO answer means the page holds every implemented slot from the start handle on |
| ActPaging.MoreMeansNextPage | TPMCmd/tpm/src/command/ClockTimer/ACT_spt.c:224-228 | With a non-zero page size, YES means the page is full. The slot after its last entry is still an ACT, and the page followed by everything from there is everything from the start |
| ActPaging.PagingEnumeratesAll | TPMCmd/tpm/src/command/ClockTimer/ACT_spt.c:187-233 | Paging with a non-zero page size until NO, each page restarting after the previous page's last handle, reports every implemented slot exactly once, in ascending order |
| ActProperties.ShutdownThenResume | TPMCmd/tpm/src/command/ClockTimer/ACT_spt.c:27-32 | After TPM_SU_STATE shutdown and Resume without power loss, a compiled-in slot is counting again iff its live count was non-zero. An updated slot restarts from exactly its live count. Any other slot restarts from half of it, except that 1 and UINT32_MAX are kept. An expired signaled slot signals again. The signaled slots are added to `preservedSignaled` |
| ActProperties.UpdatedSlotIsNotHalved | TPMCmd/tpm/src/command/ClockTimer/ACT_spt.c:167-168 | After a successful update the next orderly save stores that slot's live count unhalved |
| ActProperties.StartupRearmsHalving | TPMCmd/tpm/src/command/ClockTimer/ACT_spt.c:66-68 | With no successful update since startup (the updated set a startup leaves empty), an orderly save strictly reduces every compiled-in count above 1 that is not UINT32_MAX |
| ActProperties.SignaledAgreesWithCapability | TPMCmd/tpm/src/command/ClockTimer/ACT_spt.c:248-251 | For an implemented ACT, `ActGetSignaled` and the signaled attribute of `ActGetOneCapability` agree |
| ActProperties.PageAgreesWithOneCapability | TPMCmd/tpm/src/command/ClockTimer/ACT_spt.c:210-221 | Every entry of a page equals what `ActGetOneCapability` returns for its handle |
| ActProperties.UpdateIgnoresBuildConfiguration | TPMCmd/tpm/src/command/ClockTimer/ACT_spt.c:152-154 | A slot the platform implements but the build does not fails the implementation query, yet its update succeeds |
| ActProperties.MoreIgnoresBuildConfiguration | TPMCmd/tpm/src/command/ClockTimer/ACT_spt.c:224-228 | Take one compiled-in slot and a second slot implemented only by the platform, with a page size of 1. The first page answers YES and the page after it is empty |
| ActProperties.ThreeSlotsInPagesOfTwo | TPMCmd/tpm/src/command/ClockTimer/ACT_spt.c:203-232 | With three implemented ACTs and a page size of 2, the first page holds ACT 0 and ACT 1 and answers YES. The page from ACT 2 holds ACT 2 and answers NO |

## Left out

- The platform layer `_plat__ACT_*` is not part of this model. It is
  abstract state. `_plat__ACT_UpdateCounter` refuses a write exactly while
  an earlier write to the same slot is pending. Otherwise it queues the
  write. How pending writes latch and how counts tick down are not
  modelled.
- `_plat__ACT_Initialize` is taken to reset every count to zero, drop
  every signaled output and pending write, and stop the ticks. This
  matches the source's comment that the ACT hardware is reset. Its return
  value is ignored, as in the source.
- The platform is assumed never to report a slot of 16 or more as
  implemented. So the C shifts `1 << act` only ever see `act < 16`.
- The return value of `_plat__ACT_UpdateCounter` inside `_ActResume` is
  ignored, as in the source. In the model that write is always accepted,
  because startup first drops all pending writes.
- The `RETURN_IF_NV_IS_NOT_AVAILABLE` macro and `NV_IS_ORDERLY` are not
  part of this model. They are the inputs `nvIsOrderly` and `nvStatus`.
  The macro returns the NV status code.
- `g_powerWasLost` is an input to `Startup`.
- MAX_ACT_DATA is defined outside `ACT_spt.c`. It is the configuration
  field `maxActData`.
- The TPMA_ACT bit layout and the `memset` of the attributes are not
  modelled. The two defined attributes are booleans.
- The TPM_RH_ACT_0/F and TPM_ALG_NULL values come from Part 2 of the TPM
  2.0 Library specification, not from `ACT_spt.c`.
- `acts` holds one snapshot per possible slot. The C code has one only for
  each compiled-in slot. Snapshots of other slots are never read or
  written.
- GetSignaled: requires an ACT handle, the only kind its callers pass.
  The platform's answer for other indices is not modelled.
- The `ACT_SUPPORT` compile switch is assumed on.
