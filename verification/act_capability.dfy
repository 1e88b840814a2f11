/**
  Capability reporting for TPM2_GetCapability(TPM_CAP_ACT): a paged,
  ascending scan of the implemented ACTs, and the single-handle variant.

  `ImplementedIn` and `Page` are the reference description of a page: the
  implemented slots in ascending order, cut to the page size. The loop of
  `GetCapabilityData` is proved to produce exactly that.
 */
module ActCapability {
  import opened ActTypes
  import opened ActPlatform
  import opened ActSupport

  /** The TPMS_ACT_DATA reported for slot `act`: its handle, live count, live
      signaled output and preserved-signal bit. */
  function Entry(s: TpmState, act: Slot): (d: ActData)
    requires s.Valid()
  {
    ActData(HandleOf(act), s.platform.remaining[act], s.platform.signaled[act], act in s.preservedSignaled)
  }

  function Entries(s: TpmState, slots: seq<Slot>): (ds: seq<ActData>)
    requires s.Valid()
    ensures |ds| == |slots|
    ensures forall k :: 0 <= k < |slots| ==> ds[k] == Entry(s, slots[k])
  {
    seq(|slots|, k requires 0 <= k < |slots| => Entry(s, slots[k]))
  }

  /** The slots in `[lo, hi)` that `IsImplemented` accepts, ascending. */
  function ImplementedIn(cfg: Config, p: Platform, lo: nat, hi: nat): seq<Slot>
    requires hi <= SlotCount
    decreases hi
  {
    if hi <= lo then []
    else ImplementedIn(cfg, p, lo, hi - 1) + (if IsImplemented(cfg, p, hi - 1) then [hi - 1] else [])
  }

  /** Every slot listed lies in `[lo, hi)` and is implemented, and the list
      is strictly ascending. */
  lemma {:induction false} ImplementedInSound(cfg: Config, p: Platform, lo: nat, hi: nat)
    requires hi <= SlotCount
    ensures forall k :: 0 <= k < |ImplementedIn(cfg, p, lo, hi)| ==>
      lo <= ImplementedIn(cfg, p, lo, hi)[k] < hi && IsImplemented(cfg, p, ImplementedIn(cfg, p, lo, hi)[k])
    ensures forall k, l :: 0 <= k < l < |ImplementedIn(cfg, p, lo, hi)| ==>
      ImplementedIn(cfg, p, lo, hi)[k] < ImplementedIn(cfg, p, lo, hi)[l]
    decreases hi
  {
    if hi > lo {
      ImplementedInSound(cfg, p, lo, hi - 1);
      var r := ImplementedIn(cfg, p, lo, hi);
      var init := ImplementedIn(cfg, p, lo, hi - 1);
      if IsImplemented(cfg, p, hi - 1) {
        assert r == init + [hi - 1];
        assert forall k :: 0 <= k < |init| ==> r[k] == init[k];
      } else {
        assert r == init;
      }
      assert forall k :: 0 <= k < |r| ==> lo <= r[k] < hi && IsImplemented(cfg, p, r[k]);
    }
  }

  /** No implemented slot of `[lo, hi)` is missed. */
  lemma {:induction false} ImplementedInComplete(cfg: Config, p: Platform, lo: nat, hi: nat, j: Slot)
    requires hi <= SlotCount && lo <= j < hi && IsImplemented(cfg, p, j)
    ensures j in ImplementedIn(cfg, p, lo, hi)
    decreases hi
  {
    if j < hi - 1 {
      ImplementedInComplete(cfg, p, lo, hi - 1, j);
    }
  }

  /** A range with no implemented slot lists nothing. */
  lemma {:induction false} NoneImplemented(cfg: Config, p: Platform, lo: nat, hi: nat)
    requires hi <= SlotCount
    requires forall j: Slot :: lo <= j < hi ==> !IsImplemented(cfg, p, j)
    ensures ImplementedIn(cfg, p, lo, hi) == []
    decreases hi
  {
    if hi > lo {
      NoneImplemented(cfg, p, lo, hi - 1);
    }
  }

  /** The first `n` elements of `xs`, or all of them when there are fewer. */
  function Prefix<T>(xs: seq<T>, n: nat): (r: seq<T>)
    ensures |r| == if |xs| <= n then |xs| else n
    ensures r == xs[..|r|]
  {
    if |xs| <= n then xs else xs[..n]
  }

  /** MAX_ACT_DATA caps the page size a caller may ask for. */
  function PageLimit(cfg: Config, maxCount: u32): (limit: nat)
    ensures limit <= maxCount && limit <= cfg.maxActData
    ensures limit == maxCount || limit == cfg.maxActData
  {
    if maxCount > cfg.maxActData then cfg.maxActData else maxCount
  }

  /** The slots one page starting at slot `start` reports. */
  function Page(cfg: Config, p: Platform, start: Slot, limit: nat): seq<Slot> {
    Prefix(ImplementedIn(cfg, p, start, SlotCount), limit)
  }

  /** The "more data" answer of a scan from `start`: some slot at or after
      `start` that the PLATFORM implements was reached with the page already
      full. The build configuration is not consulted for this slot. */
  predicate MoreAfter(cfg: Config, p: Platform, start: Slot, limit: nat) {
    exists j: Slot :: start <= j && FullAt(cfg, p, start, limit, j)
  }

  /** Slot `j` is implemented by the platform and is reached with the page
      from `start` already holding `limit` entries. */
  predicate FullAt(cfg: Config, p: Platform, start: Slot, limit: nat, j: Slot) {
    j in p.implemented && |ImplementedIn(cfg, p, start, j)| >= limit
  }

  lemma AppendOne(cfg: Config, p: Platform, lo: nat, act: Slot)
    requires lo <= act
    ensures ImplementedIn(cfg, p, lo, act + 1) ==
      ImplementedIn(cfg, p, lo, act) + (if IsImplemented(cfg, p, act) then [act] else [])
  {
  }

  /** The implemented slots of `[lo, hi)` are those of `[lo, mid)` followed
      by those of `[mid, hi)`. */
  lemma {:induction false} Split(cfg: Config, p: Platform, lo: nat, mid: nat, hi: nat)
    requires lo <= mid <= hi <= SlotCount
    ensures ImplementedIn(cfg, p, lo, hi) == ImplementedIn(cfg, p, lo, mid) + ImplementedIn(cfg, p, mid, hi)
    decreases hi
  {
    if hi > mid {
      Split(cfg, p, lo, mid, hi - 1);
      var tail := if IsImplemented(cfg, p, hi - 1) then [hi - 1] else [];
      calc {
        ImplementedIn(cfg, p, lo, hi);
        ImplementedIn(cfg, p, lo, hi - 1) + tail;
        (ImplementedIn(cfg, p, lo, mid) + ImplementedIn(cfg, p, mid, hi - 1)) + tail;
        ImplementedIn(cfg, p, lo, mid) + (ImplementedIn(cfg, p, mid, hi - 1) + tail);
        ImplementedIn(cfg, p, lo, mid) + ImplementedIn(cfg, p, mid, hi);
      }
    }
  }

  /** Once the slots scanned so far fill the page, the rest of the scan
      leaves the page as it is. */
  lemma PageFixedOnceFull(cfg: Config, p: Platform, start: Slot, upto: nat, limit: nat)
    requires start <= upto <= SlotCount
    requires |ImplementedIn(cfg, p, start, upto)| >= limit
    ensures Page(cfg, p, start, limit) == Prefix(ImplementedIn(cfg, p, start, upto), limit)
  {
    Split(cfg, p, start, upto, SlotCount);
    var xs := ImplementedIn(cfg, p, start, upto);
    assert (xs + ImplementedIn(cfg, p, upto, SlotCount))[..limit] == xs[..limit];
  }

  /** One step of the scan: the page of `[start, act + 1)` extends the page of
      `[start, act)` by `act` exactly when that page is not yet full and `act`
      is implemented. */
  lemma ScanStep(cfg: Config, s: TpmState, start: Slot, act: Slot, limit: nat)
    requires s.Valid() && start <= act
    ensures var before := Prefix(ImplementedIn(cfg, s.platform, start, act), limit);
      var after := Prefix(ImplementedIn(cfg, s.platform, start, act + 1), limit);
      && (|before| < limit <==> |ImplementedIn(cfg, s.platform, start, act)| < limit)
      && (|before| < limit && IsImplemented(cfg, s.platform, act) ==>
            Entries(s, after) == Entries(s, before) + [Entry(s, act)])
      && (!(|before| < limit && IsImplemented(cfg, s.platform, act)) ==> after == before)
  {
  }

  /** `ActGetCapabilityData`. A start handle outside the ACT range gives NO
      and an empty list. Otherwise the list is the page of implemented slots
      from the start handle, at most `min(maxCount, MAX_ACT_DATA)` long and
      strictly ascending; YES means the page filled up before a later slot
      the platform implements. */
  method GetCapabilityData(cfg: Config, s: TpmState, actHandle: u32, maxCount: u32)
    returns (more: bool, list: seq<ActData>)
    requires s.Valid()
    ensures !(RhAct0 <= actHandle <= RhActF) ==> !more && list == []
    ensures RhAct0 <= actHandle <= RhActF ==>
      && list == Entries(s, Page(cfg, s.platform, actHandle - RhAct0, PageLimit(cfg, maxCount)))
      && (more <==> MoreAfter(cfg, s.platform, actHandle - RhAct0, PageLimit(cfg, maxCount)))
    ensures |list| <= maxCount && |list| <= cfg.maxActData
    ensures forall k :: 0 <= k < |list| ==>
      actHandle <= list[k].handle <= RhActF && IsImplemented(cfg, s.platform, ActIndex(list[k].handle))
    ensures forall k, l :: 0 <= k < l < |list| ==> list[k].handle < list[l].handle
  {
    list := [];
    if actHandle < RhAct0 || actHandle > RhActF {
      return false, list;
    }
    var limit := if maxCount > cfg.maxActData then cfg.maxActData else maxCount;
    ghost var start: Slot := actHandle - RhAct0;
    var handle := actHandle;
    while handle <= RhActF
      invariant actHandle <= handle <= RhActF + 1
      invariant list == Entries(s, Prefix(ImplementedIn(cfg, s.platform, start, handle - RhAct0), limit))
      invariant forall j: Slot :: start <= j < handle - RhAct0 ==> !FullAt(cfg, s.platform, start, limit, j)
    {
      var act: Slot := handle - RhAct0;
      ScanStep(cfg, s, start, act, limit);
      if |list| < limit {
        if IsImplemented(cfg, s.platform, act) {
          list := list + [Entry(s, act)];
        }
      } else {
        if GetImplemented(s.platform, act) {
          more := true;
          PageFixedOnceFull(cfg, s.platform, start, act, limit);
          assert FullAt(cfg, s.platform, start, limit, act);
          assert MoreAfter(cfg, s.platform, start, limit);
          assert list == Entries(s, Page(cfg, s.platform, start, limit));
          PageWellFormed(cfg, s, start, limit);
          return;
        }
      }
      handle := handle + 1;
    }
    more := false;
    assert handle - RhAct0 == SlotCount;
    assert limit == PageLimit(cfg, maxCount);
    assert !MoreAfter(cfg, s.platform, start, limit);
    assert list == Entries(s, Page(cfg, s.platform, start, limit));
    PageWellFormed(cfg, s, start, limit);
  }

  /** The entries of a page name implemented slots from `start` on, in
      strictly ascending handle order. */
  lemma PageWellFormed(cfg: Config, s: TpmState, start: Slot, limit: nat)
    requires s.Valid()
    ensures var list := Entries(s, Page(cfg, s.platform, start, limit));
      && |list| <= limit
      && (forall k :: 0 <= k < |list| ==>
            HandleOf(start) <= list[k].handle <= RhActF && IsImplemented(cfg, s.platform, ActIndex(list[k].handle)))
      && (forall k, l :: 0 <= k < l < |list| ==> list[k].handle < list[l].handle)
  {
    var xs := ImplementedIn(cfg, s.platform, start, SlotCount);
    ImplementedInSound(cfg, s.platform, start, SlotCount);
    var page := Page(cfg, s.platform, start, limit);
    assert page == xs[..|page|];
    var list := Entries(s, page);
    assert forall k :: 0 <= k < |list| ==> list[k].handle == HandleOf(page[k]) && page[k] == xs[k];
  }

  /** `ActGetOneCapability`: the data of one handle, if that ACT is implemented. */
  function GetOneCapability(cfg: Config, s: TpmState, handle: u32): (r: Option<ActData>)
    requires s.Valid()
    ensures r.Some? <==> IsImplemented(cfg, s.platform, ActIndex(handle))
    ensures r.Some? ==>
      && RhAct0 <= handle <= RhActF
      && r.value.handle == handle
      && r.value.timeout == s.platform.remaining[handle - RhAct0]
      && r.value.signaled == s.platform.signaled[handle - RhAct0]
      && (r.value.preserveSignaled <==> handle - RhAct0 in s.preservedSignaled)
  {
    var act := ActIndex(handle);
    if IsImplemented(cfg, s.platform, act) then Some(Entry(s, act)) else None
  }
}

/**
  What paging through TPM2_GetCapability(TPM_CAP_ACT) guarantees a caller who
  restarts each page just after the last handle of the previous one.
 */
module ActPaging {
  import opened ActTypes
  import opened ActPlatform
  import opened ActSupport
  import opened ActCapability

  /** The k-th implemented slot from `lo` is preceded by exactly k implemented
      slots: scanning `[lo, xs[k])` yields `xs[..k]`. */
  lemma IndexIsCount(cfg: Config, p: Platform, lo: nat, hi: nat, k: nat)
    requires hi <= SlotCount && k < |ImplementedIn(cfg, p, lo, hi)|
    ensures ImplementedIn(cfg, p, lo, ImplementedIn(cfg, p, lo, hi)[k]) == ImplementedIn(cfg, p, lo, hi)[..k]
  {
  }

  /** A scan that leaves implemented slots unreported answers YES. */
  lemma LeftoverMeansMore(cfg: Config, p: Platform, start: Slot, limit: nat)
    requires |ImplementedIn(cfg, p, start, SlotCount)| > limit
    ensures MoreAfter(cfg, p, start, limit)
  {
    var xs := ImplementedIn(cfg, p, start, SlotCount);
    IndexIsCount(cfg, p, start, SlotCount, limit);
    ImplementedInSound(cfg, p, start, SlotCount);
    assert FullAt(cfg, p, start, limit, xs[limit]);
  }

  /** A NO answer means the page holds every implemented slot from `start` on. */
  lemma NoMoreMeansLastPage(cfg: Config, p: Platform, start: Slot, limit: nat)
    requires !MoreAfter(cfg, p, start, limit)
    ensures Page(cfg, p, start, limit) == ImplementedIn(cfg, p, start, SlotCount)
  {
    if |ImplementedIn(cfg, p, start, SlotCount)| > limit {
      LeftoverMeansMore(cfg, p, start, limit);
    }
  }

  /** A YES answer comes with at least `limit` implemented slots, the last
      of the first `limit` lying before the last slot. */
  lemma MoreMeansFull(cfg: Config, p: Platform, start: Slot, limit: nat)
    requires limit > 0 && MoreAfter(cfg, p, start, limit)
    ensures |ImplementedIn(cfg, p, start, SlotCount)| >= limit
    ensures start <= ImplementedIn(cfg, p, start, SlotCount)[limit - 1] < SlotCount - 1
  {
    var xs := ImplementedIn(cfg, p, start, SlotCount);
    var j: Slot :| start <= j && FullAt(cfg, p, start, limit, j);
    var head := ImplementedIn(cfg, p, start, j);
    ImplementedInSound(cfg, p, start, j);
    ImplementedInSound(cfg, p, start, SlotCount);
    Split(cfg, p, start, j, SlotCount);
    assert xs[limit - 1] == head[limit - 1];
  }

  /** Scanning up to and including the k-th implemented slot yields the first
      k + 1 of them. */
  lemma ScanThrough(cfg: Config, p: Platform, start: Slot, k: nat)
    requires k < |ImplementedIn(cfg, p, start, SlotCount)|
    ensures ImplementedIn(cfg, p, start, ImplementedIn(cfg, p, start, SlotCount)[k] as nat + 1)
            == ImplementedIn(cfg, p, start, SlotCount)[..k + 1]
  {
    var xs := ImplementedIn(cfg, p, start, SlotCount);
    ImplementedInSound(cfg, p, start, SlotCount);
    IndexIsCount(cfg, p, start, SlotCount, k);
    AppendOne(cfg, p, start, xs[k]);
    assert xs[..k] + [xs[k]] == xs[..k + 1];
  }

  /** A YES answer comes with a full page, and the next page starts right after
      its last slot: the page followed by everything from there is everything
      from `start`, with nothing repeated or skipped. */
  lemma MoreMeansNextPage(cfg: Config, p: Platform, start: Slot, limit: nat)
    requires limit > 0 && MoreAfter(cfg, p, start, limit)
    ensures |Page(cfg, p, start, limit)| == limit
    ensures start <= Page(cfg, p, start, limit)[limit - 1] < SlotCount - 1
    ensures Page(cfg, p, start, limit) + ImplementedIn(cfg, p, Page(cfg, p, start, limit)[limit - 1] + 1, SlotCount)
            == ImplementedIn(cfg, p, start, SlotCount)
  {
    var xs := ImplementedIn(cfg, p, start, SlotCount);
    MoreMeansFull(cfg, p, start, limit);
    var last := xs[limit - 1];
    ScanThrough(cfg, p, start, limit - 1);
    Split(cfg, p, start, last + 1, SlotCount);
    assert Page(cfg, p, start, limit) == xs[..limit];
  }

  /** The slots a caller collects by paging from `start` until the answer is
      NO, each page restarting after the last slot of the previous one. */
  ghost function Pages(cfg: Config, p: Platform, start: Slot, limit: nat): seq<Slot>
    decreases SlotCount - start
  {
    if limit > 0 && MoreAfter(cfg, p, start, limit) then
      MoreMeansNextPage(cfg, p, start, limit);
      var page := Page(cfg, p, start, limit);
      page + Pages(cfg, p, page[limit - 1] + 1, limit)
    else
      Page(cfg, p, start, limit)
  }

  /** Paging with any non-zero page size reports every implemented slot from
      `start` on exactly once, in ascending order. */
  lemma {:induction false} PagingEnumeratesAll(cfg: Config, p: Platform, start: Slot, limit: nat)
    requires limit > 0
    ensures Pages(cfg, p, start, limit) == ImplementedIn(cfg, p, start, SlotCount)
    ensures forall k, l :: 0 <= k < l < |Pages(cfg, p, start, limit)| ==>
      Pages(cfg, p, start, limit)[k] < Pages(cfg, p, start, limit)[l]
    decreases SlotCount - start
  {
    if MoreAfter(cfg, p, start, limit) {
      MoreMeansNextPage(cfg, p, start, limit);
      var page := Page(cfg, p, start, limit);
      PagingEnumeratesAll(cfg, p, page[limit - 1] + 1, limit);
    } else {
      NoMoreMeansLastPage(cfg, p, start, limit);
    }
    ImplementedInSound(cfg, p, start, SlotCount);
  }
}
