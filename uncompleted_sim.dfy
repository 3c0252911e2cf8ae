/** The ten-pull simulation and the expected-featured projection of the
    uncompleted view (logic-uncompleted-sim.js). Seeds are read from a flat
    list by an explicit index; a draw first tests the featured item, and a
    pity draw (counter at 1) is a featured item that reads no seed. */
module UncompletedSim {
  import opened JsValues
  import opened Master
  import opened LogicCommon

  // ---------------------------------------------------------------------------
  // The ordinary slot
  // ---------------------------------------------------------------------------

  /** `gachaMaster[window.activeGachaId]?.rarityItems[r] || []`: the pools of
      the banner selected on the page, passed in as `active`. */
  function ActivePool(active: Option<Banner>, r: int): seq<ItemId>
  {
    if active.None? then [] else RarityPool(active.value, r)
  }

  /** What `calculateNormalRollResult` returns (the names and log text are
      left to the view). */
  datatype NormalRoll = NormalRoll(preRerollId: int, finalId: int, consumed: int, isReroll: bool)

  /** `pool[sSlot % poolSize]`, or -1 when the pool is empty. */
  function SlotItem(pool: seq<ItemId>, sSlot: int): int
  {
    if |pool| > 0 then pool[sSlot % |pool|] else -1
  }

  /** `calculateNormalRollResult(seeds, idx, thresholds, lastItemId)`: the
      rarity from seed idx, the item from seed idx+1, and a Rare repeating the
      last item (or any Rare under forced rerolls) re-drawn from seed idx+2
      among the other Rares of the pool. */
  function NormalRollResult(seeds: seq<bv32>, idx: int, th: Thresholds, lastItemId: int,
                            active: Option<Banner>, forced: bool): (r: Option<NormalRoll>)
    ensures r.None? <==> !(0 <= idx && idx + 1 < |seeds|)
    ensures r.Some? ==>
      var rarity := RarityFromRoll(Val(seeds[idx]) % 10000, th);
      var pool := ActivePool(active, rarity);
      var x := r.value;
      x.preRerollId == SlotItem(pool, Val(seeds[idx + 1])) &&
      (x.isReroll <==>
         rarity == 1 && |pool| > 1 && ((x.preRerollId != -1 && x.preRerollId == lastItemId) || forced) &&
         idx + 2 < |seeds| && |Without(pool, x.preRerollId)| > 0) &&
      x.consumed == (if x.isReroll then 3 else 2) && idx + x.consumed <= |seeds| &&
      (x.isReroll ==>
         var rePool := Without(pool, x.preRerollId);
         x.finalId == rePool[Val(seeds[idx + 2]) % |rePool|] && x.finalId != x.preRerollId && x.finalId in pool) &&
      (!x.isReroll ==> x.finalId == x.preRerollId)
  {
    if !(0 <= idx && idx + 1 < |seeds|) then None
    else
      var sRarity, sSlot := Val(seeds[idx]), Val(seeds[idx + 1]);
      var rarity := RarityFromRoll(sRarity % 10000, th);
      var pool := ActivePool(active, rarity);
      var itemId := SlotItem(pool, sSlot);
      var isDupe := itemId != -1 && itemId == lastItemId;
      if rarity == 1 && (isDupe || forced) && |pool| > 1 && idx + 2 < |seeds| then
        var rePool := Without(pool, itemId);
        if |rePool| > 0 then
          var finalId := rePool[Val(seeds[idx + 2]) % |rePool|];
          assert finalId in rePool;
          Some(NormalRoll(itemId, finalId, 3, true))
        else Some(NormalRoll(itemId, itemId, 2, false))
      else Some(NormalRoll(itemId, itemId, 2, false))
  }

  // ---------------------------------------------------------------------------
  // getFeaturedSeedResults
  // ---------------------------------------------------------------------------

  /** One featured test of a ten-pull: slot `index` (1-based) is a pity slot
      with no seed, or tests seed `seedIndex` (1-based). */
  datatype FeaturedSlot = FeaturedSlot(index: int, isFeatured: bool, isGuaranteed: bool, seedIndex: Option<int>)

  /** The featured tests and the number of seeds they read. */
  datatype FeaturedScan = FeaturedScan(results: seq<FeaturedSlot>, ptr: int)

  /** `seed % 10000 < featuredItemRate`. */
  predicate FeaturedHit(s: bv32, rate: int)
  {
    Val(s) % 10000 < rate
  }

  /** The loop of `getFeaturedSeedResults` from slot i on, with the seed
      cursor, the counter (None when the guarantee is inactive) and the
      slots so far. */
  function FeaturedLoop(seeds: seq<bv32>, rate: int, gCycle: int, i: int, ptr: int, ng: Option<int>,
                        acc: seq<FeaturedSlot>): FeaturedScan
    requires 1 <= i <= 11
    decreases 11 - i, |seeds| - ptr
  {
    if i > 10 then FeaturedScan(acc, ptr)
    else if ng == Some(1) then
      FeaturedLoop(seeds, rate, gCycle, i + 1, ptr, TickCounter(ng, gCycle), acc + [FeaturedSlot(i, false, true, None)])
    else if !(0 <= ptr < |seeds|) then FeaturedScan(acc, ptr)
    else
      FeaturedLoop(seeds, rate, gCycle, i + 1, ptr + 1, TickCounter(ng, gCycle),
                   acc + [FeaturedSlot(i, FeaturedHit(seeds[ptr], rate), false, Some(ptr + 1))])
  }

  /** `getFeaturedSeedResults(seeds, gacha, ngVal, isGuaranteedActive)`, the
      counter being None exactly when the guarantee is inactive. */
  function FeaturedSeedResults(seeds: seq<bv32>, b: Banner, ng: Option<int>): FeaturedScan
  {
    FeaturedLoop(seeds, b.featuredItemRate, CycleOr(b, 10), 1, 0, ng, [])
  }

  method GetFeaturedSeedResults(seeds: seq<bv32>, b: Banner, ngVal: Option<int>) returns (scan: FeaturedScan)
    ensures scan == FeaturedSeedResults(seeds, b, ngVal)
  {
    var featuredResults: seq<FeaturedSlot> := [];
    var gCycle := CycleOr(b, 10);
    var featuredSeedPtr := 0;
    var internalNg := ngVal;
    var i := 1;
    while i <= 10
      invariant 1 <= i <= 11 && 0 <= featuredSeedPtr
      invariant FeaturedLoop(seeds, b.featuredItemRate, gCycle, i, featuredSeedPtr, internalNg, featuredResults)
             == FeaturedSeedResults(seeds, b, ngVal)
    {
      var isGuaranteedRoll := internalNg == Some(1);
      if isGuaranteedRoll {
        featuredResults := featuredResults + [FeaturedSlot(i, false, true, None)];
      } else {
        if featuredSeedPtr >= |seeds| {
          break;
        }
        var sVal := seeds[featuredSeedPtr];
        var isFeatured := Val(sVal) % 10000 < b.featuredItemRate;
        featuredResults := featuredResults + [FeaturedSlot(i, isFeatured, false, Some(featuredSeedPtr + 1))];
        featuredSeedPtr := featuredSeedPtr + 1;
      }
      internalNg := TickCounter(internalNg, gCycle);
      i := i + 1;
    }
    scan := FeaturedScan(featuredResults, featuredSeedPtr);
  }

  /** Slots that read a seed. */
  function SeedSlots(fs: seq<FeaturedSlot>): nat
  {
    if fs == [] then 0 else SeedSlots(fs[..|fs| - 1]) + (if fs[|fs| - 1].isGuaranteed then 0 else 1)
  }

  /** Every non-pity slot reads the next unread seed: its seed number is the
      count of seed-reading slots up to and including it. */
  predicate SeedsInOrder(fs: seq<FeaturedSlot>)
    decreases |fs|
  {
    fs == [] ||
    (SeedsInOrder(fs[..|fs| - 1]) &&
     (!fs[|fs| - 1].isGuaranteed ==> fs[|fs| - 1].seedIndex == Some(SeedSlots(fs))))
  }

  /** Slot k of slots read in order reads seed number SeedSlots(fs[..k + 1]). */
  lemma {:induction false} SeedsInOrderAt(fs: seq<FeaturedSlot>, k: int)
    requires SeedsInOrder(fs) && 0 <= k < |fs|
    ensures !fs[k].isGuaranteed ==> fs[k].seedIndex == Some(SeedSlots(fs[..k + 1]))
    decreases |fs|
  {
    var init := fs[..|fs| - 1];
    if k == |fs| - 1 {
      assert fs[..k + 1] == fs;
    } else {
      SeedsInOrderAt(init, k);
      assert init[..k + 1] == fs[..k + 1];
      assert init[k] == fs[k];
    }
  }

  /** A well-formed slot k of a scan: its index is k+1; a pity slot reads no
      seed and is not a featured hit; any other slot reads seed j (1-based,
      within the cursor) and is a hit exactly when that seed passes the
      rate test. */
  predicate SlotOk(seeds: seq<bv32>, rate: int, s: FeaturedSlot, k: int, ptr: int)
  {
    s.index == k + 1 &&
    (s.isGuaranteed ==> s.seedIndex.None? && !s.isFeatured) &&
    (!s.isGuaranteed ==>
       s.seedIndex.Some? && 1 <= s.seedIndex.value <= ptr && s.seedIndex.value <= |seeds| &&
       s.isFeatured == FeaturedHit(seeds[s.seedIndex.value - 1], rate))
  }

  /** The scan from slot i on, whose outcome is passed in as `r`, extends
      the well-formed slots so far. */
  lemma {:induction false} FeaturedLoopShape(seeds: seq<bv32>, rate: int, gCycle: int, i: int, ptr: int,
                                             ng: Option<int>, acc: seq<FeaturedSlot>, r: FeaturedScan)
    requires 1 <= i <= 11 && 0 <= ptr <= |seeds| && |acc| == i - 1 && SeedSlots(acc) == ptr
    requires forall k :: 0 <= k < |acc| ==> SlotOk(seeds, rate, acc[k], k, ptr)
    requires SeedsInOrder(acc)
    requires r == FeaturedLoop(seeds, rate, gCycle, i, ptr, ng, acc)
    ensures |acc| <= |r.results| <= 10 && r.results[..|acc|] == acc
    ensures ptr <= r.ptr <= |seeds| && r.ptr == SeedSlots(r.results)
    ensures forall k :: 0 <= k < |r.results| ==> SlotOk(seeds, rate, r.results[k], k, r.ptr)
    ensures SeedsInOrder(r.results)
    ensures |seeds| - ptr >= 11 - i ==> |r.results| == 10
    decreases 11 - i
  {
    if i <= 10 && (ng == Some(1) || ptr < |seeds|) {
      var slot := if ng == Some(1) then FeaturedSlot(i, false, true, None)
                  else FeaturedSlot(i, FeaturedHit(seeds[ptr], rate), false, Some(ptr + 1));
      var ptr' := if ng == Some(1) then ptr else ptr + 1;
      var acc' := acc + [slot];
      SlotsExtend(seeds, rate, acc, ptr, slot, ptr');
      FeaturedLoopShape(seeds, rate, gCycle, i + 1, ptr', TickCounter(ng, gCycle), acc', r);
      assert r.results[..|acc|] == r.results[..|acc'|][..|acc|];
    } else {
      assert acc[..|acc|] == acc;
    }
  }

  /** Appending a well-formed slot keeps the slots well-formed, under the
      cursor the slot leaves. */
  lemma SlotsExtend(seeds: seq<bv32>, rate: int, acc: seq<FeaturedSlot>, ptr: int, slot: FeaturedSlot, ptr': int)
    requires SeedSlots(acc) == ptr <= ptr'
    requires forall k :: 0 <= k < |acc| ==> SlotOk(seeds, rate, acc[k], k, ptr)
    requires SlotOk(seeds, rate, slot, |acc|, ptr')
    requires ptr' == ptr + (if slot.isGuaranteed then 0 else 1)
    requires SeedsInOrder(acc) && (!slot.isGuaranteed ==> slot.seedIndex == Some(ptr'))
    ensures SeedSlots(acc + [slot]) == ptr'
    ensures forall k :: 0 <= k < |acc| + 1 ==> SlotOk(seeds, rate, (acc + [slot])[k], k, ptr')
    ensures SeedsInOrder(acc + [slot])
  {
    var acc' := acc + [slot];
    assert acc'[..|acc'| - 1] == acc;
  }

  /** The featured tests of a ten-pull: at most ten slots, numbered 1.., the
      pity slots read no seed and the others read seeds 1, 2, ... in order,
      so the cursor is the number of non-pity slots; with ten seeds or more
      all ten slots are tested. */
  lemma FeaturedSeedResultsShape(seeds: seq<bv32>, b: Banner, ng: Option<int>)
    ensures var r := FeaturedSeedResults(seeds, b, ng);
      |r.results| <= 10 && 0 <= r.ptr <= |seeds| && r.ptr == SeedSlots(r.results) &&
      (forall k :: 0 <= k < |r.results| ==> SlotOk(seeds, b.featuredItemRate, r.results[k], k, r.ptr)) &&
      (forall k :: 0 <= k < |r.results| && !r.results[k].isGuaranteed ==>
         r.results[k].seedIndex == Some(SeedSlots(r.results[..k + 1]))) &&
      (|seeds| >= 10 ==> |r.results| == 10)
  {
    var r := FeaturedSeedResults(seeds, b, ng);
    FeaturedLoopShape(seeds, b.featuredItemRate, CycleOr(b, 10), 1, 0, ng, [], r);
    forall k | 0 <= k < |r.results| && !r.results[k].isGuaranteed
      ensures r.results[k].seedIndex == Some(SeedSlots(r.results[..k + 1]))
    {
      SeedsInOrderAt(r.results, k);
    }
  }

  // ---------------------------------------------------------------------------
  // calculateTenPullDetailedLogic
  // ---------------------------------------------------------------------------

  /** One result of a ten-pull: a pity item, a featured item, or an ordinary
      item (rerolled or not). Featured results carry the id -2. */
  datatype PullResult = PullResult(isGuaranteed: bool, isFeatured: bool, isReroll: bool, itemId: int)

  /** The draws of a ten-pull and the state they end in. */
  datatype Pulls = Pulls(results: seq<PullResult>, featuredCount: nat, consumedCount: int, lastItemId: int,
                         nextNg: Option<int>)

  /** What `calculateTenPullDetailedLogic` returns (log and label text left
      to the view). */
  datatype TenPull = TenPull(featured: FeaturedScan, results: seq<PullResult>, featuredCountInCycle: nat,
                             consumedCount: int, lastItemId: int, nextNgVal: Option<int>)

  /** The `for (r …)` loop of `calculateTenPullDetailedLogic` from roll r on. */
  function PullLoop(seeds: seq<bv32>, th: Thresholds, active: Option<Banner>, forced: bool, gCycle: int,
                    fres: seq<FeaturedSlot>, r: int, idx: int, lastId: int, count: nat, ng: Option<int>,
                    acc: seq<PullResult>): Pulls
    requires 1 <= r <= 11
    decreases 11 - r, |seeds| - idx
  {
    if r > 10 || r - 1 >= |fres| then Pulls(acc, count, idx, lastId, ng)
    else
      var f := fres[r - 1];
      if f.isGuaranteed then
        PullLoop(seeds, th, active, forced, gCycle, fres, r + 1, idx, -2, count + 1, TickCounter(ng, gCycle),
                 acc + [PullResult(true, false, false, -2)])
      else if f.isFeatured then
        PullLoop(seeds, th, active, forced, gCycle, fres, r + 1, idx, -2, count + 1, TickCounter(ng, gCycle),
                 acc + [PullResult(false, true, false, -2)])
      else
        var roll := NormalRollResult(seeds, idx, th, lastId, active, forced);
        if roll.None? then Pulls(acc, count, idx, lastId, ng)
        else
          PullLoop(seeds, th, active, forced, gCycle, fres, r + 1, idx + roll.value.consumed, roll.value.finalId,
                   count, TickCounter(ng, gCycle), acc + [PullResult(false, false, roll.value.isReroll, roll.value.finalId)])
  }

  /** `calculateTenPullDetailedLogic(seeds, gacha, thresholds, ngVal,
      initialLastRollId)`: the featured tests first, then the draws, whose
      ordinary slots read seeds from the end of the featured prefix on. */
  function TenPullDetailed(seeds: seq<bv32>, b: Banner, th: Thresholds, ngVal: Option<int>,
                           initialLastRollId: Option<ItemId>, active: Option<Banner>, forced: bool): TenPull
  {
    var fs := FeaturedSeedResults(seeds, b, ngVal);
    var p := PullLoop(seeds, th, active, forced, CycleOr(b, 10), fs.results, 1, fs.ptr,
                      OrMinusOne(initialLastRollId), 0, ngVal, []);
    TenPull(fs, p.results, p.featuredCount, p.consumedCount, p.lastItemId, p.nextNg)
  }

  method CalculateTenPullDetailedLogic(seeds: seq<bv32>, b: Banner, th: Thresholds, ngVal: Option<int>,
                                       initialLastRollId: Option<ItemId>, active: Option<Banner>, forced: bool)
    returns (t: TenPull)
    ensures t == TenPullDetailed(seeds, b, th, ngVal, initialLastRollId, active, forced)
  {
    var fs := GetFeaturedSeedResults(seeds, b, ngVal);
    var p := RunPullLoop(seeds, th, active, forced, CycleOr(b, 10), fs.results, fs.ptr,
                         OrMinusOne(initialLastRollId), ngVal);
    t := TenPull(fs, p.results, p.featuredCount, p.consumedCount, p.lastItemId, p.nextNg);
  }

  /** The `for (let r = 1; r <= 10; r++)` loop of `calculateTenPullDetailedLogic`. */
  method RunPullLoop(seeds: seq<bv32>, th: Thresholds, active: Option<Banner>, forced: bool, gCycle: int,
                     fres: seq<FeaturedSlot>, startIdx: int, startLastId: int, ngVal: Option<int>)
    returns (p: Pulls)
    ensures p == PullLoop(seeds, th, active, forced, gCycle, fres, 1, startIdx, startLastId, 0, ngVal, [])
  {
    var currentSeedIndex := startIdx;
    var lastItemId := startLastId;
    var featuredCountInCycle: nat := 0;
    var currentNg := ngVal;
    var results: seq<PullResult> := [];
    ghost var whole := PullLoop(seeds, th, active, forced, gCycle, fres, 1, startIdx, startLastId, 0, ngVal, []);
    var r := 1;
    while r <= 10
      invariant 1 <= r <= 11
      invariant PullLoop(seeds, th, active, forced, gCycle, fres, r, currentSeedIndex, lastItemId,
                         featuredCountInCycle, currentNg, results) == whole
    {
      if r - 1 >= |fres| {
        break;
      }
      var stop, idx', lastId', count', ng', results' :=
        PullSlot(seeds, th, active, forced, gCycle, fres, r, currentSeedIndex, lastItemId, featuredCountInCycle,
                 currentNg, results);
      if stop {
        break;
      }
      currentSeedIndex, lastItemId, featuredCountInCycle, currentNg, results := idx', lastId', count', ng', results';
      r := r + 1;
    }
    p := Pulls(results, featuredCountInCycle, currentSeedIndex, lastItemId, currentNg);
  }

  /** One pass of that loop: slot r is a pity result, a featured result, or
      an ordinary draw; `stop` says the seeds ran out. */
  method PullSlot(seeds: seq<bv32>, th: Thresholds, active: Option<Banner>, forced: bool, gCycle: int,
                  fres: seq<FeaturedSlot>, r: int, idx: int, lastId: int, count: nat, ng: Option<int>,
                  acc: seq<PullResult>)
    returns (stop: bool, idx': int, lastId': int, count': nat, ng': Option<int>, acc': seq<PullResult>)
    requires 1 <= r <= 10 && r - 1 < |fres|
    ensures stop ==> PullLoop(seeds, th, active, forced, gCycle, fres, r, idx, lastId, count, ng, acc)
                     == Pulls(acc, count, idx, lastId, ng)
    ensures !stop ==> PullLoop(seeds, th, active, forced, gCycle, fres, r, idx, lastId, count, ng, acc)
                      == PullLoop(seeds, th, active, forced, gCycle, fres, r + 1, idx', lastId', count', ng', acc')
  {
    stop, idx', lastId', count', acc' := false, idx, lastId, count, acc;
    var fRes := fres[r - 1];
    if fRes.isGuaranteed {
      acc' := acc + [PullResult(true, false, false, -2)];
      lastId' := -2;
      count' := count + 1;
    } else if fRes.isFeatured {
      acc' := acc + [PullResult(false, true, false, -2)];
      lastId' := -2;
      count' := count + 1;
    } else {
      var roll := NormalRollResult(seeds, idx, th, lastId, active, forced);
      if roll.None? {
        stop := true;
        ng' := ng;
        return;
      }
      acc' := acc + [PullResult(false, false, roll.value.isReroll, roll.value.finalId)];
      idx' := idx + roll.value.consumed;
      lastId' := roll.value.finalId;
    }
    ng' := TickCounter(ng, gCycle);
  }

  /** Pity and featured results among the results. */
  function FeaturedHits(rs: seq<PullResult>): nat
  {
    if rs == [] then 0
    else FeaturedHits(rs[..|rs| - 1]) + (if rs[|rs| - 1].isGuaranteed || rs[|rs| - 1].isFeatured then 1 else 0)
  }

  /** The draws `p` extend `acc` to at most ten results, count its pity and
      featured results, and end at a seed index between `idx` and the
      number of seeds. */
  predicate PullsExtend(p: Pulls, acc: seq<PullResult>, idx: int, nSeeds: int)
  {
    |acc| <= |p.results| <= 10 && p.results[..|acc|] == acc &&
    p.featuredCount == FeaturedHits(p.results) && idx <= p.consumedCount <= nSeeds
  }

  /** The loop from roll r on, whose outcome is passed in as `p`, keeps the
      shape of the draws so far. */
  lemma {:induction false} PullLoopShape(seeds: seq<bv32>, th: Thresholds, active: Option<Banner>, forced: bool,
                                         gCycle: int, fres: seq<FeaturedSlot>, r: int, idx: int, lastId: int,
                                         count: nat, ng: Option<int>, acc: seq<PullResult>, p: Pulls)
    requires 1 <= r <= 11 && |acc| == r - 1 && count == FeaturedHits(acc) && 0 <= idx <= |seeds|
    requires p == PullLoop(seeds, th, active, forced, gCycle, fres, r, idx, lastId, count, ng, acc)
    ensures PullsExtend(p, acc, idx, |seeds|)
    decreases 11 - r, 1
  {
    if !(r > 10 || r - 1 >= |fres|) {
      var f := fres[r - 1];
      if f.isGuaranteed || f.isFeatured {
        var res := if f.isGuaranteed then PullResult(true, false, false, -2) else PullResult(false, true, false, -2);
        PullLoopNext(seeds, th, active, forced, gCycle, fres, r, idx, lastId, count, ng, acc, res, idx, -2, count + 1, p);
      } else {
        var roll := NormalRollResult(seeds, idx, th, lastId, active, forced);
        if roll.Some? {
          PullLoopNext(seeds, th, active, forced, gCycle, fres, r, idx, lastId, count, ng, acc,
                       PullResult(false, false, roll.value.isReroll, roll.value.finalId),
                       idx + roll.value.consumed, roll.value.finalId, count, p);
        } else {
          assert p.results == acc;
        }
      }
    } else {
      assert p.results == acc;
    }
  }

  /** The step of PullLoopShape: once roll r has appended `res`, the rest of
      the loop, whose outcome is `p`, keeps the shape. */
  lemma {:induction false} PullLoopNext(seeds: seq<bv32>, th: Thresholds, active: Option<Banner>, forced: bool,
                                        gCycle: int, fres: seq<FeaturedSlot>, r: int, idx: int, lastId: int,
                                        count: nat, ng: Option<int>, acc: seq<PullResult>,
                                        res: PullResult, idx': int, lastId': int, count': nat, p: Pulls)
    requires 1 <= r <= 10 && |acc| == r - 1 && count == FeaturedHits(acc) && 0 <= idx <= idx' <= |seeds|
    requires count' == count + (if res.isGuaranteed || res.isFeatured then 1 else 0)
    requires p == PullLoop(seeds, th, active, forced, gCycle, fres, r + 1, idx', lastId', count',
                           TickCounter(ng, gCycle), acc + [res])
    ensures PullsExtend(p, acc, idx, |seeds|)
    decreases 11 - r, 0
  {
    var acc' := acc + [res];
    assert acc'[..|acc|] == acc;
    PullLoopShape(seeds, th, active, forced, gCycle, fres, r + 1, idx', lastId', count', TickCounter(ng, gCycle), acc', p);
    assert p.results[..|acc|] == p.results[..|acc'|][..|acc|];
  }

  /** A ten-pull yields at most ten results; its featured count is the number
      of pity and featured results; its ordinary draws read seeds only after
      the featured prefix, so it consumes at least that prefix and no more
      seeds than there are. */
  lemma TenPullShape(seeds: seq<bv32>, b: Banner, th: Thresholds, ngVal: Option<int>,
                     initialLastRollId: Option<ItemId>, active: Option<Banner>, forced: bool)
    ensures var t := TenPullDetailed(seeds, b, th, ngVal, initialLastRollId, active, forced);
      |t.results| <= 10 && t.featuredCountInCycle == FeaturedHits(t.results) <= 10 &&
      0 <= t.featured.ptr <= t.consumedCount <= |seeds|
  {
    var fs := FeaturedSeedResults(seeds, b, ngVal);
    FeaturedSeedResultsShape(seeds, b, ngVal);
    var p := PullLoop(seeds, th, active, forced, CycleOr(b, 10), fs.results, 1, fs.ptr,
                      OrMinusOne(initialLastRollId), 0, ngVal, []);
    PullLoopShape(seeds, th, active, forced, CycleOr(b, 10), fs.results, 1, fs.ptr,
                  OrMinusOne(initialLastRollId), 0, ngVal, [], p);
    var t := TenPullDetailed(seeds, b, th, ngVal, initialLastRollId, active, forced);
    FeaturedHitsBound(t.results);
  }

  lemma {:induction false} FeaturedHitsBound(rs: seq<PullResult>)
    ensures FeaturedHits(rs) <= |rs|
  {
    if rs != [] {
      FeaturedHitsBound(rs[..|rs| - 1]);
    }
  }

  // ---------------------------------------------------------------------------
  // calculateTenPullsOverCycles
  // ---------------------------------------------------------------------------

  /** One ten-pull of the chain with the state it started from. */
  datatype CycleResult = CycleResult(cycle: int, pull: TenPull, startNgVal: Option<int>,
                                     startLastRollId: Option<ItemId>)

  /** `seeds.slice(0, 50)`. */
  function Head50(s: seq<bv32>): seq<bv32>
  {
    if |s| <= 50 then s else s[..50]
  }

  /** The loop of `calculateTenPullsOverCycles` from cycle c on, over the seeds
      not yet consumed. */
  function CyclesLoop(cur: seq<bv32>, b: Banner, th: Thresholds, active: Option<Banner>, forced: bool,
                      c: int, nCycles: int, lastId: Option<ItemId>, ng: Option<int>,
                      acc: seq<CycleResult>): seq<CycleResult>
    decreases nCycles - c, |cur|
  {
    if c > nCycles || |cur| < 1 then acc
    else
      var res := TenPullDetailed(Head50(cur), b, th, ng, lastId, active, forced);
      TenPullShape(Head50(cur), b, th, ng, lastId, active, forced);
      CyclesLoop(cur[res.consumedCount..], b, th, active, forced, c + 1, nCycles, Some(res.lastItemId), res.nextNgVal,
                 acc + [CycleResult(c, res, ng, lastId)])
  }

  /** `calculateTenPullsOverCycles(seeds, gacha, thresholds, initialNgVal,
      initialLastRollId, nCycles)`, the counter already read ('none' or a
      value that is not a number being None). */
  function TenPullsOverCycles(seeds: seq<bv32>, b: Banner, th: Thresholds, initialNg: Option<int>,
                              initialLastRollId: Option<ItemId>, active: Option<Banner>, forced: bool,
                              nCycles: int): seq<CycleResult>
  {
    CyclesLoop(seeds, b, th, active, forced, 1, nCycles, initialLastRollId, initialNg, [])
  }

  method CalculateTenPullsOverCycles(seeds: seq<bv32>, b: Banner, th: Thresholds, initialNg: Option<int>,
                                     initialLastRollId: Option<ItemId>, active: Option<Banner>, forced: bool,
                                     nCycles: int)
    returns (cycleResults: seq<CycleResult>)
    ensures cycleResults == TenPullsOverCycles(seeds, b, th, initialNg, initialLastRollId, active, forced, nCycles)
  {
    var currentSeedArray := seeds;
    var currentLastRollId := initialLastRollId;
    var currentNgVal := initialNg;
    cycleResults := [];
    var c := 1;
    while c <= nCycles
      invariant CyclesLoop(currentSeedArray, b, th, active, forced, c, nCycles, currentLastRollId, currentNgVal,
                           cycleResults)
             == TenPullsOverCycles(seeds, b, th, initialNg, initialLastRollId, active, forced, nCycles)
      decreases nCycles - c
    {
      if |currentSeedArray| < 1 {
        break;
      }
      var res := CalculateTenPullDetailedLogic(Head50(currentSeedArray), b, th, currentNgVal, currentLastRollId,
                                               active, forced);
      TenPullShape(Head50(currentSeedArray), b, th, currentNgVal, currentLastRollId, active, forced);
      cycleResults := cycleResults + [CycleResult(c, res, currentNgVal, currentLastRollId)];
      currentSeedArray := currentSeedArray[res.consumedCount..];
      currentLastRollId := Some(res.lastItemId);
      currentNgVal := res.nextNgVal;
      c := c + 1;
    }
  }

  /** The seeds the cycles of rs consumed together: where the next cycle's
      slice starts. */
  function Offset(rs: seq<CycleResult>): int
    decreases |rs|
  {
    if rs == [] then 0 else Offset(rs[..|rs| - 1]) + rs[|rs| - 1].pull.consumedCount
  }

  /** Each cycle of rs is the ten-pull, from its own start counter and last
      item, of the first 50 seeds left after the cycles before it. */
  predicate PullsOnResidue(seeds: seq<bv32>, b: Banner, th: Thresholds, active: Option<Banner>, forced: bool,
                           rs: seq<CycleResult>)
    decreases |rs|
  {
    rs == [] ||
    (var init, x := rs[..|rs| - 1], rs[|rs| - 1];
     PullsOnResidue(seeds, b, th, active, forced, init) && 0 <= Offset(init) <= |seeds| &&
     x.pull == TenPullDetailed(Head50(seeds[Offset(init)..]), b, th, x.startNgVal, x.startLastRollId, active, forced))
  }

  /** Cycle k of rs runs on the seeds left after cycles 0..k-1. */
  lemma {:induction false} PullsOnResidueAt(seeds: seq<bv32>, b: Banner, th: Thresholds, active: Option<Banner>,
                                            forced: bool, rs: seq<CycleResult>, k: int)
    requires PullsOnResidue(seeds, b, th, active, forced, rs) && 0 <= k < |rs|
    ensures 0 <= Offset(rs[..k]) <= |seeds|
    ensures rs[k].pull == TenPullDetailed(Head50(seeds[Offset(rs[..k])..]), b, th, rs[k].startNgVal,
                                          rs[k].startLastRollId, active, forced)
    decreases |rs|
  {
    var init := rs[..|rs| - 1];
    if k == |rs| - 1 {
      assert rs[..k] == init;
    } else {
      PullsOnResidueAt(seeds, b, th, active, forced, init, k);
      assert init[..k] == rs[..k];
      assert init[k] == rs[k];
    }
  }

  /** Appending a cycle moves the residue past the seeds it consumed. */
  lemma ResidueAdvance(seeds: seq<bv32>, acc: seq<CycleResult>, x: CycleResult)
    requires 0 <= Offset(acc) && 0 <= x.pull.consumedCount <= |seeds| - Offset(acc)
    ensures 0 <= Offset(acc + [x]) <= |seeds|
    ensures seeds[Offset(acc)..][x.pull.consumedCount..] == seeds[Offset(acc + [x])..]
  {
    OffsetSnoc(acc, x);
  }

  lemma OffsetSnoc(acc: seq<CycleResult>, x: CycleResult)
    ensures Offset(acc + [x]) == Offset(acc) + x.pull.consumedCount
  {
    assert (acc + [x])[..|acc|] == acc;
  }

  lemma ResidueSnoc(seeds: seq<bv32>, b: Banner, th: Thresholds, active: Option<Banner>, forced: bool,
                    acc: seq<CycleResult>, x: CycleResult)
    requires PullsOnResidue(seeds, b, th, active, forced, acc) && 0 <= Offset(acc) <= |seeds|
    requires x.pull == TenPullDetailed(Head50(seeds[Offset(acc)..]), b, th, x.startNgVal, x.startLastRollId,
                                       active, forced)
    ensures PullsOnResidue(seeds, b, th, active, forced, acc + [x])
  {
    assert (acc + [x])[..|acc|] == acc;
  }

  lemma {:induction false} CyclesLoopShape(cur: seq<bv32>, b: Banner, th: Thresholds, active: Option<Banner>,
                                           forced: bool, c: int, nCycles: int, lastId: Option<ItemId>,
                                           ng: Option<int>, acc: seq<CycleResult>, rs: seq<CycleResult>,
                                           seeds: seq<bv32>)
    requires c >= 1 && |acc| == c - 1
    requires PullsOnResidue(seeds, b, th, active, forced, acc)
    requires 0 <= Offset(acc) <= |seeds| && cur == seeds[Offset(acc)..]
    requires forall k :: 0 <= k < |acc| ==> acc[k].cycle == k + 1
    requires forall k :: 0 <= k < |acc| - 1 ==>
      acc[k + 1].startNgVal == acc[k].pull.nextNgVal && acc[k + 1].startLastRollId == Some(acc[k].pull.lastItemId)
    requires acc != [] ==> ng == acc[|acc| - 1].pull.nextNgVal && lastId == Some(acc[|acc| - 1].pull.lastItemId)
    requires rs == CyclesLoop(cur, b, th, active, forced, c, nCycles, lastId, ng, acc)
    ensures |acc| <= |rs| <= Max(|acc|, nCycles) && rs[..|acc|] == acc
    ensures |rs| > |acc| ==> rs[|acc|].startNgVal == ng && rs[|acc|].startLastRollId == lastId
    ensures forall k :: 0 <= k < |rs| ==> rs[k].cycle == k + 1
    ensures forall k :: 0 <= k < |rs| - 1 ==>
      rs[k + 1].startNgVal == rs[k].pull.nextNgVal && rs[k + 1].startLastRollId == Some(rs[k].pull.lastItemId)
    ensures PullsOnResidue(seeds, b, th, active, forced, rs) && 0 <= Offset(rs) <= |seeds|
    decreases nCycles - c
  {
    if c > nCycles || |cur| < 1 {
      assert rs == acc;
    } else {
      var res := TenPullDetailed(Head50(cur), b, th, ng, lastId, active, forced);
      var acc' := acc + [CycleResult(c, res, ng, lastId)];
      CyclesLoopUnfold(cur, b, th, active, forced, c, nCycles, lastId, ng, acc, res, acc', rs);
      CyclesAccExtend(acc, acc', c, res, ng, lastId);
      ResidueSnoc(seeds, b, th, active, forced, acc, CycleResult(c, res, ng, lastId));
      ResidueAdvance(seeds, acc, CycleResult(c, res, ng, lastId));
      CyclesLoopShape(cur[res.consumedCount..], b, th, active, forced, c + 1, nCycles, Some(res.lastItemId),
                      res.nextNgVal, acc', rs, seeds);
      PrefixSnoc(acc, CycleResult(c, res, ng, lastId), rs);
    }
  }

  /** Appending the next cycle keeps the numbering and the chaining. */
  lemma CyclesAccExtend(acc: seq<CycleResult>, acc': seq<CycleResult>, c: int, res: TenPull, ng: Option<int>,
                        lastId: Option<ItemId>)
    requires c >= 1 && |acc| == c - 1
    requires forall k :: 0 <= k < |acc| ==> acc[k].cycle == k + 1
    requires forall k :: 0 <= k < |acc| - 1 ==>
      acc[k + 1].startNgVal == acc[k].pull.nextNgVal && acc[k + 1].startLastRollId == Some(acc[k].pull.lastItemId)
    requires acc != [] ==> ng == acc[|acc| - 1].pull.nextNgVal && lastId == Some(acc[|acc| - 1].pull.lastItemId)
    requires acc' == acc + [CycleResult(c, res, ng, lastId)]
    ensures |acc'| == c
    ensures forall k :: 0 <= k < |acc'| ==> acc'[k].cycle == k + 1
    ensures forall k :: 0 <= k < |acc'| - 1 ==>
      acc'[k + 1].startNgVal == acc'[k].pull.nextNgVal && acc'[k + 1].startLastRollId == Some(acc'[k].pull.lastItemId)
  {
  }

  /** A sequence that starts with `acc + [x]` starts with `acc`, then `x`. */
  lemma PrefixSnoc<T>(acc: seq<T>, x: T, rs: seq<T>)
    requires |acc| + 1 <= |rs| && rs[..|acc| + 1] == acc + [x]
    ensures rs[..|acc|] == acc && rs[|acc|] == x
  {
    assert rs[..|acc|] == rs[..|acc| + 1][..|acc|];
    assert rs[|acc|] == rs[..|acc| + 1][|acc|];
  }

  /** One cycle of the loop, unfolded. */
  lemma CyclesLoopUnfold(cur: seq<bv32>, b: Banner, th: Thresholds, active: Option<Banner>, forced: bool, c: int,
                         nCycles: int, lastId: Option<ItemId>, ng: Option<int>, acc: seq<CycleResult>,
                         res: TenPull, acc': seq<CycleResult>, rs: seq<CycleResult>)
    requires !(c > nCycles || |cur| < 1)
    requires res == TenPullDetailed(Head50(cur), b, th, ng, lastId, active, forced)
    requires acc' == acc + [CycleResult(c, res, ng, lastId)]
    requires rs == CyclesLoop(cur, b, th, active, forced, c, nCycles, lastId, ng, acc)
    ensures 0 <= res.consumedCount <= |cur|
    ensures rs == CyclesLoop(cur[res.consumedCount..], b, th, active, forced, c + 1, nCycles, Some(res.lastItemId),
                             res.nextNgVal, acc')
  {
    TenPullShape(Head50(cur), b, th, ng, lastId, active, forced);
  }

  /** The chain holds at most nCycles ten-pulls numbered 1, 2, ...; the first
      starts from the given counter and last roll, and each next one starts
      from the counter and last item the previous one ended with, on the
      first 50 of the seeds the cycles before it left unconsumed. */
  lemma TenPullsOverCyclesChain(seeds: seq<bv32>, b: Banner, th: Thresholds, initialNg: Option<int>,
                                initialLastRollId: Option<ItemId>, active: Option<Banner>, forced: bool,
                                nCycles: int)
    ensures var rs := TenPullsOverCycles(seeds, b, th, initialNg, initialLastRollId, active, forced, nCycles);
      |rs| <= Max(0, nCycles) &&
      (|rs| > 0 ==> rs[0].startNgVal == initialNg && rs[0].startLastRollId == initialLastRollId) &&
      (forall k :: 0 <= k < |rs| ==> rs[k].cycle == k + 1) &&
      (forall k :: 0 <= k < |rs| - 1 ==>
         rs[k + 1].startNgVal == rs[k].pull.nextNgVal && rs[k + 1].startLastRollId == Some(rs[k].pull.lastItemId)) &&
      (forall k :: 0 <= k < |rs| ==>
         0 <= Offset(rs[..k]) <= |seeds| &&
         rs[k].pull == TenPullDetailed(Head50(seeds[Offset(rs[..k])..]), b, th, rs[k].startNgVal,
                                       rs[k].startLastRollId, active, forced))
  {
    var rs := TenPullsOverCycles(seeds, b, th, initialNg, initialLastRollId, active, forced, nCycles);
    assert seeds[0..] == seeds;
    CyclesLoopShape(seeds, b, th, active, forced, 1, nCycles, initialLastRollId, initialNg, [], rs, seeds);
    forall k | 0 <= k < |rs|
      ensures 0 <= Offset(rs[..k]) <= |seeds| &&
        rs[k].pull == TenPullDetailed(Head50(seeds[Offset(rs[..k])..]), b, th, rs[k].startNgVal,
                                      rs[k].startLastRollId, active, forced)
    {
      PullsOnResidueAt(seeds, b, th, active, forced, rs, k);
    }
  }

  // ---------------------------------------------------------------------------
  // simulateSingleRollsAndGetState
  // ---------------------------------------------------------------------------

  /** What `simulateSingleRollsAndGetState` returns. */
  datatype SingleState = SingleState(nextSeedIndex: int, nextNg: int, nextLastRollId: int)

  /** The starting counter: the given one when it is a positive number, else
      the cycle, so pity draws happen even without a counter. */
  function StartCounter(initialNg: Option<int>, gCycle: int): (c: int)
    ensures initialNg.Some? && initialNg.value > 0 ==> c == initialNg.value
    ensures !(initialNg.Some? && initialNg.value > 0) ==> c == gCycle
  {
    if initialNg.Some? && initialNg.value > 0 then initialNg.value else gCycle
  }

  /** One roll of the single-roll walk: the pity draw (counter at 1) reads no
      seed, a featured hit reads one, an ordinary draw two or three; None
      when the ordinary draw runs out of seeds. */
  function SingleRollStep(seeds: seq<bv32>, b: Banner, th: Thresholds, active: Option<Banner>, forced: bool,
                          idx: int, ng: int, lastId: int): (r: Option<SingleState>)
    requires 0 <= idx < |seeds|
    ensures r.Some? ==> r.value.nextNg == TickCounter(Some(ng), CycleOr(b, 10)).value
    ensures ng == 1 ==> r.Some? && r.value.nextSeedIndex == idx && r.value.nextLastRollId == -2
    ensures ng != 1 && FeaturedHit(seeds[idx], b.featuredItemRate) ==>
      r.Some? && r.value.nextSeedIndex == idx + 1 && r.value.nextLastRollId == -2
    ensures r.Some? ==> idx <= r.value.nextSeedIndex <= |seeds|
    ensures ng != 1 && !FeaturedHit(seeds[idx], b.featuredItemRate) ==>
      var roll := NormalRollResult(seeds, idx, th, lastId, active, forced);
      (r.None? <==> roll.None?) &&
      (r.Some? ==> r.value.nextSeedIndex == idx + roll.value.consumed && r.value.nextLastRollId == roll.value.finalId)
  {
    var ng' := TickCounter(Some(ng), CycleOr(b, 10)).value;
    if ng == 1 then Some(SingleState(idx, ng', -2))
    else if FeaturedHit(seeds[idx], b.featuredItemRate) then Some(SingleState(idx + 1, ng', -2))
    else
      var roll := NormalRollResult(seeds, idx, th, lastId, active, forced);
      if roll.None? then None else Some(SingleState(idx + roll.value.consumed, ng', roll.value.finalId))
  }

  /** The loop of `simulateSingleRollsAndGetState` from roll r on. */
  function SinglesLoop(seeds: seq<bv32>, b: Banner, th: Thresholds, active: Option<Banner>, forced: bool,
                       n: int, r: int, st: SingleState): SingleState
    requires 0 <= st.nextSeedIndex
    decreases n - r
  {
    if r > n || st.nextSeedIndex >= |seeds| then st
    else
      var next := SingleRollStep(seeds, b, th, active, forced, st.nextSeedIndex, st.nextNg, st.nextLastRollId);
      if next.None? then st else SinglesLoop(seeds, b, th, active, forced, n, r + 1, next.value)
  }

  /** `simulateSingleRollsAndGetState(n, seeds, initialNg, initialLastRoll, gacha, thresholds)`. */
  function SingleRollsState(n: int, seeds: seq<bv32>, initialNg: Option<int>, initialLastRoll: Option<ItemId>,
                            b: Banner, th: Thresholds, active: Option<Banner>, forced: bool): SingleState
  {
    SinglesLoop(seeds, b, th, active, forced, n, 1,
                SingleState(0, StartCounter(initialNg, CycleOr(b, 10)), OrMinusOne(initialLastRoll)))
  }

  /** One pass of the loop of `simulateSingleRollsAndGetState`; None where
      the loop breaks because the ordinary draw ran out of seeds. */
  method SingleRollOnce(seeds: seq<bv32>, b: Banner, th: Thresholds, active: Option<Banner>, forced: bool,
                        idx: int, ng: int, lastId: int)
    returns (r: Option<SingleState>)
    requires 0 <= idx < |seeds|
    ensures r == SingleRollStep(seeds, b, th, active, forced, idx, ng, lastId)
  {
    var gCycle := CycleOr(b, 10);
    var currentSeedIndex := idx;
    var lastItemId := lastId;
    var isFeatured := Val(seeds[currentSeedIndex]) % 10000 < b.featuredItemRate;
    var isGuaranteedRoll := ng == 1;
    if isGuaranteedRoll {
      lastItemId := -2;
    } else if isFeatured {
      currentSeedIndex := currentSeedIndex + 1;
      lastItemId := -2;
    } else {
      var roll := NormalRollResult(seeds, currentSeedIndex, th, lastItemId, active, forced);
      if roll.None? {
        return None;
      }
      currentSeedIndex := currentSeedIndex + roll.value.consumed;
      lastItemId := roll.value.finalId;
    }
    var currentNg := ng - 1;
    if currentNg <= 0 {
      currentNg := gCycle;
    }
    r := Some(SingleState(currentSeedIndex, currentNg, lastItemId));
  }

  method SimulateSingleRollsAndGetState(n: int, seeds: seq<bv32>, initialNg: Option<int>,
                                        initialLastRoll: Option<ItemId>, b: Banner, th: Thresholds,
                                        active: Option<Banner>, forced: bool)
    returns (st: SingleState)
    ensures st == SingleRollsState(n, seeds, initialNg, initialLastRoll, b, th, active, forced)
  {
    var gCycle := CycleOr(b, 10);
    var currentSeedIndex := 0;
    var currentNg := StartCounter(initialNg, gCycle);
    var lastItemId := OrMinusOne(initialLastRoll);
    var r := 1;
    while r <= n
      invariant 0 <= currentSeedIndex
      invariant SinglesLoop(seeds, b, th, active, forced, n, r, SingleState(currentSeedIndex, currentNg, lastItemId))
             == SingleRollsState(n, seeds, initialNg, initialLastRoll, b, th, active, forced)
      decreases n - r
    {
      if currentSeedIndex >= |seeds| {
        break;
      }
      var next := SingleRollOnce(seeds, b, th, active, forced, currentSeedIndex, currentNg, lastItemId);
      if next.None? {
        break;
      }
      currentSeedIndex, currentNg, lastItemId := next.value.nextSeedIndex, next.value.nextNg, next.value.nextLastRollId;
      r := r + 1;
    }
    st := SingleState(currentSeedIndex, currentNg, lastItemId);
  }

  /** The walk ends inside the seed list, after some k <= n rolls, its counter
      ticked k times from the start. */
  lemma {:induction false} SinglesLoopShape(seeds: seq<bv32>, b: Banner, th: Thresholds, active: Option<Banner>,
                                            forced: bool, n: int, r: int, st: SingleState)
    requires 0 <= st.nextSeedIndex <= |seeds|
    ensures var e := SinglesLoop(seeds, b, th, active, forced, n, r, st);
      st.nextSeedIndex <= e.nextSeedIndex <= |seeds| &&
      exists k: nat :: k <= Max(0, n - r + 1) && Some(e.nextNg) == TickN(Some(st.nextNg), CycleOr(b, 10), k)
    decreases n - r
  {
    var e := SinglesLoop(seeds, b, th, active, forced, n, r, st);
    if r > n || st.nextSeedIndex >= |seeds| {
      assert Some(e.nextNg) == TickN(Some(st.nextNg), CycleOr(b, 10), 0);
    } else {
      var next := SingleRollStep(seeds, b, th, active, forced, st.nextSeedIndex, st.nextNg, st.nextLastRollId);
      if next.None? {
        assert Some(e.nextNg) == TickN(Some(st.nextNg), CycleOr(b, 10), 0);
      } else {
        SinglesLoopShape(seeds, b, th, active, forced, n, r + 1, next.value);
        var k: nat :| k <= Max(0, n - r) && Some(e.nextNg) == TickN(Some(next.value.nextNg), CycleOr(b, 10), k);
        TickNShiftFront(st.nextNg, CycleOr(b, 10), k);
        assert Some(e.nextNg) == TickN(Some(st.nextNg), CycleOr(b, 10), k + 1);
      }
    }
  }

  /** Ticking once and then k times is ticking k+1 times. */
  lemma {:induction false} TickNShiftFront(c: int, gCycle: int, k: nat)
    ensures TickN(TickCounter(Some(c), gCycle), gCycle, k) == TickN(Some(c), gCycle, k + 1)
  {
    if k > 0 {
      TickNShiftFront(c, gCycle, k - 1);
    }
  }

  /** Without a counter the walk still draws a pity item: it starts at the
      cycle, so the roll after cycle-1 ticks reads 1. */
  lemma UnsetCounterStillPities(b: Banner, initialNg: Option<int>)
    requires initialNg.None? || initialNg.value <= 0
    ensures var g := CycleOr(b, 10);
      StartCounter(initialNg, g) == g && TickN(Some(StartCounter(initialNg, g)), g, g - 1) == Some(1)
  {
    CycleStartReachesPity(CycleOr(b, 10));
  }

  /** A counter started at the cycle reads 1 after cycle-1 ticks. */
  lemma CycleStartReachesPity(g: int)
    requires g >= 1
    ensures TickN(Some(g), g, g - 1) == Some(1)
  {
    CounterPeriodic(g, g, g - 1);
    assert (g - 1 - (g - 1)) % g == 0;
  }

  /** The walk ends within the seed list. */
  lemma SingleRollsStateInRange(n: int, seeds: seq<bv32>, initialNg: Option<int>, initialLastRoll: Option<ItemId>,
                                b: Banner, th: Thresholds, active: Option<Banner>, forced: bool)
    ensures var e := SingleRollsState(n, seeds, initialNg, initialLastRoll, b, th, active, forced);
      0 <= e.nextSeedIndex <= |seeds|
  {
    var st := SingleState(0, StartCounter(initialNg, CycleOr(b, 10)), OrMinusOne(initialLastRoll));
    SinglesLoopShape(seeds, b, th, active, forced, n, 1, st);
  }

  /** The walk ends with its counter in the cycle when it started there (or
      had no counter). */
  lemma SingleRollsStateShape(n: int, seeds: seq<bv32>, initialNg: Option<int>, initialLastRoll: Option<ItemId>,
                              b: Banner, th: Thresholds, active: Option<Banner>, forced: bool)
    requires initialNg.Some? ==> initialNg.value <= CycleOr(b, 10)
    ensures var e := SingleRollsState(n, seeds, initialNg, initialLastRoll, b, th, active, forced);
      0 <= e.nextSeedIndex <= |seeds| && 1 <= e.nextNg <= CycleOr(b, 10)
  {
    var g := CycleOr(b, 10);
    var st := SingleState(0, StartCounter(initialNg, g), OrMinusOne(initialLastRoll));
    SinglesLoopShape(seeds, b, th, active, forced, n, 1, st);
    var e := SingleRollsState(n, seeds, initialNg, initialLastRoll, b, th, active, forced);
    var k: nat :| k <= Max(0, n) && Some(e.nextNg) == TickN(Some(st.nextNg), g, k);
    CounterPeriodic(st.nextNg, g, k);
  }

  // ---------------------------------------------------------------------------
  // calculateExpectedFeaturedCounts
  // ---------------------------------------------------------------------------

  /** `seeds.slice(from, from + 50)` for 0 <= from <= |seeds|. */
  function Window50(seeds: seq<bv32>, from: int): seq<bv32>
    requires 0 <= from <= |seeds|
  {
    if from + 50 <= |seeds| then seeds[from..from + 50] else seeds[from..]
  }

  /** The expected featured count after n single rolls: the featured count of
      the ten-pull on the next 50 seeds, or 0 when fewer than ten remain. */
  function ExpectedAfter(seeds: seq<bv32>, b: Banner, th: Thresholds, n: int, initialNg: Option<int>,
                         initialLastRollId: Option<ItemId>, active: Option<Banner>, forced: bool): (c: nat)
    ensures c <= 10
    ensures var st := SingleRollsState(n, seeds, initialNg, initialLastRollId, b, th, active, forced);
      |seeds| - st.nextSeedIndex < 10 ==> c == 0
  {
    var st := SingleRollsState(n, seeds, initialNg, initialLastRollId, b, th, active, forced);
    SingleRollsStateInRange(n, seeds, initialNg, initialLastRollId, b, th, active, forced);
    var tenPullSeed := Window50(seeds, st.nextSeedIndex);
    if |tenPullSeed| < 10 then 0
    else
      TenPullShape(tenPullSeed, b, th, Some(st.nextNg), Some(st.nextLastRollId), active, forced);
      TenPullDetailed(tenPullSeed, b, th, Some(st.nextNg), Some(st.nextLastRollId), active, forced).featuredCountInCycle
  }

  /** The loop of `calculateExpectedFeaturedCounts` over nRolls[k..]. */
  function ExpectedLoop(seeds: seq<bv32>, b: Banner, th: Thresholds, nRolls: seq<int>, k: int,
                        initialNg: Option<int>, initialLastRollId: Option<ItemId>, active: Option<Banner>,
                        forced: bool, acc: map<int, nat>): map<int, nat>
    requires 0 <= k <= |nRolls|
    decreases |nRolls| - k, |seeds|
  {
    if k == |nRolls| then acc
    else
      var n := nRolls[k];
      var acc' := if n < 0 then acc
                  else acc[n := ExpectedAfter(seeds, b, th, n, initialNg, initialLastRollId, active, forced)];
      ExpectedLoop(seeds, b, th, nRolls, k + 1, initialNg, initialLastRollId, active, forced, acc')
  }

  /** `calculateExpectedFeaturedCounts(seeds, gacha, thresholds, nRollsArray,
      initialNgVal, initialLastRollId)`. */
  method CalculateExpectedFeaturedCounts(seeds: seq<bv32>, b: Banner, th: Thresholds, nRolls: seq<int>,
                                         initialNg: Option<int>, initialLastRollId: Option<ItemId>,
                                         active: Option<Banner>, forced: bool)
    returns (results: map<int, nat>)
    ensures results == ExpectedLoop(seeds, b, th, nRolls, 0, initialNg, initialLastRollId, active, forced, map[])
  {
    results := map[];
    for k := 0 to |nRolls|
      invariant ExpectedLoop(seeds, b, th, nRolls, k, initialNg, initialLastRollId, active, forced, results)
             == ExpectedLoop(seeds, b, th, nRolls, 0, initialNg, initialLastRollId, active, forced, map[])
    {
      var n := nRolls[k];
      if n < 0 {
        continue;
      }
      var state := SimulateSingleRollsAndGetState(n, seeds, initialNg, initialLastRollId, b, th, active, forced);
      SingleRollsStateInRange(n, seeds, initialNg, initialLastRollId, b, th, active, forced);
      var tenPullSeed := Window50(seeds, state.nextSeedIndex);
      if |tenPullSeed| < 10 {
        results := results[n := 0];
        continue;
      }
      var sim := CalculateTenPullDetailedLogic(tenPullSeed, b, th, Some(state.nextNg), Some(state.nextLastRollId),
                                               active, forced);
      results := results[n := sim.featuredCountInCycle];
    }
  }

  lemma {:induction false} ExpectedLoopKeys(seeds: seq<bv32>, b: Banner, th: Thresholds, nRolls: seq<int>, k: int,
                                            initialNg: Option<int>, initialLastRollId: Option<ItemId>,
                                            active: Option<Banner>, forced: bool, acc: map<int, nat>)
    requires 0 <= k <= |nRolls|
    requires forall n :: n in acc ==> n >= 0 && acc[n] == ExpectedAfter(seeds, b, th, n, initialNg, initialLastRollId, active, forced)
    ensures var m := ExpectedLoop(seeds, b, th, nRolls, k, initialNg, initialLastRollId, active, forced, acc);
      (forall n :: n in m <==> n in acc || (n in nRolls[k..] && n >= 0)) &&
      (forall n :: n in m ==> m[n] == ExpectedAfter(seeds, b, th, n, initialNg, initialLastRollId, active, forced))
    decreases |nRolls| - k
  {
    if k < |nRolls| {
      var n := nRolls[k];
      var acc' := if n < 0 then acc
                  else acc[n := ExpectedAfter(seeds, b, th, n, initialNg, initialLastRollId, active, forced)];
      ExpectedLoopKeys(seeds, b, th, nRolls, k + 1, initialNg, initialLastRollId, active, forced, acc');
      assert nRolls[k..] == [n] + nRolls[k + 1..];
    }
  }

  /** The projection has an entry for exactly the non-negative roll counts
      asked for; each is the featured count (at most 10) of the ten-pull after
      that many single rolls, 0 when fewer than ten seeds remain. */
  lemma ExpectedCountsSpec(seeds: seq<bv32>, b: Banner, th: Thresholds, nRolls: seq<int>,
                           initialNg: Option<int>, initialLastRollId: Option<ItemId>, active: Option<Banner>,
                           forced: bool)
    ensures var m := ExpectedLoop(seeds, b, th, nRolls, 0, initialNg, initialLastRollId, active, forced, map[]);
      (forall n :: n in m <==> n in nRolls && n >= 0) &&
      (forall n :: n in m ==> m[n] == ExpectedAfter(seeds, b, th, n, initialNg, initialLastRollId, active, forced) <= 10)
  {
    ExpectedLoopKeys(seeds, b, th, nRolls, 0, initialNg, initialLastRollId, active, forced, map[]);
    assert nRolls[0..] == nRolls;
  }
}
