/** The two route walkers of the completed view: the single-draw route and
    the ten-draw route over the flagged node arena. */
module CompletedRoutes {
  import opened JsValues
  import opened Master
  import opened LogicCommon
  import opened CompletedHelpers

  // ---------------------------------------------------------------------------
  // Route walkers
  // ---------------------------------------------------------------------------

  /** One draw of a walked route: its roll number, the 1-based node it reads,
      whether it was the pity draw or a duplicate reroll, and the item id it
      resolves to (undefined when the node has no such item). */
  datatype Draw = Draw(roll: int, nodeIdx: int, guaranteed: bool, reroll: bool, itemId: Option<ItemId>)

  /** A walker's state: cursor node, roll number, last item id and pity
      counter. */
  datatype Walker = Walker(idx: int, roll: int, lastId: Option<ItemId>, ng: Option<int>)

  /** One draw and the walker after it. */
  datatype Step = Step(next: Walker, draw: Draw)

  /** A run of draws and the walker after them. */
  datatype Walked = Walked(after: Walker, draws: seq<Draw>)

  /** `node.itemGId`: undefined when the node has no guaranteed variant. */
  function GuaranteedItem(n: Node): Option<ItemId>
  {
    if n.g.Some? then n.g.value.itemGId else None
  }

  /** The reroll test both helper walkers use: a Rare with more than one Rare
      in the pool that matches the walker's last item (or forced), or a node
      carrying the re-reroll flag. */
  predicate WalkerRerolls(n: Node, lastId: Option<ItemId>, forced: bool)
  {
    (n.rarityId == 1 && n.poolSize > 1 && (lastId == Some(n.itemId) || forced)) || n.rr.reRerollFlag
  }

  /** An ordinary draw at the walker's node: 3 nodes on a reroll, else 2. */
  function OrdinaryStep(n: Node, w: Walker, gCycle: int, forced: bool): Step
  {
    var isRR := WalkerRerolls(n, w.lastId, forced);
    var item := if isRR then n.rr.reRollItemId else Some(n.itemId);
    Step(Walker(w.idx + (if isRR then 3 else 2), w.roll + 1, item, TickCounter(w.ng, gCycle)),
     Draw(w.roll, w.idx, false, isRR, item))
  }

  /** One draw of the single route: the pity draw when the counter reads 1
      (whatever the banner's guarantee flags), advancing 2 nodes; otherwise an
      ordinary draw. */
  function SingleStep(n: Node, w: Walker, gCycle: int, forced: bool): Step
  {
    if w.ng == Some(1) then
      Step(Walker(w.idx + 2, w.roll + 1, GuaranteedItem(n), TickCounter(w.ng, gCycle)),
       Draw(w.roll, w.idx, true, false, GuaranteedItem(n)))
    else OrdinaryStep(n, w, gCycle, forced)
  }

  /** The draws of the single route from walker w until the nodes or the
      table rows run out. */
  function SingleRoute(nodes: seq<Node>, w: Walker, tableRows: int, gCycle: int, forced: bool): seq<Draw>
    requires w.idx >= 1
    decreases tableRows - w.roll
  {
    if w.idx > |nodes| || w.roll > tableRows then []
    else
      var st := SingleStep(nodes[w.idx - 1], w, gCycle, forced);
      [st.draw] + SingleRoute(nodes, st.next, tableRows, gCycle, forced)
  }

  /** The starting walker of both helper routes: node 1, roll 1, the raw last
      roll id (no `|| -1` here) and the parsed counter. */
  function StartWalker(initialNg: Option<int>, initialLastRollId: Option<ItemId>): Walker
  {
    Walker(1, 1, initialLastRollId, initialNg)
  }

  /** One unfolding of SingleRoute while nodes and table rows remain, as the
      invariant of the loop of `calculateSingleRollRoute` needs it. */
  lemma SingleRouteProgress(nodes: seq<Node>, w: Walker, tableRows: int, gCycle: int, forced: bool,
                            route: seq<Draw>, total: seq<Draw>)
    requires 1 <= w.idx <= |nodes| && w.roll <= tableRows
    requires route + SingleRoute(nodes, w, tableRows, gCycle, forced) == total
    ensures var st := SingleStep(nodes[w.idx - 1], w, gCycle, forced);
      st.next.idx > w.idx && st.next.roll == w.roll + 1 &&
      (route + [st.draw]) + SingleRoute(nodes, st.next, tableRows, gCycle, forced) == total
  {
    var st := SingleStep(nodes[w.idx - 1], w, gCycle, forced);
    assert SingleRoute(nodes, w, tableRows, gCycle, forced)
        == [st.draw] + SingleRoute(nodes, st.next, tableRows, gCycle, forced);
    AppendAssoc(route, [st.draw], SingleRoute(nodes, st.next, tableRows, gCycle, forced));
  }

  /** The body of the loop of `calculateSingleRollRoute`: one draw at the
      cursor node, moving the cursor, the last item and the counter. */
  method TakeSingleDraw(node: Node, sIdx: int, sRoll: int, sLastId: Option<ItemId>, sNgTracker: Option<int>,
                        gCycle: int, forced: bool)
    returns (sIdx': int, sLastId': Option<ItemId>, sNgTracker': Option<int>, d: Draw)
    ensures Step(Walker(sIdx', sRoll + 1, sLastId', sNgTracker'), d)
         == SingleStep(node, Walker(sIdx, sRoll, sLastId, sNgTracker), gCycle, forced)
  {
    sIdx', sLastId', sNgTracker' := sIdx, sLastId, sNgTracker;
    if sNgTracker == Some(1) {
      d := Draw(sRoll, sIdx, true, false, GuaranteedItem(node));
      sLastId' := GuaranteedItem(node);
      sIdx' := sIdx + 2;
    } else {
      var isRR := (node.rarityId == 1 && node.poolSize > 1 && (sLastId == Some(node.itemId) || forced))
                  || node.rr.reRerollFlag;
      sLastId' := if isRR then node.rr.reRollItemId else Some(node.itemId);
      d := Draw(sRoll, sIdx, false, isRR, sLastId');
      sIdx' := sIdx + if isRR then 3 else 2;
    }
    if sNgTracker.Some? {
      var n := sNgTracker.value - 1;
      sNgTracker' := Some(if n <= 0 then gCycle else n);
    }
  }

  /** `calculateSingleRollRoute`, keeping the state its text describes. */
  method CalculateSingleRollRoute(nodes: seq<Node>, tableRows: int, initialNg: Option<int>,
                                  initialLastRollId: Option<ItemId>, b: Banner, forced: bool)
    returns (route: seq<Draw>)
    ensures route == SingleRoute(nodes, StartWalker(initialNg, initialLastRollId), tableRows, CycleOr(b, 10), forced)
  {
    var gCycle := CycleOr(b, 10);
    ghost var total := SingleRoute(nodes, StartWalker(initialNg, initialLastRollId), tableRows, gCycle, forced);
    var sIdx, sRoll, sLastId, sNgTracker := 1, 1, initialLastRollId, initialNg;
    route := [];
    while sIdx <= |nodes| && sRoll <= tableRows
      invariant sIdx >= 1
      invariant route + SingleRoute(nodes, Walker(sIdx, sRoll, sLastId, sNgTracker), tableRows, gCycle, forced) == total
      decreases tableRows - sRoll
    {
      ghost var st := SingleStep(nodes[sIdx - 1], Walker(sIdx, sRoll, sLastId, sNgTracker), gCycle, forced);
      SingleRouteProgress(nodes, Walker(sIdx, sRoll, sLastId, sNgTracker), tableRows, gCycle, forced, route, total);
      var d;
      sIdx, sLastId, sNgTracker, d := TakeSingleDraw(nodes[sIdx - 1], sIdx, sRoll, sLastId, sNgTracker, gCycle, forced);
      assert st.next == Walker(sIdx, sRoll + 1, sLastId, sNgTracker) && st.draw == d;
      route := route + [d];
      sRoll := sRoll + 1;
    }
    assert SingleRoute(nodes, Walker(sIdx, sRoll, sLastId, sNgTracker), tableRows, gCycle, forced) == [];
  }

  /** Draw k of a single route is roll `start + k`, and the route never holds
      more draws than the table has rows left. */
  lemma {:induction false} SingleRouteRolls(nodes: seq<Node>, w: Walker, tableRows: int, gCycle: int, forced: bool, k: int)
    requires w.idx >= 1 && 0 <= k < |SingleRoute(nodes, w, tableRows, gCycle, forced)|
    ensures SingleRoute(nodes, w, tableRows, gCycle, forced)[k].roll == w.roll + k
    ensures w.roll + k <= tableRows
    decreases tableRows - w.roll
  {
    var st := SingleStep(nodes[w.idx - 1], w, gCycle, forced);
    if k > 0 {
      SingleRouteRolls(nodes, st.next, tableRows, gCycle, forced, k - 1);
    }
  }

  /** Consecutive draws of the single route advance the cursor by 2 after a
      pity draw, 3 after a reroll and 2 after any other draw. */
  lemma {:induction false} SingleRouteAdvance(nodes: seq<Node>, w: Walker, tableRows: int, gCycle: int, forced: bool, k: int)
    requires w.idx >= 1 && 0 <= k && k + 1 < |SingleRoute(nodes, w, tableRows, gCycle, forced)|
    ensures var r := SingleRoute(nodes, w, tableRows, gCycle, forced);
      r[k + 1].nodeIdx == r[k].nodeIdx + (if r[k].guaranteed then 2 else if r[k].reroll then 3 else 2)
    decreases tableRows - w.roll
  {
    var st := SingleStep(nodes[w.idx - 1], w, gCycle, forced);
    if k > 0 {
      SingleRouteAdvance(nodes, st.next, tableRows, gCycle, forced, k - 1);
    }
  }

  /** Ticking after one draw and then k more is ticking k+1 times. */
  lemma {:induction false} TickNShift(ng: Option<int>, gCycle: int, k: nat)
    ensures TickN(TickCounter(ng, gCycle), gCycle, k) == TickN(ng, gCycle, k + 1)
  {
    if k > 0 {
      TickNShift(ng, gCycle, k - 1);
    }
  }

  /** Draw k of the single route is the pity draw exactly when the counter,
      ticked once per earlier draw, reads 1. With an unset counter no draw is a
      pity draw; started at c in 1..gCycle the pity draws are those with
      k = c - 1 (mod gCycle). */
  lemma {:induction false} SingleRouteGuarantees(nodes: seq<Node>, w: Walker, tableRows: int, gCycle: int, forced: bool, k: int)
    requires w.idx >= 1 && 0 <= k < |SingleRoute(nodes, w, tableRows, gCycle, forced)|
    ensures SingleRoute(nodes, w, tableRows, gCycle, forced)[k].guaranteed <==> TickN(w.ng, gCycle, k) == Some(1)
    decreases tableRows - w.roll
  {
    var st := SingleStep(nodes[w.idx - 1], w, gCycle, forced);
    if k > 0 {
      SingleRouteGuarantees(nodes, st.next, tableRows, gCycle, forced, k - 1);
      TickNShift(w.ng, gCycle, k - 1);
    }
  }

  lemma SingleRoutePityPeriod(nodes: seq<Node>, c: int, lastId: Option<ItemId>, tableRows: int, gCycle: int, forced: bool, k: int)
    requires 1 <= c <= gCycle
    requires 0 <= k < |SingleRoute(nodes, Walker(1, 1, lastId, Some(c)), tableRows, gCycle, forced)|
    ensures SingleRoute(nodes, Walker(1, 1, lastId, Some(c)), tableRows, gCycle, forced)[k].guaranteed
            <==> (c - 1 - k) % gCycle == 0
  {
    SingleRouteGuarantees(nodes, Walker(1, 1, lastId, Some(c)), tableRows, gCycle, forced, k);
    CounterPeriodic(c, gCycle, k);
  }

  lemma SingleRouteUnsetCounter(nodes: seq<Node>, lastId: Option<ItemId>, tableRows: int, gCycle: int, forced: bool, k: int)
    requires 0 <= k < |SingleRoute(nodes, Walker(1, 1, lastId, None), tableRows, gCycle, forced)|
    ensures !SingleRoute(nodes, Walker(1, 1, lastId, None), tableRows, gCycle, forced)[k].guaranteed
  {
    SingleRouteGuarantees(nodes, Walker(1, 1, lastId, None), tableRows, gCycle, forced, k);
    UnsetCounterStaysUnset(gCycle, k);
  }

  // ---------------------------------------------------------------------------
  // Ten-draw route
  // ---------------------------------------------------------------------------

  /** One ten-draw cycle of the route: the node whose seed heads it, the
      guaranteed rarity decided from that seed (if any), and its draws. */
  datatype TenCycle = TenCycle(headIdx: int, gRarityId: Option<int>, draws: seq<Draw>)

  /** One cycle and the walker after it. */
  datatype Cycled = Cycled(after: Walker, cycle: TenCycle)

  /** The position of the pity draw within a cycle that starts with counter
      ng: `ng - 1` when ng is in 1..10, else -1 (none in this cycle). */
  function GuaranteedIndex(ng: Option<int>): (j: int)
    ensures -1 <= j < 10
    ensures j >= 0 <==> ng.Some? && 1 <= ng.value <= 10
    ensures j >= 0 ==> j == ng.value - 1
  {
    if ng.Some? && 1 <= ng.value <= 10 then ng.value - 1 else -1
  }

  /** The guaranteed rarity fixed at the head of a cycle: 3 when the head seed
      modulo the divisor falls below the Uber weight, else 4. */
  function HeadRarity(headSeed: int, b: Banner): int
    requires GuaranteeDivisor(b) > 0
  {
    if headSeed % GuaranteeDivisor(b) < UberGuaranteeRate(b) then 3 else 4
  }

  /** The pity draw of a ten-draw cycle: its item is picked by the seed of
      the node it reaches from the pool of the cycle's guaranteed rarity (an
      empty pool when none was decided), and it advances one node. */
  function CyclePityStep(n: Node, w: Walker, gRarity: Option<int>, b: Banner, gCycle: int): Step
  {
    var poolG := if gRarity.Some? then RarityPool(b, gRarity.value) else [];
    var item := PoolItem(poolG, n.seed1 % Max(1, |poolG|));
    Step(Walker(w.idx + 1, w.roll + 1, item, TickCounter(w.ng, gCycle)), Draw(w.roll, w.idx, true, false, item))
  }

  /** Draw j of a ten-draw cycle. */
  function CycleStep(n: Node, w: Walker, j: int, gIndex: int, gRarity: Option<int>,
                     b: Banner, gCycle: int, forced: bool): (res: Step)
    ensures res.draw.roll == w.roll && res.draw.nodeIdx == w.idx && res.next.roll == w.roll + 1
    ensures res.next.ng == TickCounter(w.ng, gCycle) && res.next.lastId == res.draw.itemId
    ensures res.draw.guaranteed <==> j == gIndex
    ensures res.next.idx == w.idx + (if j == gIndex then 1 else if res.draw.reroll then 3 else 2)
  {
    if j == gIndex then CyclePityStep(n, w, gRarity, b, gCycle) else OrdinaryStep(n, w, gCycle, forced)
  }

  /** Draws j..9 of a cycle, stopping early when the nodes or the table rows
      run out. (The walker is named in the decreases clause so that a literal
      position j alone never lets the definition unroll.) */
  function CycleDraws(nodes: seq<Node>, w: Walker, j: int, gIndex: int, gRarity: Option<int>,
                      b: Banner, tableRows: int, gCycle: int, forced: bool): (res: Walked)
    requires w.idx >= 1 && 0 <= j <= 10
    decreases 10 - j, w.roll
  {
    if j == 10 || w.roll > tableRows || w.idx > |nodes| then Walked(w, [])
    else
      var step := CycleStep(nodes[w.idx - 1], w, j, gIndex, gRarity, b, gCycle, forced);
      var rest := CycleDraws(nodes, step.next, j + 1, gIndex, gRarity, b, tableRows, gCycle, forced);
      Walked(rest.after, [step.draw] + rest.draws)
  }

  /** A run of draws never moves the cursor back, takes one roll per draw and
      at most the 10 - j draws left in the cycle; without draws the walker is
      unchanged. */
  lemma {:induction false} CycleDrawsBounds(nodes: seq<Node>, w: Walker, j: int, gIndex: int, gRarity: Option<int>,
                                            b: Banner, tableRows: int, gCycle: int, forced: bool)
    requires w.idx >= 1 && 0 <= j <= 10
    ensures var res := CycleDraws(nodes, w, j, gIndex, gRarity, b, tableRows, gCycle, forced);
      res.after.idx >= w.idx && res.after.roll == w.roll + |res.draws| &&
      |res.draws| <= 10 - j && (|res.draws| == 0 ==> res.after == w)
    decreases 10 - j
  {
    if !(j == 10 || w.roll > tableRows || w.idx > |nodes|) {
      var step := CycleStep(nodes[w.idx - 1], w, j, gIndex, gRarity, b, gCycle, forced);
      CycleDrawsUnfold(nodes, w, j, gIndex, gRarity, b, tableRows, gCycle, forced);
      CycleDrawsBounds(nodes, step.next, j + 1, gIndex, gRarity, b, tableRows, gCycle, forced);
    }
  }

  /** One unfolding of CycleDraws while the cycle goes on. */
  lemma CycleDrawsUnfold(nodes: seq<Node>, w: Walker, j: int, gIndex: int, gRarity: Option<int>,
                         b: Banner, tableRows: int, gCycle: int, forced: bool)
    requires 1 <= w.idx <= |nodes| && 0 <= j < 10 && w.roll <= tableRows
    ensures var step := CycleStep(nodes[w.idx - 1], w, j, gIndex, gRarity, b, gCycle, forced);
      var rest := CycleDraws(nodes, step.next, j + 1, gIndex, gRarity, b, tableRows, gCycle, forced);
      CycleDraws(nodes, w, j, gIndex, gRarity, b, tableRows, gCycle, forced) == Walked(rest.after, [step.draw] + rest.draws)
  {
  }

  /** CycleDraws once the cycle is over: no draws, walker unchanged. */
  lemma CycleDrawsDone(nodes: seq<Node>, w: Walker, j: int, gIndex: int, gRarity: Option<int>,
                       b: Banner, tableRows: int, gCycle: int, forced: bool)
    requires w.idx >= 1 && 0 <= j <= 10 && (j == 10 || w.roll > tableRows || w.idx > |nodes|)
    ensures CycleDraws(nodes, w, j, gIndex, gRarity, b, tableRows, gCycle, forced) == Walked(w, [])
  {
  }

  /** The guaranteed rarity of a cycle started by walker w, if its pity draw
      falls inside the cycle and the divisor is positive. */
  function CycleRarity(nodes: seq<Node>, w: Walker, b: Banner): Option<int>
    requires 1 <= w.idx <= |nodes|
  {
    if GuaranteedIndex(w.ng) != -1 && GuaranteeDivisor(b) > 0
    then Some(HeadRarity(nodes[w.idx - 1].seed1, b)) else None
  }

  /** One cycle of the ten-draw route started by walker w, and the walker
      after it. Deciding the guaranteed rarity consumes the head node. */
  function NextCycle(nodes: seq<Node>, w: Walker, b: Banner, tableRows: int, gCycle: int, forced: bool)
    : (res: Cycled)
    requires 1 <= w.idx <= |nodes|
    ensures res.after.idx >= w.idx && res.after.roll == w.roll + |res.cycle.draws|
    ensures res.cycle.headIdx == w.idx
  {
    var gRarity := CycleRarity(nodes, w, b);
    var w1 := if gRarity.Some? then w.(idx := w.idx + 1) else w;
    var walked := CycleDraws(nodes, w1, 0, GuaranteedIndex(w.ng), gRarity, b, tableRows, gCycle, forced);
    CycleDrawsBounds(nodes, w1, 0, GuaranteedIndex(w.ng), gRarity, b, tableRows, gCycle, forced);
    Cycled(walked.after, TenCycle(w.idx, gRarity, walked.draws))
  }

  /** The cycles of the ten-draw route from walker w. */
  function MultiRoute(nodes: seq<Node>, w: Walker, b: Banner, tableRows: int, gCycle: int, forced: bool): seq<TenCycle>
    requires w.idx >= 1
    decreases tableRows - w.roll, |nodes| + 1 - w.idx
  {
    if w.idx > |nodes| || w.roll > tableRows then []
    else
      var next := NextCycle(nodes, w, b, tableRows, gCycle, forced);
      [next.cycle] + MultiRoute(nodes, next.after, b, tableRows, gCycle, forced)
  }

  /** One unfolding of MultiRoute while nodes and table rows remain. */
  lemma MultiRouteUnfold(nodes: seq<Node>, w: Walker, b: Banner, tableRows: int, gCycle: int, forced: bool)
    requires 1 <= w.idx <= |nodes| && w.roll <= tableRows
    ensures var next := NextCycle(nodes, w, b, tableRows, gCycle, forced);
      MultiRoute(nodes, w, b, tableRows, gCycle, forced) == [next.cycle] + MultiRoute(nodes, next.after, b, tableRows, gCycle, forced)
  {
  }

  /** The invariant of the inner loop of `calculateMultiRollRoute` survives
      one draw: the draws so far followed by the rest of the cycle are the
      whole cycle. */
  lemma CycleDrawsProgress(nodes: seq<Node>, t: Walker, j: int, gIndex: int, gRarity: Option<int>,
                           b: Banner, tableRows: int, gCycle: int, forced: bool,
                           draws: seq<Draw>, whole: Walked)
    requires 1 <= t.idx <= |nodes| && 0 <= j < 10 && t.roll <= tableRows
    requires var r := CycleDraws(nodes, t, j, gIndex, gRarity, b, tableRows, gCycle, forced);
      r.after == whole.after && draws + r.draws == whole.draws
    ensures var step := CycleStep(nodes[t.idx - 1], t, j, gIndex, gRarity, b, gCycle, forced);
      var r := CycleDraws(nodes, step.next, j + 1, gIndex, gRarity, b, tableRows, gCycle, forced);
      r.after == whole.after && (draws + [step.draw]) + r.draws == whole.draws
  {
    var step := CycleStep(nodes[t.idx - 1], t, j, gIndex, gRarity, b, gCycle, forced);
    var rest := CycleDraws(nodes, step.next, j + 1, gIndex, gRarity, b, tableRows, gCycle, forced);
    CycleDrawsUnfold(nodes, t, j, gIndex, gRarity, b, tableRows, gCycle, forced);
    AppendAssoc(draws, [step.draw], rest.draws);
  }

  /** The body of the inner `for (j …)` loop of `calculateMultiRollRoute`:
      draw j of a cycle from the node at the cursor. */
  method TakeCycleDraw(node: Node, t: Walker, j: int, gIndex: int, gRarity: Option<int>,
                       b: Banner, gCycle: int, forced: bool)
    returns (t': Walker, d: Draw)
    ensures Step(t', d) == CycleStep(node, t, j, gIndex, gRarity, b, gCycle, forced)
  {
    var tIdx, tLastId, tNgTracker := t.idx, t.lastId, t.ng;
    if j == gIndex {
      var poolG := if gRarity.Some? then RarityPool(b, gRarity.value) else [];
      var itemIdG := PoolItem(poolG, node.seed1 % Max(1, |poolG|));
      d := Draw(t.roll, tIdx, true, false, itemIdG);
      tLastId := itemIdG;
      tIdx := tIdx + 1;
    } else {
      var isRR := (node.rarityId == 1 && node.poolSize > 1 && (tLastId == Some(node.itemId) || forced))
                  || node.rr.reRerollFlag;
      tLastId := if isRR then node.rr.reRollItemId else Some(node.itemId);
      d := Draw(t.roll, tIdx, false, isRR, tLastId);
      tIdx := tIdx + if isRR then 3 else 2;
    }
    if tNgTracker.Some? {
      var n := tNgTracker.value - 1;
      tNgTracker := Some(if n <= 0 then gCycle else n);
    }
    t' := Walker(tIdx, t.roll + 1, tLastId, tNgTracker);
  }

  /** The inner `for (j …)` loop of `calculateMultiRollRoute`: the draws of
      one cycle and the cursor state after them. The loop's early `break` is
      folded into its condition. */
  method WalkCycle(nodes: seq<Node>, w: Walker, gIndex: int, gRarity: Option<int>,
                   b: Banner, tableRows: int, gCycle: int, forced: bool)
    returns (after: Walker, draws: seq<Draw>)
    requires w.idx >= 1
    ensures Walked(after, draws) == CycleDraws(nodes, w, 0, gIndex, gRarity, b, tableRows, gCycle, forced)
  {
    ghost var whole := CycleDraws(nodes, w, 0, gIndex, gRarity, b, tableRows, gCycle, forced);
    var t := w;
    draws := [];
    var j := 0;
    while j < 10 && t.roll <= tableRows && t.idx <= |nodes|
      decreases 10 - j
      invariant 0 <= j <= 10 && t.idx >= 1
      invariant var r := CycleDraws(nodes, t, j, gIndex, gRarity, b, tableRows, gCycle, forced);
        r.after == whole.after && draws + r.draws == whole.draws
    {
      CycleDrawsProgress(nodes, t, j, gIndex, gRarity, b, tableRows, gCycle, forced, draws, whole);
      var d;
      t, d := TakeCycleDraw(nodes[t.idx - 1], t, j, gIndex, gRarity, b, gCycle, forced);
      draws := draws + [d];
      j := j + 1;
    }
    after := t;
    CycleDrawsDone(nodes, t, j, gIndex, gRarity, b, tableRows, gCycle, forced);
    assert draws + [] == draws;
  }

  /** The invariant of the outer loop of `calculateMultiRollRoute` survives
      one cycle. */
  lemma MultiRouteProgress(nodes: seq<Node>, w: Walker, b: Banner, tableRows: int, gCycle: int, forced: bool,
                           cycles: seq<TenCycle>, total: seq<TenCycle>)
    requires 1 <= w.idx <= |nodes| && w.roll <= tableRows
    requires cycles + MultiRoute(nodes, w, b, tableRows, gCycle, forced) == total
    ensures var next := NextCycle(nodes, w, b, tableRows, gCycle, forced);
      (cycles + [next.cycle]) + MultiRoute(nodes, next.after, b, tableRows, gCycle, forced) == total
  {
    var next := NextCycle(nodes, w, b, tableRows, gCycle, forced);
    MultiRouteUnfold(nodes, w, b, tableRows, gCycle, forced);
    AppendAssoc(cycles, [next.cycle], MultiRoute(nodes, next.after, b, tableRows, gCycle, forced));
  }

  /** The head of a cycle in `calculateMultiRollRoute`: the position of its
      pity draw and, when that falls in the cycle and the divisor is positive,
      the guaranteed rarity decided from the head seed, which consumes the
      head node. */
  method CycleHead(nodes: seq<Node>, w: Walker, b: Banner) returns (gIndexInCycle: int, gRarityId: Option<int>, tIdx: int)
    requires 1 <= w.idx <= |nodes|
    ensures gIndexInCycle == GuaranteedIndex(w.ng) && gRarityId == CycleRarity(nodes, w, b)
    ensures tIdx == if gRarityId.Some? then w.idx + 1 else w.idx
  {
    tIdx := w.idx;
    var cycleHeadSeed := nodes[tIdx - 1].seed1;
    gIndexInCycle := -1;
    if w.ng.Some? && 1 <= w.ng.value <= 10 {
      gIndexInCycle := w.ng.value - 1;
    }
    gRarityId := None;
    if gIndexInCycle != -1 && GuaranteeDivisor(b) > 0 {
      gRarityId := Some(HeadRarity(cycleHeadSeed, b));
      tIdx := tIdx + 1;
    }
  }

  /** `calculateMultiRollRoute`. The head seed `SEED_LIST[tIdx]` is read as
      the seed1 of node tIdx, which is the same value. */
  method CalculateMultiRollRoute(nodes: seq<Node>, tableRows: int, initialNg: Option<int>,
                                 initialLastRollId: Option<ItemId>, b: Banner, forced: bool)
    returns (cycles: seq<TenCycle>)
    ensures cycles == MultiRoute(nodes, StartWalker(initialNg, initialLastRollId), b, tableRows, CycleOr(b, 10), forced)
  {
    var gCycle := CycleOr(b, 10);
    ghost var total := MultiRoute(nodes, StartWalker(initialNg, initialLastRollId), b, tableRows, gCycle, forced);
    var t := StartWalker(initialNg, initialLastRollId);
    cycles := [];
    while t.idx <= |nodes| && t.roll <= tableRows
      invariant t.idx >= 1
      invariant cycles + MultiRoute(nodes, t, b, tableRows, gCycle, forced) == total
      decreases tableRows - t.roll, |nodes| + 1 - t.idx
    {
      MultiRouteProgress(nodes, t, b, tableRows, gCycle, forced, cycles, total);
      var cycleHeadIdx := t.idx;
      var gIndexInCycle, gRarityId, tIdx := CycleHead(nodes, t, b);
      var after, draws := WalkCycle(nodes, t.(idx := tIdx), gIndexInCycle, gRarityId, b, tableRows, gCycle, forced);
      assert Cycled(after, TenCycle(cycleHeadIdx, gRarityId, draws)) == NextCycle(nodes, t, b, tableRows, gCycle, forced);
      cycles := cycles + [TenCycle(cycleHeadIdx, gRarityId, draws)];
      t := after;
    }
  }

  /** Draws numbered on from roll0, of which exactly the one at cycle
      position gIndex (counting positions from j) is the pity draw. */
  predicate CycleShaped(ds: seq<Draw>, roll0: int, j: int, gIndex: int)
  {
    forall k :: 0 <= k < |ds| ==> ds[k].roll == roll0 + k && (ds[k].guaranteed <==> j + k == gIndex)
  }

  lemma CycleShapedCons(d: Draw, rest: seq<Draw>, roll0: int, j: int, gIndex: int)
    requires d.roll == roll0 && (d.guaranteed <==> j == gIndex)
    requires CycleShaped(rest, roll0 + 1, j + 1, gIndex)
    ensures CycleShaped([d] + rest, roll0, j, gIndex)
  {
    var ds := [d] + rest;
    forall k | 1 <= k < |ds|
      ensures ds[k].roll == roll0 + k && (ds[k].guaranteed <==> j + k == gIndex)
    {
      assert ds[k] == rest[k - 1];
    }
  }

  /** Within a cycle the draws carry consecutive roll numbers and exactly the
      draw at position gIndex is the pity draw. */
  lemma {:induction false} CycleDrawsShape(nodes: seq<Node>, w: Walker, j: int, gIndex: int, gRarity: Option<int>,
                                           b: Banner, tableRows: int, gCycle: int, forced: bool)
    requires w.idx >= 1 && 0 <= j <= 10
    ensures CycleShaped(CycleDraws(nodes, w, j, gIndex, gRarity, b, tableRows, gCycle, forced).draws, w.roll, j, gIndex)
    decreases 10 - j
  {
    if !(j == 10 || w.roll > tableRows || w.idx > |nodes|) {
      var step := CycleStep(nodes[w.idx - 1], w, j, gIndex, gRarity, b, gCycle, forced);
      var rest := CycleDraws(nodes, step.next, j + 1, gIndex, gRarity, b, tableRows, gCycle, forced);
      CycleDrawsUnfold(nodes, w, j, gIndex, gRarity, b, tableRows, gCycle, forced);
      CycleDrawsShape(nodes, step.next, j + 1, gIndex, gRarity, b, tableRows, gCycle, forced);
      CycleShapedCons(step.draw, rest.draws, w.roll, j, gIndex);
    }
  }

  /** The counter after a cycle has ticked once per draw of the cycle. */
  lemma {:induction false} CycleDrawsTicks(nodes: seq<Node>, w: Walker, j: int, gIndex: int, gRarity: Option<int>,
                                           b: Banner, tableRows: int, gCycle: int, forced: bool)
    requires w.idx >= 1 && 0 <= j <= 10
    ensures var res := CycleDraws(nodes, w, j, gIndex, gRarity, b, tableRows, gCycle, forced);
      res.after.ng == TickN(w.ng, gCycle, |res.draws|)
    decreases 10 - j
  {
    if !(j == 10 || w.roll > tableRows || w.idx > |nodes|) {
      var step := CycleStep(nodes[w.idx - 1], w, j, gIndex, gRarity, b, gCycle, forced);
      var rest := CycleDraws(nodes, step.next, j + 1, gIndex, gRarity, b, tableRows, gCycle, forced);
      CycleDrawsUnfold(nodes, w, j, gIndex, gRarity, b, tableRows, gCycle, forced);
      CycleDrawsTicks(nodes, step.next, j + 1, gIndex, gRarity, b, tableRows, gCycle, forced);
      TickNShift(w.ng, gCycle, |rest.draws|);
    }
  }

  /** A cycle holds ten draws unless the table rows or the nodes run out
      first. */
  lemma {:induction false} CycleDrawsFull(nodes: seq<Node>, w: Walker, j: int, gIndex: int, gRarity: Option<int>,
                                          b: Banner, tableRows: int, gCycle: int, forced: bool)
    requires w.idx >= 1 && 0 <= j <= 10
    requires w.roll + (10 - j) - 1 <= tableRows && w.idx + 3 * (10 - j) - 2 <= |nodes|
    ensures |CycleDraws(nodes, w, j, gIndex, gRarity, b, tableRows, gCycle, forced).draws| == 10 - j
    decreases 10 - j
  {
    if j < 10 {
      var step := CycleStep(nodes[w.idx - 1], w, j, gIndex, gRarity, b, gCycle, forced);
      CycleDrawsUnfold(nodes, w, j, gIndex, gRarity, b, tableRows, gCycle, forced);
      CycleDrawsFull(nodes, step.next, j + 1, gIndex, gRarity, b, tableRows, gCycle, forced);
    }
  }

  /** The shape of one cycle: see MultiRouteCycles. */
  lemma NextCycleShape(nodes: seq<Node>, w: Walker, b: Banner, tableRows: int, gCycle: int, forced: bool)
    requires 1 <= w.idx <= |nodes|
    ensures var cy := NextCycle(nodes, w, b, tableRows, gCycle, forced).cycle;
      |cy.draws| <= 10 &&
      (cy.gRarityId.Some? ==> (cy.gRarityId.value == 3 || cy.gRarityId.value == 4) && GuaranteeDivisor(b) > 0 &&
                              (|cy.draws| > 0 ==> cy.draws[0].nodeIdx == cy.headIdx + 1)) &&
      (cy.gRarityId.None? && |cy.draws| > 0 ==> cy.draws[0].nodeIdx == cy.headIdx)
  {
    var gRarity := CycleRarity(nodes, w, b);
    var w1 := if gRarity.Some? then w.(idx := w.idx + 1) else w;
    var gIndex := GuaranteedIndex(w.ng);
    var res := CycleDraws(nodes, w1, 0, gIndex, gRarity, b, tableRows, gCycle, forced);
    assert NextCycle(nodes, w, b, tableRows, gCycle, forced) == Cycled(res.after, TenCycle(w.idx, gRarity, res.draws));
    CycleDrawsBounds(nodes, w1, 0, gIndex, gRarity, b, tableRows, gCycle, forced);
    if |res.draws| > 0 {
      CycleDrawsUnfold(nodes, w1, 0, gIndex, gRarity, b, tableRows, gCycle, forced);
    }
  }

  /** Every cycle of the ten-draw route holds at most ten draws; its
      guaranteed rarity, when decided, is 3 or 4 and needs a positive divisor;
      deciding it consumes the head node, so the first draw reads the next
      node, and otherwise the first draw reads the head node itself. */
  lemma {:induction false} MultiRouteCycles(nodes: seq<Node>, w: Walker, b: Banner, tableRows: int, gCycle: int,
                                            forced: bool, c: int)
    requires w.idx >= 1
    requires 0 <= c < |MultiRoute(nodes, w, b, tableRows, gCycle, forced)|
    ensures var cy := MultiRoute(nodes, w, b, tableRows, gCycle, forced)[c];
      |cy.draws| <= 10 &&
      (cy.gRarityId.Some? ==> (cy.gRarityId.value == 3 || cy.gRarityId.value == 4) && GuaranteeDivisor(b) > 0 &&
                              (|cy.draws| > 0 ==> cy.draws[0].nodeIdx == cy.headIdx + 1)) &&
      (cy.gRarityId.None? && |cy.draws| > 0 ==> cy.draws[0].nodeIdx == cy.headIdx)
    decreases tableRows - w.roll, |nodes| + 1 - w.idx
  {
    var next := NextCycle(nodes, w, b, tableRows, gCycle, forced);
    MultiRouteUnfold(nodes, w, b, tableRows, gCycle, forced);
    if c > 0 {
      MultiRouteCycles(nodes, next.after, b, tableRows, gCycle, forced, c - 1);
    } else {
      NextCycleShape(nodes, w, b, tableRows, gCycle, forced);
    }
  }

  /** Within the first cycle of the ten-draw route the draw at position k is
      the pity draw exactly when the counter at the cycle's head reads k + 1,
      the rolls run on from the head's roll, and the counter handed to the
      next cycle has ticked once per draw (the counter runs on linearly
      across cycles). */
  lemma MultiRoutePity(nodes: seq<Node>, w: Walker, b: Banner, tableRows: int, gCycle: int, forced: bool)
    requires 1 <= w.idx <= |nodes|
    ensures var next := NextCycle(nodes, w, b, tableRows, gCycle, forced);
      next.after.ng == TickN(w.ng, gCycle, |next.cycle.draws|) &&
      forall k :: 0 <= k < |next.cycle.draws| ==>
        next.cycle.draws[k].roll == w.roll + k && (next.cycle.draws[k].guaranteed <==> w.ng == Some(k + 1))
  {
    var gRarity := CycleRarity(nodes, w, b);
    var w1 := if gRarity.Some? then w.(idx := w.idx + 1) else w;
    var gIndex := GuaranteedIndex(w.ng);
    var res := CycleDraws(nodes, w1, 0, gIndex, gRarity, b, tableRows, gCycle, forced);
    assert NextCycle(nodes, w, b, tableRows, gCycle, forced) == Cycled(res.after, TenCycle(w.idx, gRarity, res.draws));
    CycleDrawsShape(nodes, w1, 0, gIndex, gRarity, b, tableRows, gCycle, forced);
    CycleDrawsTicks(nodes, w1, 0, gIndex, gRarity, b, tableRows, gCycle, forced);
    CycleDrawsBounds(nodes, w1, 0, gIndex, gRarity, b, tableRows, gCycle, forced);
    forall k | 0 <= k < |res.draws|
      ensures res.draws[k].roll == w.roll + k && (res.draws[k].guaranteed <==> w.ng == Some(k + 1))
    {
      assert res.draws[k].guaranteed <==> k == gIndex;
    }
  }
}
