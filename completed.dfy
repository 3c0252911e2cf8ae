/** The main computation of the completed view (logic-completed.js): seeds,
    node arena, reroll flags, the two route walkers and the highlight map,
    for a table of `tableRows` rows. */
module Completed {
  import opened JsValues
  import opened Master
  import opened LogicCommon
  import opened CompletedHelpers
  import CompletedRoutes
  import CompletedHighlight

  /** What `calculateCompletedData` returns. The route texts are kept as the
      walked draws; their HTML is left to the view. */
  datatype CompletedData = CompletedData(nodes: seq<Node>, singleRoute: seq<CompletedRoutes.Draw>,
                                         multiRoute: seq<CompletedRoutes.TenCycle>,
                                         highlight: map<string, CompletedHighlight.Mark>,
                                         maxNodeIndex: int, seeds: seq<bv32>)

  /** `Math.max(tableRows * 20, 20000)`. */
  function SeedCount(tableRows: int): int
  {
    Max(tableRows * 20, 20000)
  }

  /** `Math.max(tableRows * 6, 6000)`: at least 6000 nodes, and the last
      node's four seeds lie inside the seed list. */
  function NodeCount(tableRows: int): (r: int)
    ensures r >= 6000 && r + 3 < SeedCount(tableRows)
  {
    Max(tableRows * 6, 6000)
  }

  /** The flagged arena of a table: nodes 1..NodeCount(tableRows) after the
      reroll pass. */
  function Arena(seeds: seq<bv32>, b: Banner, tableRows: int, th: Thresholds,
                 initialLastRollId: Option<ItemId>, forced: bool): seq<Node>
    requires |seeds| == SeedCount(tableRows)
  {
    RerollPass(InitialNodes(seeds, NodeCount(tableRows), b, th), initialLastRollId, b, forced)
  }

  /** The result of `calculateCompletedData`; the route walkers use the
      banner's cycle or 10, the highlight map its cycle or 30. */
  function CompletedDataOf(initialSeed: bv32, b: Banner, tableRows: int, th: Thresholds,
                           initialLastRollId: Option<ItemId>, initialNg: Option<int>, forced: bool): CompletedData
  {
    var seeds := SeedList(initialSeed, SeedCount(tableRows));
    var nodes := Arena(seeds, b, tableRows, th, initialLastRollId, forced);
    var start := CompletedRoutes.StartWalker(initialNg, initialLastRollId);
    CompletedData(nodes,
                  CompletedRoutes.SingleRoute(nodes, start, tableRows, CycleOr(b, 10), forced),
                  CompletedRoutes.MultiRoute(nodes, start, b, tableRows, CycleOr(b, 10), forced),
                  CompletedHighlight.HighlightMap(nodes, tableRows, initialNg, initialLastRollId, CycleOr(b, 30), b),
                  NodeCount(tableRows), seeds)
  }

  /** `calculateCompletedData(initialSeed, gacha, tableRows, thresholds,
      initialLastRollId, initialNg)`: the arena is flagged in place before the
      walkers read it. */
  method CalculateCompletedData(initialSeed: bv32, b: Banner, tableRows: int, th: Thresholds,
                                initialLastRollId: Option<ItemId>, initialNg: Option<int>, forced: bool)
    returns (d: CompletedData)
    ensures d == CompletedDataOf(initialSeed, b, tableRows, th, initialLastRollId, initialNg, forced)
  {
    var maxSeedsNeeded := Max(tableRows * 20, 20000);
    var seedList := GenerateSeedList(initialSeed, maxSeedsNeeded);
    var maxNodeIndex := Max(tableRows * 6, 6000);
    var initial := InitializeNodes(seedList, maxNodeIndex, b, th);
    var arena := new Node[|initial|](k requires 0 <= k < |initial| => initial[k]);
    assert arena[..] == initial;
    CalculateRerolls(arena, initialLastRollId, b, forced);
    var nodes := arena[..];
    var singleRoute := CompletedRoutes.CalculateSingleRollRoute(nodes, tableRows, initialNg, initialLastRollId, b, forced);
    var multiRoute := CompletedRoutes.CalculateMultiRollRoute(nodes, tableRows, initialNg, initialLastRollId, b, forced);
    var highlightInfo := CompletedHighlight.GenerateHighlightMap(nodes, tableRows, initialNg, initialLastRollId,
                                                                 CycleOr(b, 30), b);
    d := CompletedData(nodes, singleRoute, multiRoute, highlightInfo, maxNodeIndex, seedList);
  }

  /** Node k of the arena is node k as built (node k+1 of the seeds, see
      CompletedHelpers.InitialNodesAt), changed by the reroll pass only in its
      flag fields; it is flagged exactly for a Rare (with more than one Rare
      in the pool) repeating the item two nodes back, or
      `initialLastRollId || -1` for the first two, or under forced rerolls. */
  lemma ArenaNodes(seeds: seq<bv32>, b: Banner, tableRows: int, th: Thresholds,
                   initialLastRollId: Option<ItemId>, forced: bool, k: int)
    requires |seeds| == SeedCount(tableRows) && 0 <= k < NodeCount(tableRows)
    ensures var ns := InitialNodes(seeds, NodeCount(tableRows), b, th);
      var arena := Arena(seeds, b, tableRows, th, initialLastRollId, forced);
      |arena| == |ns| == NodeCount(tableRows) &&
      arena[k] == ns[k].(rr := arena[k].rr) &&
      (arena[k].rr.reRollFlag <==>
         ns[k].rarityId == 1 && ns[k].poolSize > 1 &&
         (ns[k].itemId == (if k >= 2 then ns[k - 2].itemId else OrMinusOne(initialLastRollId)) || forced))
  {
    var ns := InitialNodes(seeds, NodeCount(tableRows), b, th);
    assert ns[k].rr == Unflagged;
    RerollItemDiffers(ns, initialLastRollId, b, forced, k);
    RerollFlagIff(ns, initialLastRollId, b, forced, k);
  }

  /** The computed table: the seed list starts at the initial seed and chains
      xorshift, SeedCount(tableRows) values; the arena holds
      NodeCount(tableRows) >= 6000 nodes, described by ArenaNodes. */
  lemma CompletedDataShape(initialSeed: bv32, b: Banner, tableRows: int, th: Thresholds,
                           initialLastRollId: Option<ItemId>, initialNg: Option<int>, forced: bool)
    ensures var d := CompletedDataOf(initialSeed, b, tableRows, th, initialLastRollId, initialNg, forced);
      |d.seeds| == SeedCount(tableRows) && d.seeds[0] == initialSeed &&
      (forall i :: 1 <= i < |d.seeds| ==> d.seeds[i] == Utils.Xorshift32(d.seeds[i - 1])) &&
      |d.nodes| == d.maxNodeIndex == NodeCount(tableRows) >= 6000 &&
      d.nodes == Arena(d.seeds, b, tableRows, th, initialLastRollId, forced)
  {
  }
}
