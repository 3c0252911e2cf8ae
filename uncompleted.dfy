/** The main table of the uncompleted view (logic-uncompleted.js): a node per
    seed position, each able to start a draw (featured test on its first
    seed, rarity on the second, item on the third, re-draw on the fourth);
    the single-draw route walked over the nodes, writing its marks on them;
    and the highlight pass that follows the route. */
module Uncompleted {
  import opened JsValues
  import opened Master
  import opened LogicCommon
  import UncompletedSim
  import Utils

  // ---------------------------------------------------------------------------
  // Nodes
  // ---------------------------------------------------------------------------

  /** The fields a node gets when it is built. */
  datatype UBase = UBase(index: int, address: string, seed1: int, seed2: int, seed3: int, seed4: int,
                         prevSeed1: int, isFeatured: bool, featuredNextAddress: string,
                         normalNextAddress: string, reRollNextAddress: string, rarityId: int, poolSize: int,
                         slot: int, itemId: int, reRollSlot: Option<int>, reRollItemId: int, isDupe: bool)

  /** The fields the single route writes (unset before it). */
  datatype UWalk = UWalk(singleRoll: Option<RollLabel>, singleUseSeeds: Option<int>, singleNextAddr: Option<string>,
                         isGuaranteedRoll: bool, isFeaturedUsedFs: bool, singleIsReroll: Option<bool>,
                         singleCompareItemId: Option<int>)

  const Unwalked := UWalk(None, None, None, false, false, None, None)

  datatype UNode = UNode(base: UBase, walk: UWalk)

  /** `getAddressStringGeneric(n, 3)`: three columns A..C. */
  function Address3(n: int): string
  {
    AddressString(n, 3)
  }

  /** The re-draw of a Rare node as the evident intent of
      logic-uncompleted.js:67-74 has it: among the pool's other items, by
      `seed4 % count`; -1 when the node is not a Rare with more than one Rare
      in the pool or no other item exists. */
  function ReRoll(rarityId: int, pool: seq<ItemId>, itemId: int, s4: int): (r: (Option<int>, int))
    requires s4 >= 0
    ensures r.1 != -1 ==> r.1 in pool && r.1 != itemId && rarityId == 1 && |pool| > 1
    ensures r.0.Some? <==> rarityId == 1 && |pool| > 1 && |Without(pool, itemId)| > 0
    ensures r.0.Some? ==> r.0.value == s4 % |Without(pool, itemId)| && r.1 == Without(pool, itemId)[r.0.value]
    ensures r.0.None? ==> r.1 == -1
  {
    if rarityId == 1 && |pool| > 1 then
      var reRollPool := Without(pool, itemId);
      if |reRollPool| > 0 then
        var slot := s4 % |reRollPool|;
        assert reRollPool[slot] in reRollPool;
        (Some(slot), reRollPool[slot])
      else (None, -1)
    else (None, -1)
  }

  /** The re-draw as written: line 70 divides by `rePool.length`, a name
      defined nowhere, so reaching it throws a ReferenceError (None). */
  function ReRollAsWritten(rarityId: int, pool: seq<ItemId>, itemId: int, s4: int): Option<(Option<int>, int)>
    requires s4 >= 0
  {
    if rarityId == 1 && |pool| > 1 then
      var reRollPool := Without(pool, itemId);
      if |reRollPool| > 0 then None
      else Some((None, -1))
    else Some((None, -1))
  }

  /** Whenever a Rare node's pool holds an item other than its own the
      written code throws, while the intended re-draw yields that other
      kind of item; elsewhere both agree. */
  lemma ReRollAsWrittenThrows(pool: seq<ItemId>, itemId: int, other: int, s4: int)
    requires s4 >= 0 && |pool| > 1 && other in pool && other != itemId
    ensures ReRollAsWritten(1, pool, itemId, s4).None?
    ensures var r := ReRoll(1, pool, itemId, s4); r.0.Some? && r.1 in pool && r.1 != itemId
  {
    assert other in Without(pool, itemId);
  }

  lemma ReRollAsWrittenAgreesElsewhere(rarityId: int, pool: seq<ItemId>, itemId: int, s4: int)
    requires s4 >= 0
    ensures ReRollAsWritten(rarityId, pool, itemId, s4).Some? ==>
      ReRollAsWritten(rarityId, pool, itemId, s4).value == ReRoll(rarityId, pool, itemId, s4)
  {
  }

  /** A sequence holding two different values has at least two entries. */
  lemma TwoMembers(s: seq<ItemId>, x: ItemId, y: ItemId)
    requires x in s && y in s && x != y
    ensures |s| > 1
  {
    var i :| 0 <= i < |s| && s[i] == x;
    var j :| 0 <= j < |s| && s[j] == y;
    assert i != j;
  }

  /** On the shipped banner '45' the Rares include items 0 and 3, so a Rare
      node drawing item 0 makes the written code throw. */
  lemma Banner45RareNodeThrows(s4: int)
    requires s4 >= 0
    ensures var pool := RarityPool(Utils.Derived(Banner45(), ShippedCatalog()), 1);
      |pool| > 1 && ReRollAsWritten(1, pool, 0, s4).None?
  {
    var cat := ShippedCatalog();
    assert 0 in Banner45().pool && 3 in Banner45().pool;
    assert cat[0].rarity == 1 by { assert 0 in cat && cat[0] == CatalogItem("スピダ", 1); }
    assert cat[3].rarity == 1 by { assert 3 in cat && cat[3] == CatalogItem("ニャンピュ", 1); }
    Utils.DerivedHasFiveLists(Banner45(), cat, 1);
    Utils.PoolOfRarityMembers(Banner45().pool, cat, 1, 0);
    RareNodeThrows(Banner45(), cat, 0, 3, 0, s4);
  }

  /** On any banner whose pool holds two different items the catalog rates
      Rare, every Rare node, whichever of the banner's Rares it drew, makes
      the code as written throw. */
  lemma RareNodeThrows(b: Banner, catalog: Catalog, x: ItemId, y: ItemId, itemId: ItemId, s4: int)
    requires s4 >= 0 && x != y && x in b.pool && y in b.pool
    requires x in catalog && y in catalog && catalog[x].rarity == 1 && catalog[y].rarity == 1
    requires itemId in RarityPool(Utils.Derived(b, catalog), 1)
    ensures var pool := RarityPool(Utils.Derived(b, catalog), 1);
      |pool| > 1 && ReRollAsWritten(1, pool, itemId, s4).None?
  {
    var pool := RarityPool(Utils.Derived(b, catalog), 1);
    Utils.DerivedHasFiveLists(b, catalog, 1);
    Utils.PoolOfRarityMembers(b.pool, catalog, 1, x);
    Utils.PoolOfRarityMembers(b.pool, catalog, 1, y);
    TwoMembers(pool, x, y);
    var other := if itemId == x then y else x;
    ReRollAsWrittenThrows(pool, itemId, other, s4);
  }

  /** The item compared against while building node i: `initialLastRollId ||
      -1` for the first three nodes, nothing (-1) after them, because no
      node has route marks yet when the nodes are built. */
  function BuildCompareId(i: int, initialLastRollId: Option<ItemId>): (r: int)
    ensures i > 3 ==> r == -1
    ensures i <= 3 && initialLastRollId.Some? && initialLastRollId.value != 0 ==> r == initialLastRollId.value
    ensures initialLastRollId.None? || initialLastRollId == Some(0) ==> r == -1
  {
    if i <= 3 then OrMinusOne(initialLastRollId) else -1
  }

  /** Node i (1-based) as built by the `for (i …)` loop of
      `calculateUncompletedData`. */
  function MakeUNode(seeds: seq<bv32>, i: int, b: Banner, th: Thresholds, initialLastRollId: Option<ItemId>,
                     forced: bool): (n: UNode)
    requires 1 <= i && i + 3 < |seeds|
    ensures n.walk == Unwalked && n.base.index == i && n.base.address == Address3(i)
    ensures n.base.isFeatured <==> Val(seeds[i]) % 10000 < b.featuredItemRate
    ensures n.base.rarityId == RarityFromRoll(Val(seeds[i + 1]) % 10000, th)
    ensures n.base.poolSize == |RarityPool(b, n.base.rarityId)|
    ensures n.base.poolSize > 0 ==> n.base.itemId == RarityPool(b, n.base.rarityId)[Val(seeds[i + 2]) % n.base.poolSize]
    ensures n.base.poolSize == 0 ==> n.base.itemId == -1
    ensures n.base.featuredNextAddress == Address3(i + 1) && n.base.normalNextAddress == Address3(i + 3)
    ensures n.base.reRollNextAddress == Address3(i + 4)
    ensures n.base.reRollItemId != -1 ==> n.base.reRollItemId != n.base.itemId
    ensures n.base.isDupe <==>
      n.base.rarityId == 1 &&
      ((n.base.itemId != -1 && i <= 3 && n.base.itemId == OrMinusOne(initialLastRollId)) || forced)
  {
    var s1, s2, s3, s4 := Val(seeds[i]), Val(seeds[i + 1]), Val(seeds[i + 2]), Val(seeds[i + 3]);
    var rarityId := RarityFromRoll(s2 % 10000, th);
    var pool := RarityPool(b, rarityId);
    var slot := if |pool| > 0 then s3 % |pool| else 0;
    var itemId := if |pool| > 0 then pool[slot] else -1;
    var rr := ReRoll(rarityId, pool, itemId, s4);
    var compareId3 := BuildCompareId(i, initialLastRollId);
    var isDupe3 := itemId != -1 && itemId == compareId3;
    UNode(UBase(i, Address3(i), s1, s2, s3, s4, Val(seeds[i - 1]), s1 % 10000 < b.featuredItemRate,
                Address3(i + 1), Address3(i + 3), Address3(i + 4), rarityId, |pool|, slot, itemId, rr.0, rr.1,
                rarityId == 1 && (isDupe3 || forced)),
          Unwalked)
  }

  /** `tableRows * 3 + 20` nodes; the last one's four seeds lie inside the
      `tableRows * 10 + 1000` seeds. */
  function NodeCount(tableRows: int): (r: int)
    ensures r <= 0 || r + 3 < |SeedList(0, tableRows * 10 + 1000)|
  {
    tableRows * 3 + 20
  }

  function InitialUNodes(seeds: seq<bv32>, maxNodes: int, b: Banner, th: Thresholds,
                         initialLastRollId: Option<ItemId>, forced: bool): (ns: seq<UNode>)
    requires maxNodes <= 0 || maxNodes + 3 < |seeds|
    ensures |ns| == Max(0, maxNodes)
  {
    seq(Max(0, maxNodes), k requires 0 <= k < Max(0, maxNodes) =>
      MakeUNode(seeds, k + 1, b, th, initialLastRollId, forced))
  }

  /** One pass of the node loop: node i built after nodes 1..i-1, with the
      look-back at the route marks of nodes i-4 and i-5, which no node has
      while the nodes are built. */
  method BuildNode(seeds: seq<bv32>, i: int, b: Banner, th: Thresholds, initialLastRollId: Option<ItemId>,
                   forced: bool, nodes: seq<UNode>)
    returns (node: UNode)
    requires 1 <= i && i + 3 < |seeds| && |nodes| == i - 1
    requires forall k :: 0 <= k < |nodes| ==> nodes[k].walk == Unwalked
    ensures node == MakeUNode(seeds, i, b, th, initialLastRollId, forced)
  {
    var s1, s2, s3, s4 := Val(seeds[i]), Val(seeds[i + 1]), Val(seeds[i + 2]), Val(seeds[i + 3]);
    var rarityId := RarityFromRoll(s2 % 10000, th);
    var pool := RarityPool(b, rarityId);
    var slot := 0;
    var itemId := -1;
    if |pool| > 0 {
      slot := s3 % |pool|;
      itemId := pool[slot];
    }
    var rr := ReRoll(rarityId, pool, itemId, s4);
    var compareId3Node, compareId4Node := BuildCompareIds(i, initialLastRollId, nodes);
    var isDupe3 := itemId != -1 && itemId == compareId3Node;
    var isDupe4 := compareId4Node != -1 && itemId == compareId4Node;
    node := UNode(UBase(i, Address3(i), s1, s2, s3, s4, Val(seeds[i - 1]), s1 % 10000 < b.featuredItemRate,
                        Address3(i + 1), Address3(i + 3), Address3(i + 4), rarityId, |pool|, slot, itemId,
                        rr.0, rr.1, rarityId == 1 && (isDupe3 || isDupe4 || forced)),
                  Unwalked);
  }

  /** One more node extends the built prefix by that node. */
  lemma InitialUNodesSnoc(seeds: seq<bv32>, i: int, b: Banner, th: Thresholds, initialLastRollId: Option<ItemId>,
                          forced: bool)
    requires 1 <= i && i + 3 < |seeds|
    ensures InitialUNodes(seeds, i, b, th, initialLastRollId, forced) ==
            InitialUNodes(seeds, i - 1, b, th, initialLastRollId, forced) +
            [MakeUNode(seeds, i, b, th, initialLastRollId, forced)]
  {
  }

  /** The node loop of `calculateUncompletedData`. */
  /** The ids `generateRollsNodes` compares a new node's item against: the
      node three back when the route took a plain draw there, the re-drawn
      item four back when the route re-drew there, else the start's last id
      for the first three nodes. The route has not walked yet when the nodes
      are built, so neither mark is set. */
  method BuildCompareIds(i: int, initialLastRollId: Option<ItemId>, nodes: seq<UNode>)
    returns (compareId3Node: ItemId, compareId4Node: ItemId)
    requires 1 <= i && |nodes| == i - 1
    requires forall k :: 0 <= k < |nodes| ==> nodes[k].walk == Unwalked
    ensures compareId3Node == BuildCompareId(i, initialLastRollId) && compareId4Node == -1
  {
    // pNode3 / pNode4 of the source, with the marks they would carry
    var pNode3Id := if i > 3 then nodes[i - 4].base.itemId else -1;
    var pNode3Single := i > 3 && nodes[i - 4].walk.singleUseSeeds == Some(3);
    var pNode4Id := if i > 4 then nodes[i - 5].base.reRollItemId else -1;
    var pNode4Reroll := i > 4 && nodes[i - 5].walk.singleUseSeeds == Some(4) && pNode4Id != -1;
    assert !pNode3Single && !pNode4Reroll;
    compareId3Node, compareId4Node := -1, -1;
    if i <= 1 {
      compareId3Node := OrMinusOne(initialLastRollId);
    } else {
      if pNode3Single {
        compareId3Node := pNode3Id;
      } else if i <= 3 {
        compareId3Node := OrMinusOne(initialLastRollId);
      }
      if pNode4Reroll {
        compareId4Node := pNode4Id;
      }
    }
  }

  method BuildNodes(seeds: seq<bv32>, maxNodes: int, b: Banner, th: Thresholds,
                    initialLastRollId: Option<ItemId>, forced: bool)
    returns (nodes: seq<UNode>)
    requires maxNodes <= 0 || maxNodes + 3 < |seeds|
    ensures nodes == InitialUNodes(seeds, maxNodes, b, th, initialLastRollId, forced)
  {
    nodes := [];
    var i := 1;
    while i <= maxNodes
      invariant 1 <= i && (maxNodes >= 1 ==> i <= maxNodes + 1) && (maxNodes <= 0 ==> i == 1)
      invariant nodes == InitialUNodes(seeds, i - 1, b, th, initialLastRollId, forced)
    {
      var node := BuildNode(seeds, i, b, th, initialLastRollId, forced, nodes);
      InitialUNodesSnoc(seeds, i, b, th, initialLastRollId, forced);
      nodes := nodes + [node];
      i := i + 1;
    }
  }

  // ---------------------------------------------------------------------------
  // The single route
  // ---------------------------------------------------------------------------

  /** The route walker: cursor node, roll number, last item (-2 after a
      featured or pity item), featured stock left, counter (-1 when there is
      none) and the path from node index to the roll that last visited it. */
  datatype RouteWalk = RouteWalk(idx: int, roll: int, lastId: int, fs: int, ng: int, path: map<int, int>)

  /** The counter after one roll: it falls by one and wraps to the cycle at 0;
      without a guarantee it stays as it is. */
  function NextNg(hasG: bool, ng: int, gCycle: int): (r: int)
    ensures hasG ==> Some(r) == TickCounter(Some(ng), gCycle)
    ensures !hasG ==> r == ng
    ensures hasG && 1 <= ng <= gCycle ==> 1 <= r <= gCycle
  {
    if hasG then (if ng - 1 <= 0 then gCycle else ng - 1) else ng
  }

  /** One roll of the route at node n: the node with its route marks written
      and the walker after it. */
  function RouteStep(n: UNode, w: RouteWalk, hasG: bool, gCycle: int, forced: bool): (r: (UNode, RouteWalk))
    ensures r.0.base == n.base
    ensures var isG := hasG && w.ng == 1;
      r.1.idx == w.idx + (if isG then 0 else if n.base.isFeatured then 1
                          else if r.0.walk.singleIsReroll == Some(true) then 4 else 3) &&
      r.0.walk.singleUseSeeds == Some(r.1.idx - w.idx) &&
      r.1.roll == w.roll + 1 && r.1.ng == NextNg(hasG, w.ng, gCycle) && r.1.path == w.path[w.idx := w.roll] &&
      r.1.fs == (if !isG && n.base.isFeatured && w.fs > 0 then w.fs - 1 else w.fs) &&
      (isG || n.base.isFeatured ==> r.1.lastId == -2)
    ensures !(hasG && w.ng == 1) && !n.base.isFeatured ==>
      (r.0.walk.singleIsReroll == Some(true) <==>
         n.base.rarityId == 1 && n.base.poolSize > 1 &&
         ((n.base.itemId != -1 && w.lastId != -1 && n.base.itemId == w.lastId) || forced)) &&
      r.1.lastId == (if r.0.walk.singleIsReroll == Some(true) then n.base.reRollItemId else n.base.itemId)
  {
    var isG := hasG && w.ng == 1;
    var wk := n.walk.(singleCompareItemId := Some(w.lastId));
    var ng' := NextNg(hasG, w.ng, gCycle);
    if isG then
      var wk' := wk.(singleRoll := Some(GuaranteedRollNo(w.roll)), isGuaranteedRoll := true, singleUseSeeds := Some(0),
                     singleNextAddr := Some(n.base.address));
      (n.(walk := wk'), RouteWalk(w.idx, w.roll + 1, -2, w.fs, ng', w.path[w.idx := w.roll]))
    else if n.base.isFeatured then
      var usedFs := w.fs > 0;
      var wk' := wk.(singleRoll := Some(RollNo(w.roll)), singleUseSeeds := Some(1),
                     singleNextAddr := Some(n.base.featuredNextAddress),
                     isFeaturedUsedFs := if usedFs then true else wk.isFeaturedUsedFs);
      (n.(walk := wk'), RouteWalk(w.idx + 1, w.roll + 1, -2, if usedFs then w.fs - 1 else w.fs, ng',
                                  w.path[w.idx := w.roll]))
    else
      var isMatch := n.base.itemId != -1 && w.lastId != -1 && n.base.itemId == w.lastId;
      var isReroll := n.base.rarityId == 1 && (isMatch || forced) && n.base.poolSize > 1;
      var finalId := if isReroll then n.base.reRollItemId else n.base.itemId;
      var used := if isReroll then 4 else 3;
      var wk' := wk.(singleIsReroll := Some(isReroll), singleRoll := Some(RollNo(w.roll)), singleUseSeeds := Some(used),
                     singleNextAddr := Some(if isReroll then n.base.reRollNextAddress else n.base.normalNextAddress));
      (n.(walk := wk'), RouteWalk(w.idx + used, w.roll + 1, finalId, w.fs, ng', w.path[w.idx := w.roll]))
  }

  /** The route from walker w on: the nodes with their marks and the final
      walker. */
  function RouteFrom(ns: seq<UNode>, w: RouteWalk, tableRows: int, hasG: bool, gCycle: int, forced: bool)
    : (r: (seq<UNode>, RouteWalk))
    requires w.idx >= 1
    ensures |r.0| == |ns|
    decreases tableRows - w.roll
  {
    if w.roll > tableRows || w.idx > |ns| then (ns, w)
    else
      var s := RouteStep(ns[w.idx - 1], w, hasG, gCycle, forced);
      RouteFrom(ns[w.idx - 1 := s.0], s.1, tableRows, hasG, gCycle, forced)
  }

  /** The route's starting walker. */
  function StartRoute(ngVal: Option<int>, initialLastRollId: Option<ItemId>, initialFs: int): (w: RouteWalk)
    ensures w.idx == 1 && w.roll == 1 && w.path == map[] && w.fs == initialFs
    ensures w.ng == (if ngVal.Some? then ngVal.value else -1)
    ensures initialLastRollId.Some? && initialLastRollId.value != 0 ==> w.lastId == initialLastRollId.value
    ensures initialLastRollId.None? || initialLastRollId == Some(0) ==> w.lastId == -1
  {
    RouteWalk(1, 1, OrMinusOne(initialLastRollId), initialFs, if ngVal.Some? then ngVal.value else -1, map[])
  }

  /** The route loop of `calculateUncompletedData`, writing its marks on the
      nodes in place. */
  method WalkSingleRoute(nodes: array<UNode>, tableRows: int, ngVal: Option<int>, initialLastRollId: Option<ItemId>,
                         initialFs: int, gCycle: int, forced: bool)
    returns (singleRoutePath: map<int, int>)
    modifies nodes
    ensures var r := RouteFrom(old(nodes[..]), StartRoute(ngVal, initialLastRollId, initialFs), tableRows,
                               ngVal.Some?, gCycle, forced);
      nodes[..] == r.0 && singleRoutePath == r.1.path
  {
    ghost var whole := RouteFrom(nodes[..], StartRoute(ngVal, initialLastRollId, initialFs), tableRows,
                                 ngVal.Some?, gCycle, forced);
    var hasGuaranteed := ngVal.Some?;
    var sIdx := 1;
    var sLastActualItemId := OrMinusOne(initialLastRollId);
    var sCurrentFs := initialFs;
    singleRoutePath := map[];
    var currentNg := if hasGuaranteed then ngVal.value else -1;
    var roll := 1;
    while roll <= tableRows
      invariant sIdx >= 1
      invariant RouteFrom(nodes[..], RouteWalk(sIdx, roll, sLastActualItemId, sCurrentFs, currentNg, singleRoutePath),
                          tableRows, hasGuaranteed, gCycle, forced) == whole
      decreases tableRows - roll
    {
      if sIdx > nodes.Length {
        break;
      }
      ghost var w := RouteWalk(sIdx, roll, sLastActualItemId, sCurrentFs, currentNg, singleRoutePath);
      ghost var before := nodes[..];
      ghost var s := RouteStep(before[sIdx - 1], w, hasGuaranteed, gCycle, forced);
      sIdx, sLastActualItemId, sCurrentFs, currentNg, singleRoutePath :=
        MarkSingleRoll(nodes, sIdx, roll, sLastActualItemId, sCurrentFs, currentNg, singleRoutePath,
                       hasGuaranteed, gCycle, forced);
      RouteUnfoldStep(before, w, tableRows, hasGuaranteed, gCycle, forced, whole, s, nodes[..]);
      roll := roll + 1;
    }
    ghost var w := RouteWalk(sIdx, roll, sLastActualItemId, sCurrentFs, currentNg, singleRoutePath);
    assert RouteFrom(nodes[..], w, tableRows, hasGuaranteed, gCycle, forced) == (nodes[..], w);
  }

  /** One pass of the route loop: roll `roll` marks node `sIdx` and moves the
      walker on. */
  method MarkSingleRoll(nodes: array<UNode>, sIdx: int, roll: int, sLastActualItemId: int, sCurrentFs: int,
                        currentNg: int, singleRoutePath: map<int, int>, hasGuaranteed: bool, gCycle: int,
                        forced: bool)
    returns (sIdx': int, sLast': int, fs': int, ng': int, path': map<int, int>)
    requires 1 <= sIdx <= nodes.Length
    modifies nodes
    ensures var s := RouteStep(old(nodes[sIdx - 1]),
                               RouteWalk(sIdx, roll, sLastActualItemId, sCurrentFs, currentNg, singleRoutePath),
                               hasGuaranteed, gCycle, forced);
      nodes[..] == old(nodes[..])[sIdx - 1 := s.0] && RouteWalk(sIdx', roll + 1, sLast', fs', ng', path') == s.1
  {
    ghost var s := RouteStep(nodes[sIdx - 1],
                             RouteWalk(sIdx, roll, sLastActualItemId, sCurrentFs, currentNg, singleRoutePath),
                             hasGuaranteed, gCycle, forced);
    var node := nodes[sIdx - 1];
    var isGuaranteedRoll := hasGuaranteed && currentNg == 1;
    var wk := node.walk.(singleCompareItemId := Some(sLastActualItemId));
    sLast' := sLastActualItemId;
    fs' := sCurrentFs;
    if isGuaranteedRoll {
      wk := wk.(singleRoll := Some(GuaranteedRollNo(roll)), isGuaranteedRoll := true, singleUseSeeds := Some(0),
                singleNextAddr := Some(node.base.address));
      sLast' := -2;
    } else if node.base.isFeatured {
      wk := wk.(singleRoll := Some(RollNo(roll)), singleUseSeeds := Some(1),
                singleNextAddr := Some(node.base.featuredNextAddress));
      if fs' > 0 {
        fs' := fs' - 1;
        wk := wk.(isFeaturedUsedFs := true);
      }
      sLast' := -2;
    } else {
      var currentId := node.base.itemId;
      var lastId := sLastActualItemId;
      var isMatch := currentId != -1 && lastId != -1 && currentId == lastId;
      var isReroll := node.base.rarityId == 1 && (isMatch || forced) && node.base.poolSize > 1;
      var finalId := if isReroll then node.base.reRollItemId else node.base.itemId;
      var usedSeeds := if isReroll then 4 else 3;
      wk := wk.(singleIsReroll := Some(isReroll), singleRoll := Some(RollNo(roll)), singleUseSeeds := Some(usedSeeds),
                singleNextAddr := Some(if isReroll then node.base.reRollNextAddress else node.base.normalNextAddress));
      sLast' := finalId;
    }
    assert node.(walk := wk) == s.0;
    nodes[sIdx - 1] := node.(walk := wk);
    ng' := currentNg;
    if hasGuaranteed {
      ng' := ng' - 1;
      if ng' <= 0 {
        ng' := gCycle;
      }
    }
    path' := singleRoutePath[sIdx := roll];
    sIdx' := sIdx + wk.singleUseSeeds.value;
  }

  // ---------------------------------------------------------------------------
  // What the route keeps and changes
  // ---------------------------------------------------------------------------

  /** The route changes only route marks, and only at or after its starting
      node. */
  lemma {:induction false} RouteFrame(ns: seq<UNode>, w: RouteWalk, tableRows: int, hasG: bool, gCycle: int,
                                      forced: bool)
    requires w.idx >= 1
    ensures var r := RouteFrom(ns, w, tableRows, hasG, gCycle, forced);
      (forall j :: 0 <= j < |ns| ==> r.0[j].base == ns[j].base) &&
      (forall j :: 0 <= j < w.idx - 1 && j < |ns| ==> r.0[j] == ns[j])
    decreases tableRows - w.roll
  {
    if !(w.roll > tableRows || w.idx > |ns|) {
      var s := RouteStep(ns[w.idx - 1], w, hasG, gCycle, forced);
      RouteFrame(ns[w.idx - 1 := s.0], s.1, tableRows, hasG, gCycle, forced);
    }
  }

  /** Every path entry maps a node index 1..|ns| to a roll number 1..tableRows,
      and the roll counter only grows. */
  lemma {:induction false} RoutePathBounds(ns: seq<UNode>, w: RouteWalk, tableRows: int, hasG: bool, gCycle: int,
                                           forced: bool)
    requires w.idx >= 1 && w.roll >= 1
    requires forall i :: i in w.path ==> 1 <= i <= |ns| && 1 <= w.path[i] <= tableRows
    ensures var r := RouteFrom(ns, w, tableRows, hasG, gCycle, forced);
      r.1.roll >= w.roll && w.path.Keys <= r.1.path.Keys &&
      forall i :: i in r.1.path ==> 1 <= i <= |ns| && 1 <= r.1.path[i] <= tableRows
    decreases tableRows - w.roll
  {
    if !(w.roll > tableRows || w.idx > |ns|) {
      var s := RouteStep(ns[w.idx - 1], w, hasG, gCycle, forced);
      RoutePathBounds(ns[w.idx - 1 := s.0], s.1, tableRows, hasG, gCycle, forced);
    }
  }

  /** The featured stock never goes below zero or above its start, and each
      unit spent is a featured node marked `isFeaturedUsedFs`. */
  lemma {:induction false} RouteFsBounds(ns: seq<UNode>, w: RouteWalk, tableRows: int, hasG: bool, gCycle: int,
                                         forced: bool)
    requires w.idx >= 1 && w.fs >= 0
    ensures var r := RouteFrom(ns, w, tableRows, hasG, gCycle, forced);
      0 <= r.1.fs <= w.fs &&
      (r.1.fs < w.fs ==> exists j :: 0 <= j < |ns| && r.0[j].walk.isFeaturedUsedFs && r.0[j].base.isFeatured)
    decreases tableRows - w.roll
  {
    if !(w.roll > tableRows || w.idx > |ns|) {
      var s := RouteStep(ns[w.idx - 1], w, hasG, gCycle, forced);
      var ns' := ns[w.idx - 1 := s.0];
      RouteFsBounds(ns', s.1, tableRows, hasG, gCycle, forced);
      var r := RouteFrom(ns', s.1, tableRows, hasG, gCycle, forced);
      if s.1.fs < w.fs && r.1.fs == s.1.fs {
        RouteFrame(ns', s.1, tableRows, hasG, gCycle, forced);
        assert s.1.idx == w.idx + 1;
        assert r.0[w.idx - 1] == s.0;
      }
    }
  }

  /** Under a guarantee the counter stays in 1..gCycle once it starts there. */
  lemma {:induction false} RouteNgInRange(ns: seq<UNode>, w: RouteWalk, tableRows: int, gCycle: int, forced: bool)
    requires w.idx >= 1 && 1 <= w.ng <= gCycle
    ensures var r := RouteFrom(ns, w, tableRows, true, gCycle, forced);
      1 <= r.1.ng <= gCycle
    decreases tableRows - w.roll
  {
    if !(w.roll > tableRows || w.idx > |ns|) {
      var s := RouteStep(ns[w.idx - 1], w, true, gCycle, forced);
      RouteNgInRange(ns[w.idx - 1 := s.0], s.1, tableRows, gCycle, forced);
    }
  }

  // ---------------------------------------------------------------------------
  // The highlight pass
  // ---------------------------------------------------------------------------

  /** The highlight entry of a cell of the single route: roll label, and how
      the draw was made (names are kept as item ids). */
  datatype UMark = UMark(single: bool, singleRoll: Option<RollLabel>, sGuaranteed: bool, sFeatured: Option<bool>,
                         sReRoll: Option<bool>, sNormalId: Option<int>, sReRollId: Option<int>)

  const NoMark := UMark(false, None, false, None, None, None, None)

  /** The highlight pass's cursor: node, roll number, counter. */
  datatype HCursor = HCursor(idx: int, roll: int, ng: int)

  /** One roll of the highlight pass: the map with the node's cell marked and
      the cursor after it, jumping 0 (pity), 1 (featured), 4 (the route's
      re-draw) or 3. */
  function HighlightStep(n: UNode, c: HCursor, m: map<string, UMark>, hasG: bool, gCycle: int)
    : (r: (map<string, UMark>, HCursor))
    ensures r.0.Keys == m.Keys + {n.base.address}
    ensures forall a :: a in m && a != n.base.address ==> r.0[a] == m[a]
    ensures var isG := hasG && c.ng == 1;
      r.0[n.base.address].single &&
      r.0[n.base.address].singleRoll == Some(if isG then GuaranteedRollNo(c.roll) else RollNo(c.roll)) &&
      r.1 == HCursor(c.idx + (if isG then 0 else if n.base.isFeatured then 1
                              else if n.walk.singleIsReroll == Some(true) then 4 else 3),
                     c.roll + 1, NextNg(hasG, c.ng, gCycle))
  {
    var isG := hasG && c.ng == 1;
    var info := if n.base.address in m then m[n.base.address] else NoMark;
    var info1 := info.(single := true, singleRoll := Some(if isG then GuaranteedRollNo(c.roll) else RollNo(c.roll)));
    var info2 :=
      if isG then info1.(sGuaranteed := true)
      else if n.base.isFeatured then info1.(sFeatured := Some(true), sReRoll := Some(false))
      else
        var i3 := info1.(sFeatured := Some(false), sReRoll := n.walk.singleIsReroll, sNormalId := Some(n.base.itemId));
        if n.walk.singleIsReroll == Some(true) then i3.(sReRollId := Some(n.base.reRollItemId)) else i3;
    var jump := if isG then 0 else if n.base.isFeatured then 1 else if n.walk.singleIsReroll == Some(true) then 4 else 3;
    (m[n.base.address := info2], HCursor(c.idx + jump, c.roll + 1, NextNg(hasG, c.ng, gCycle)))
  }

  /** The highlight pass from cursor c: it only adds or overwrites entries,
      and every entry it writes is marked as on the single route. */
  function HighlightFrom(ns: seq<UNode>, c: HCursor, m: map<string, UMark>, tableRows: int, hasG: bool,
                         gCycle: int): (r: map<string, UMark>)
    requires c.idx >= 1
    ensures m.Keys <= r.Keys
    ensures forall a :: a in m && m[a].single ==> r[a].single
    ensures forall a :: a in r && a !in m ==> r[a].single
    decreases tableRows - c.roll
  {
    if c.roll > tableRows || c.idx > |ns| then m
    else
      var s := HighlightStep(ns[c.idx - 1], c, m, hasG, gCycle);
      HighlightFrom(ns, s.1, s.0, tableRows, hasG, gCycle)
  }

  /** The highlight loop of `calculateUncompletedData`, over the nodes the
      route has marked. */
  method GenerateHighlight(nodes: seq<UNode>, tableRows: int, ngVal: Option<int>, gCycle: int)
    returns (highlightInfo: map<string, UMark>)
    ensures highlightInfo ==
      HighlightFrom(nodes, HCursor(1, 1, StartRoute(ngVal, None, 0).ng), map[], tableRows, ngVal.Some?, gCycle)
  {
    var hasGuaranteed := ngVal.Some?;
    highlightInfo := map[];
    var sIdx := 1;
    var hNg := if hasGuaranteed then ngVal.value else -1;
    var roll := 1;
    while roll <= tableRows
      invariant sIdx >= 1
      invariant HighlightFrom(nodes, HCursor(sIdx, roll, hNg), highlightInfo, tableRows, hasGuaranteed, gCycle) ==
                HighlightFrom(nodes, HCursor(1, 1, StartRoute(ngVal, None, 0).ng), map[], tableRows, hasGuaranteed, gCycle)
      decreases tableRows - roll
    {
      if sIdx > |nodes| {
        break;
      }
      var c := HCursor(sIdx, roll, hNg);
      var info', c' := HighlightRoll(nodes[sIdx - 1], c, highlightInfo, hasGuaranteed, gCycle);
      HighlightUnfoldStep(nodes, c, highlightInfo, tableRows, hasGuaranteed, gCycle, (info', c'));
      highlightInfo, sIdx, roll, hNg := info', c'.idx, c'.roll, c'.ng;
    }
  }

  /** One pass of the highlight loop at node `node`: its cell's mark, and the
      jump to the next node. */
  method HighlightRoll(node: UNode, c: HCursor, highlightInfo: map<string, UMark>, hasGuaranteed: bool, gCycle: int)
    returns (info': map<string, UMark>, c': HCursor)
    ensures (info', c') == HighlightStep(node, c, highlightInfo, hasGuaranteed, gCycle)
  {
    var roll, hNg := c.roll, c.ng;
    var isG := hasGuaranteed && hNg == 1;
    var addressKey := node.base.address;
    var info := if addressKey in highlightInfo then highlightInfo[addressKey] else NoMark;
    info := info.(single := true, singleRoll := Some(if isG then GuaranteedRollNo(roll) else RollNo(roll)));
    if isG {
      info := info.(sGuaranteed := true);
    } else if node.base.isFeatured {
      info := info.(sFeatured := Some(true), sReRoll := Some(false));
    } else {
      info := info.(sFeatured := Some(false), sReRoll := node.walk.singleIsReroll, sNormalId := Some(node.base.itemId));
      if info.sReRoll == Some(true) {
        info := info.(sReRollId := Some(node.base.reRollItemId));
      }
    }
    info' := highlightInfo[addressKey := info];
    var jump := 3;
    if isG {
      jump := 0;
    } else if node.base.isFeatured {
      jump := 1;
    } else if node.walk.singleIsReroll == Some(true) {
      jump := 4;
    }
    if hasGuaranteed {
      hNg := hNg - 1;
      if hNg <= 0 {
        hNg := gCycle;
      }
    }
    c' := HCursor(c.idx + jump, roll + 1, hNg);
  }

  /** The cells of the nodes at the given 1-based indices. */
  function Addrs(ns: seq<UNode>, keys: set<int>): set<string>
  {
    set i | i in keys && 1 <= i <= |ns| :: ns[i - 1].base.address
  }

  lemma AddrsSameBase(ns: seq<UNode>, ms: seq<UNode>, keys: set<int>)
    requires |ns| == |ms| && forall j :: 0 <= j < |ns| ==> ns[j].base == ms[j].base
    ensures Addrs(ns, keys) == Addrs(ms, keys)
  {
    forall a | a in Addrs(ns, keys) ensures a in Addrs(ms, keys) {
      var i :| i in keys && 1 <= i <= |ns| && ns[i - 1].base.address == a;
      assert ms[i - 1].base.address == a;
    }
    forall a | a in Addrs(ms, keys) ensures a in Addrs(ns, keys) {
      var i :| i in keys && 1 <= i <= |ms| && ms[i - 1].base.address == a;
      assert ns[i - 1].base.address == a;
    }
  }

  lemma AddrsInsert(ns: seq<UNode>, keys: set<int>, i: int)
    requires 1 <= i <= |ns|
    ensures Addrs(ns, keys + {i}) == Addrs(ns, keys) + {ns[i - 1].base.address}
  {
    assert ns[i - 1].base.address in Addrs(ns, keys + {i});
  }

  /** The highlight pass retraces the single route: run over the marked
      nodes from the route's starting cursor, with the cells of the path so
      far already marked, it marks exactly the cells of the whole path. The
      route's result is passed in as r. */
  lemma {:induction false} HighlightTracksRoute(ns: seq<UNode>, w: RouteWalk, m: map<string, UMark>, tableRows: int,
                                                hasG: bool, gCycle: int, forced: bool, r: (seq<UNode>, RouteWalk))
    requires w.idx >= 1
    requires m.Keys == Addrs(ns, w.path.Keys)
    requires r == RouteFrom(ns, w, tableRows, hasG, gCycle, forced)
    ensures HighlightFrom(r.0, HCursor(w.idx, w.roll, w.ng), m, tableRows, hasG, gCycle).Keys == Addrs(ns, r.1.path.Keys)
    decreases tableRows - w.roll
  {
    var c := HCursor(w.idx, w.roll, w.ng);
    if w.roll > tableRows || w.idx > |ns| {
      assert r == (ns, w);
    } else {
      var s := RouteStep(ns[w.idx - 1], w, hasG, gCycle, forced);
      var ns' := ns[w.idx - 1 := s.0];
      var h := HighlightStep(r.0[w.idx - 1], c, m, hasG, gCycle);
      RouteUnfoldStep(ns, w, tableRows, hasG, gCycle, forced, r, s, ns');
      HighlightCursorStep(ns, w, tableRows, hasG, gCycle, forced, r, s, ns', h, m);
      HighlightKeysStep(ns, w, m, hasG, gCycle, forced, r, s, ns', h);
      HighlightUnfoldStep(r.0, c, m, tableRows, hasG, gCycle, h);
      HighlightTracksRoute(ns', s.1, h.0, tableRows, hasG, gCycle, forced, r);
    }
  }

  /** Past one roll, the route is the route of the marked nodes from the
      walker after that roll. */
  lemma RouteUnfoldStep(ns: seq<UNode>, w: RouteWalk, tableRows: int, hasG: bool, gCycle: int, forced: bool,
                        r: (seq<UNode>, RouteWalk), s: (UNode, RouteWalk), ns': seq<UNode>)
    requires w.idx >= 1 && !(w.roll > tableRows || w.idx > |ns|)
    requires r == RouteFrom(ns, w, tableRows, hasG, gCycle, forced)
    requires s == RouteStep(ns[w.idx - 1], w, hasG, gCycle, forced) && ns' == ns[w.idx - 1 := s.0]
    ensures s.1.idx >= 1 && r == RouteFrom(ns', s.1, tableRows, hasG, gCycle, forced)
  {
  }

  /** The highlight cursor moves exactly as the route's walker: the node the
      highlight pass reads at the cursor carries the route's re-draw mark
      whenever the jump depends on it. */
  lemma HighlightCursorStep(ns: seq<UNode>, w: RouteWalk, tableRows: int, hasG: bool, gCycle: int, forced: bool,
                            r: (seq<UNode>, RouteWalk), s: (UNode, RouteWalk), ns': seq<UNode>,
                            h: (map<string, UMark>, HCursor), m: map<string, UMark>)
    requires w.idx >= 1 && !(w.roll > tableRows || w.idx > |ns|)
    requires s == RouteStep(ns[w.idx - 1], w, hasG, gCycle, forced) && ns' == ns[w.idx - 1 := s.0]
    requires s.1.idx >= 1 && r == RouteFrom(ns', s.1, tableRows, hasG, gCycle, forced)
    requires h == HighlightStep(r.0[w.idx - 1], HCursor(w.idx, w.roll, w.ng), m, hasG, gCycle)
    ensures h.1 == HCursor(s.1.idx, s.1.roll, s.1.ng)
    ensures r.0[w.idx - 1].base == ns[w.idx - 1].base
  {
    RouteFrame(ns', s.1, tableRows, hasG, gCycle, forced);
    assert r.0[w.idx - 1].base == ns'[w.idx - 1].base;
    if !(hasG && w.ng == 1) && !ns[w.idx - 1].base.isFeatured {
      assert r.0[w.idx - 1] == s.0;
    }
  }

  /** One roll marks the cell of the node the route rolled on. */
  lemma HighlightKeysStep(ns: seq<UNode>, w: RouteWalk, m: map<string, UMark>, hasG: bool, gCycle: int, forced: bool,
                          r: (seq<UNode>, RouteWalk), s: (UNode, RouteWalk), ns': seq<UNode>,
                          h: (map<string, UMark>, HCursor))
    requires 1 <= w.idx <= |ns|
    requires m.Keys == Addrs(ns, w.path.Keys)
    requires s == RouteStep(ns[w.idx - 1], w, hasG, gCycle, forced) && ns' == ns[w.idx - 1 := s.0]
    requires |r.0| == |ns| && r.0[w.idx - 1].base == ns[w.idx - 1].base
    requires h == HighlightStep(r.0[w.idx - 1], HCursor(w.idx, w.roll, w.ng), m, hasG, gCycle)
    ensures h.0.Keys == Addrs(ns', s.1.path.Keys)
    ensures Addrs(ns, r.1.path.Keys) == Addrs(ns', r.1.path.Keys)
  {
    assert s.1.path.Keys == w.path.Keys + {w.idx};
    assert h.0.Keys == m.Keys + {ns[w.idx - 1].base.address};
    AddrsStep(ns, ns', w.path.Keys, r.1.path.Keys, w.idx);
  }

  /** Re-marking node i leaves every cell where it was: the cells of keys
      plus i are the cells of keys plus node i's, in either arena. */
  lemma AddrsStep(ns: seq<UNode>, ns': seq<UNode>, keys: set<int>, rkeys: set<int>, i: int)
    requires 1 <= i <= |ns| == |ns'| && forall j :: 0 <= j < |ns| ==> ns'[j].base == ns[j].base
    ensures Addrs(ns', keys + {i}) == Addrs(ns, keys) + {ns[i - 1].base.address}
    ensures Addrs(ns, rkeys) == Addrs(ns', rkeys)
  {
    AddrsInsert(ns, keys, i);
    AddrsSameBase(ns, ns', keys + {i});
    AddrsSameBase(ns, ns', rkeys);
  }

  /** The highlight pass, unfolded by one roll. */
  lemma HighlightUnfoldStep(ns: seq<UNode>, c: HCursor, m: map<string, UMark>, tableRows: int, hasG: bool,
                            gCycle: int, h: (map<string, UMark>, HCursor))
    requires 1 <= c.idx <= |ns| && c.roll <= tableRows && h.1.idx >= 1
    requires h == HighlightStep(ns[c.idx - 1], c, m, hasG, gCycle)
    ensures HighlightFrom(ns, c, m, tableRows, hasG, gCycle) == HighlightFrom(ns, h.1, h.0, tableRows, hasG, gCycle)
  {
  }

  // ---------------------------------------------------------------------------
  // calculateUncompletedData
  // ---------------------------------------------------------------------------

  /** What `calculateUncompletedData` returns; item names and display texts
      are left to the view. */
  datatype UncompletedData = UncompletedData(nodes: seq<UNode>, highlight: map<string, UMark>, maxNodes: int,
                                             singleRoutePath: map<int, int>,
                                             tenPullCycles: seq<UncompletedSim.CycleResult>,
                                             expectedFeaturedCounts: map<int, nat>)

  const NRolls: seq<int> := [0, 1, 2, 3, 4, 5, 6, 7, 8, 9, 10]

  /** `parseInt(params.get('fs'), 10) || 0`: an absent or unparsable value is 0. */
  function InitialFs(fsParam: Option<int>): (r: int)
    ensures fsParam.None? ==> r == 0
    ensures fsParam.Some? ==> r == fsParam.value
  {
    if fsParam.Some? then fsParam.value else 0
  }

  /** The result of `calculateUncompletedData`; `ngVal` is `parseInt` of the
      'ng' parameter (None for NaN), `active` the banner the simulator's
      re-draws read from the master table. */
  function UncompletedDataOf(initialSeed: bv32, b: Banner, tableRows: int, th: Thresholds,
                             initialLastRollId: Option<ItemId>, ngVal: Option<int>, fsParam: Option<int>,
                             active: Option<Banner>, forced: bool): UncompletedData
  {
    DataFrom(SeedList(initialSeed, tableRows * 10 + 1000), NodeCount(tableRows), b, tableRows, th,
             initialLastRollId, ngVal, InitialFs(fsParam), active, forced)
  }

  /** The table built from the seed list and node count. */
  function DataFrom(seeds: seq<bv32>, maxNodes: int, b: Banner, tableRows: int, th: Thresholds,
                    initialLastRollId: Option<ItemId>, ngVal: Option<int>, initialFs: int,
                    active: Option<Banner>, forced: bool): UncompletedData
    requires maxNodes <= 0 || maxNodes + 3 < |seeds|
  {
    var route := MarkedNodes(seeds, maxNodes, b, tableRows, th, initialLastRollId, ngVal, initialFs, forced);
    UncompletedData(route.0,
                    HighlightFrom(route.0, HCursor(1, 1, StartRoute(ngVal, None, 0).ng), map[], tableRows,
                                  ngVal.Some?, CycleOr(b, 10)),
                    maxNodes, route.1.path,
                    UncompletedSim.TenPullsOverCycles(seeds, b, th, ngVal, initialLastRollId, active, forced, 10),
                    UncompletedSim.ExpectedLoop(seeds, b, th, NRolls, 0, ngVal, initialLastRollId, active, forced,
                                                map[]))
  }

  /** The nodes after the single route has marked them, and the route's final
      walker. */
  function MarkedNodes(seeds: seq<bv32>, maxNodes: int, b: Banner, tableRows: int, th: Thresholds,
                       initialLastRollId: Option<ItemId>, ngVal: Option<int>, initialFs: int, forced: bool)
    : (seq<UNode>, RouteWalk)
    requires maxNodes <= 0 || maxNodes + 3 < |seeds|
  {
    RouteFrom(InitialUNodes(seeds, maxNodes, b, th, initialLastRollId, forced),
              StartRoute(ngVal, initialLastRollId, initialFs), tableRows, ngVal.Some?, CycleOr(b, 10), forced)
  }

  /** Steps 2 and 3 of `calculateUncompletedData`: the nodes are built, then
      the single route writes its marks on them in place. */
  method BuildAndWalk(seeds: seq<bv32>, maxNodes: int, b: Banner, tableRows: int, th: Thresholds,
                      initialLastRollId: Option<ItemId>, ngVal: Option<int>, initialFs: int, forced: bool)
    returns (nodes: seq<UNode>, singleRoutePath: map<int, int>)
    requires maxNodes <= 0 || maxNodes + 3 < |seeds|
    ensures var r := MarkedNodes(seeds, maxNodes, b, tableRows, th, initialLastRollId, ngVal, initialFs, forced);
      nodes == r.0 && singleRoutePath == r.1.path
  {
    var built := BuildNodes(seeds, maxNodes, b, th, initialLastRollId, forced);
    var arena := new UNode[|built|](k requires 0 <= k < |built| => built[k]);
    assert arena[..] == built;
    singleRoutePath := WalkSingleRoute(arena, tableRows, ngVal, initialLastRollId, initialFs, CycleOr(b, 10), forced);
    nodes := arena[..];
  }

  /** Step 5 of `calculateUncompletedData`: ten ten-pull cycles, and the
      expected featured counts after 0..10 single rolls. */
  method Summaries(seeds: seq<bv32>, b: Banner, th: Thresholds, ngVal: Option<int>,
                   initialLastRollId: Option<ItemId>, active: Option<Banner>, forced: bool)
    returns (tenPullCyclesData: seq<UncompletedSim.CycleResult>, expected: map<int, nat>)
    ensures tenPullCyclesData == UncompletedSim.TenPullsOverCycles(seeds, b, th, ngVal, initialLastRollId, active,
                                                                  forced, 10)
    ensures expected == UncompletedSim.ExpectedLoop(seeds, b, th, NRolls, 0, ngVal, initialLastRollId, active, forced,
                                                    map[])
  {
    tenPullCyclesData := UncompletedSim.CalculateTenPullsOverCycles(seeds, b, th, ngVal, initialLastRollId,
                                                                   active, forced, 10);
    expected := UncompletedSim.CalculateExpectedFeaturedCounts(seeds, b, th, NRolls, ngVal, initialLastRollId,
                                                               active, forced);
  }

  method CalculateUncompletedData(initialSeed: bv32, b: Banner, tableRows: int, th: Thresholds,
                                  initialLastRollId: Option<ItemId>, ngVal: Option<int>, fsParam: Option<int>,
                                  active: Option<Banner>, forced: bool)
    returns (d: UncompletedData)
    ensures d == UncompletedDataOf(initialSeed, b, tableRows, th, initialLastRollId, ngVal, fsParam, active, forced)
  {
    var maxSeedsNeeded := tableRows * 10 + 1000;
    var seeds := GenerateSeedList(initialSeed, maxSeedsNeeded);
    var maxNodes := tableRows * 3 + 20;
    var initialFs := InitialFs(fsParam);
    DataOfFrom(initialSeed, b, tableRows, th, initialLastRollId, ngVal, fsParam, active, forced, seeds, maxNodes);
    d := AssembleData(seeds, maxNodes, b, tableRows, th, initialLastRollId, ngVal, initialFs, active, forced);
  }

  /** The table of a seed is the table built from its seed list and node
      count. */
  lemma DataOfFrom(initialSeed: bv32, b: Banner, tableRows: int, th: Thresholds, initialLastRollId: Option<ItemId>,
                   ngVal: Option<int>, fsParam: Option<int>, active: Option<Banner>, forced: bool,
                   seeds: seq<bv32>, maxNodes: int)
    requires seeds == SeedList(initialSeed, tableRows * 10 + 1000) && maxNodes == tableRows * 3 + 20
    ensures maxNodes <= 0 || maxNodes + 3 < |seeds|
    ensures UncompletedDataOf(initialSeed, b, tableRows, th, initialLastRollId, ngVal, fsParam, active, forced) ==
            DataFrom(seeds, maxNodes, b, tableRows, th, initialLastRollId, ngVal, InitialFs(fsParam), active, forced)
  {
    assert maxNodes == NodeCount(tableRows) && |seeds| == |SeedList(0, tableRows * 10 + 1000)|;
  }

  /** Steps 2 to 6 of `calculateUncompletedData`, once the seeds are drawn. */
  method AssembleData(seeds: seq<bv32>, maxNodes: int, b: Banner, tableRows: int, th: Thresholds,
                      initialLastRollId: Option<ItemId>, ngVal: Option<int>, initialFs: int,
                      active: Option<Banner>, forced: bool)
    returns (d: UncompletedData)
    requires maxNodes <= 0 || maxNodes + 3 < |seeds|
    ensures d == DataFrom(seeds, maxNodes, b, tableRows, th, initialLastRollId, ngVal, initialFs, active, forced)
  {
    var nodes, singleRoutePath := BuildAndWalk(seeds, maxNodes, b, tableRows, th, initialLastRollId, ngVal,
                                               initialFs, forced);
    var highlightInfo := GenerateHighlight(nodes, tableRows, ngVal, CycleOr(b, 10));
    var tenPullCyclesData, expected := Summaries(seeds, b, th, ngVal, initialLastRollId, active, forced);
    d := UncompletedData(nodes, highlightInfo, maxNodes, singleRoutePath, tenPullCyclesData, expected);
  }

  /** The computed table: the highlight map marks exactly the cells of the
      single route's path, every path entry is a node index mapped to a roll
      number, and the route leaves every node's built fields as they were. */
  lemma UncompletedDataShape(initialSeed: bv32, b: Banner, tableRows: int, th: Thresholds,
                             initialLastRollId: Option<ItemId>, ngVal: Option<int>, fsParam: Option<int>,
                             active: Option<Banner>, forced: bool)
    ensures var d := UncompletedDataOf(initialSeed, b, tableRows, th, initialLastRollId, ngVal, fsParam, active, forced);
      var built := InitialUNodes(SeedList(initialSeed, tableRows * 10 + 1000), NodeCount(tableRows), b, th,
                                 initialLastRollId, forced);
      |d.nodes| == Max(0, d.maxNodes) &&
      (forall j :: 0 <= j < |d.nodes| ==> d.nodes[j].base == built[j].base) &&
      d.highlight.Keys == Addrs(d.nodes, d.singleRoutePath.Keys) &&
      (forall i :: i in d.singleRoutePath ==> 1 <= i <= |d.nodes| && 1 <= d.singleRoutePath[i] <= tableRows)
  {
    var seeds := SeedList(initialSeed, tableRows * 10 + 1000);
    var built := InitialUNodes(seeds, NodeCount(tableRows), b, th, initialLastRollId, forced);
    var w := StartRoute(ngVal, initialLastRollId, InitialFs(fsParam));
    var r := RouteFrom(built, w, tableRows, ngVal.Some?, CycleOr(b, 10), forced);
    RouteFrame(built, w, tableRows, ngVal.Some?, CycleOr(b, 10), forced);
    RoutePathBounds(built, w, tableRows, ngVal.Some?, CycleOr(b, 10), forced);
    assert Addrs(built, w.path.Keys) == {};
    HighlightTracksRoute(built, w, map[], tableRows, ngVal.Some?, CycleOr(b, 10), forced, r);
    AddrsSameBase(built, r.0, r.1.path.Keys);
  }
}
