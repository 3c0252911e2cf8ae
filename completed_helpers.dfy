/** The fully-stocked ("completed") table: the node arena, the per-node
    duplicate-reroll flags, and the single-draw and ten-draw route walkers
    (logic-completed-helpers.js). The walkers' HTML text is not modelled;
    each walker yields the draws it describes. */
module CompletedHelpers {
  import opened JsValues
  import opened Master
  import opened LogicCommon
  import Utils

  // ---------------------------------------------------------------------------
  // Nodes
  // ---------------------------------------------------------------------------

  /** The pity ("G") variant pre-computed at a node: rarity 3 or 4 from
      `seed1 % gDivisor`, slot from `seed2`. */
  datatype GuaranteedDraw = GuaranteedDraw(
    gRoll: int, rarityGId: int, poolGSize: nat, slotG: int, itemGId: Option<ItemId>)

  /** The four node fields the reroll pass writes: the duplicate-reroll flag,
      the re-reroll flag, and the re-drawn slot and item. */
  datatype RerollMark = RerollMark(
    reRollFlag: bool, reRerollFlag: bool, reRollSlot: Option<int>, reRollItemId: Option<ItemId>)

  /** The reroll fields of a node before the pass. */
  const Unflagged := RerollMark(false, false, None, None)

  /** One node of the arena. Node i (1-based) reads seeds i..i+3. Its reroll
      fields are written by the reroll pass; before it they are unset. */
  datatype Node = Node(
    index: int, address: string,
    seed1: int, seed2: int, seed3: int, seed4: int, prevSeed1: int,
    roll1: int, rarityId: int, poolSize: nat, slot: Option<int>, itemId: ItemId,
    gDivisor: int, g: Option<GuaranteedDraw>, rr: RerollMark)

  /** The guaranteed variant of a node, computed when the divisor is positive. */
  function MakeGuaranteed(s1: int, s2: int, b: Banner): Option<GuaranteedDraw>
  {
    var uRate := UberGuaranteeRate(b);
    var gDiv := GuaranteeDivisor(b);
    if gDiv > 0 then
      var gRoll := s1 % gDiv;
      var rarityGId := if gRoll < uRate then 3 else 4;
      var poolG := RarityPool(b, rarityGId);
      var slotG := s2 % Max(1, |poolG|);
      Some(GuaranteedDraw(gRoll, rarityGId, |poolG|, slotG, PoolItem(poolG, slotG)))
    else None
  }

  /** Node i as `initializeNodes` builds it. */
  function MakeNode(seeds: seq<bv32>, i: int, b: Banner, th: Thresholds): (n: Node)
    requires 1 <= i && i + 3 < |seeds|
    ensures n.index == i && n.address == AddressString(i, 2)
    ensures n.seed1 == Val(seeds[i]) && n.seed2 == Val(seeds[i + 1]) && n.seed3 == Val(seeds[i + 2])
    ensures n.seed4 == Val(seeds[i + 3]) && n.prevSeed1 == Val(seeds[i - 1])
    ensures n.rarityId == RarityFromRoll(n.seed1 % 10000, th)
    ensures n.poolSize == |RarityPool(b, n.rarityId)|
    ensures n.poolSize > 0 ==> n.itemId == RarityPool(b, n.rarityId)[n.seed2 % n.poolSize]
    ensures n.poolSize == 0 ==> n.itemId == -1
    ensures n.g.Some? <==> GuaranteeDivisor(b) > 0
    ensures n.rr == Unflagged
  {
    var s1, s2 := Val(seeds[i]), Val(seeds[i + 1]);
    var roll1 := s1 % 10000;
    var rarityId := RarityFromRoll(roll1, th);
    var pool := RarityPool(b, rarityId);
    var slot := if |pool| > 0 then Some(s2 % |pool|) else None;
    Node(i, AddressString(i, 2), s1, s2, Val(seeds[i + 2]), Val(seeds[i + 3]), Val(seeds[i - 1]),
         roll1, rarityId, |pool|, slot, if |pool| > 0 then pool[s2 % |pool|] else -1,
         GuaranteeDivisor(b), MakeGuaranteed(s1, s2, b), Unflagged)
  }

  /** The guaranteed variant picks Uber (3) exactly when `seed1 % (uRate+lRate)`
      falls below the Uber weight, else Legend (4); its slot is taken modulo
      `max(1, poolGSize)` so it is always defined, and it names an item exactly
      when that pool is non-empty. */
  lemma GuaranteedRarity(s1: int, s2: int, b: Banner)
    requires GuaranteeDivisor(b) > 0
    ensures var g := MakeGuaranteed(s1, s2, b);
      g.Some? &&
      (g.value.rarityGId == 3 <==> s1 % GuaranteeDivisor(b) < UberGuaranteeRate(b)) &&
      (g.value.rarityGId == 3 || g.value.rarityGId == 4) &&
      0 <= g.value.slotG < Max(1, g.value.poolGSize) &&
      (g.value.itemGId.Some? <==> g.value.poolGSize > 0)
  {
  }

  /** With the rarity lists derived from the catalog, a node's item (when its
      pool is non-empty) is a pool item whose catalog rarity is the node's
      rarity, and a guaranteed item is an Uber or Legend of the catalog. */
  lemma NodeItemsHaveTheirRarity(seeds: seq<bv32>, i: int, b0: Banner, catalog: Catalog, th: Thresholds)
    requires 1 <= i && i + 3 < |seeds|
    ensures var n := MakeNode(seeds, i, Utils.Derived(b0, catalog), th);
      (n.poolSize > 0 ==> n.itemId in b0.pool && n.itemId in catalog && catalog[n.itemId].rarity == n.rarityId) &&
      (n.g.Some? && n.g.value.itemGId.Some? ==>
         var x := n.g.value.itemGId.value;
         x in b0.pool && x in catalog && catalog[x].rarity == n.g.value.rarityGId)
  {
    var b := Utils.Derived(b0, catalog);
    var n := MakeNode(seeds, i, b, th);
    if n.poolSize > 0 {
      Utils.PoolOfRarityMembers(b0.pool, catalog, n.rarityId, n.itemId);
    }
    if n.g.Some? && n.g.value.itemGId.Some? {
      Utils.PoolOfRarityMembers(b0.pool, catalog, n.g.value.rarityGId, n.g.value.itemGId.value);
    }
  }

  /** The arena `initializeNodes` returns: nodes 1..maxNodeIndex. */
  function InitialNodes(seeds: seq<bv32>, maxNodeIndex: int, b: Banner, th: Thresholds): (nodes: seq<Node>)
    requires maxNodeIndex <= 0 || maxNodeIndex + 3 < |seeds|
  {
    seq(Max(0, maxNodeIndex), k requires 0 <= k < Max(0, maxNodeIndex) => MakeNode(seeds, k + 1, b, th))
  }

  lemma InitialNodesAt(seeds: seq<bv32>, maxNodeIndex: int, b: Banner, th: Thresholds, k: int)
    requires maxNodeIndex + 3 < |seeds| && 0 <= k < maxNodeIndex
    ensures |InitialNodes(seeds, maxNodeIndex, b, th)| == maxNodeIndex
    ensures InitialNodes(seeds, maxNodeIndex, b, th)[k] == MakeNode(seeds, k + 1, b, th)
  {
  }

  /** `initializeNodes`: exactly maxNodeIndex nodes (none when it is not
      positive), node k+1 built from seeds k..k+4. */
  method InitializeNodes(seeds: seq<bv32>, maxNodeIndex: int, b: Banner, th: Thresholds)
    returns (nodes: seq<Node>)
    requires maxNodeIndex <= 0 || maxNodeIndex + 3 < |seeds|
    ensures |nodes| == Max(0, maxNodeIndex)
    ensures forall k :: 0 <= k < |nodes| ==> nodes[k] == MakeNode(seeds, k + 1, b, th)
    ensures nodes == InitialNodes(seeds, maxNodeIndex, b, th)
  {
    nodes := [];
    var i := 1;
    while i <= maxNodeIndex
      invariant 1 <= i <= Max(0, maxNodeIndex) + 1
      invariant |nodes| == i - 1
      invariant forall k :: 0 <= k < |nodes| ==> nodes[k] == MakeNode(seeds, k + 1, b, th)
    {
      nodes := nodes + [MakeNode(seeds, i, b, th)];
      i := i + 1;
    }
  }

  // ---------------------------------------------------------------------------
  // Reroll flags
  // ---------------------------------------------------------------------------

  /** The reroll fields of one node, given the item id two nodes back (or the
      start's last roll) and the already-flagged node three back, if any. */
  function MarkOf(n: Node, prevId2: ItemId, prev3: Option<Node>, b: Banner, forced: bool): RerollMark
  {
    var eligible := n.rarityId == 1 && n.poolSize > 1;
    var flag := (eligible && n.itemId == prevId2) || (eligible && forced);
    var prevRerollId3 :=
      if prev3.Some? && (prev3.value.rr.reRollFlag || prev3.value.rr.reRerollFlag) then prev3.value.rr.reRollItemId
      else Some(-1);
    var reflag := n.rarityId == 1 && prevRerollId3 == Some(n.itemId);
    var rrPool := Without(RarityPool(b, 1), n.itemId);
    if (flag || reflag) && |rrPool| > 0 then
      var slot := n.seed3 % |rrPool|;
      RerollMark(flag, reflag, Some(slot), Some(rrPool[slot]))
    else
      n.rr.(reRollFlag := flag, reRerollFlag := reflag)
  }

  /** A node with its reroll fields written. */
  function FlagNode(n: Node, prevId2: ItemId, prev3: Option<Node>, b: Banner, forced: bool): Node
  {
    n.(rr := MarkOf(n, prevId2, prev3, b, forced))
  }

  /** The comparison id of node k: the item two nodes back, or for the first
      two nodes `initialLastRollId || -1`. */
  function PrevId2(ns: seq<Node>, k: int, initialLastRollId: Option<ItemId>): ItemId
    requires k < |ns|
  {
    if k >= 2 then ns[k - 2].itemId else OrMinusOne(initialLastRollId)
  }

  /** The arena after `calculateRerolls`: nodes are flagged in order, each
      seeing the flags already written on the node three back. */
  function RerollPass(ns: seq<Node>, initialLastRollId: Option<ItemId>, b: Banner, forced: bool): (out: seq<Node>)
    ensures |out| == |ns|
    decreases |ns|
  {
    if ns == [] then []
    else
      var i := |ns| - 1;
      var done := RerollPass(ns[..i], initialLastRollId, b, forced);
      done + [FlagNode(ns[i], PrevId2(ns, i, initialLastRollId), if i >= 3 then Some(done[i - 3]) else None, b, forced)]
  }

  /** Node k of the flagged arena `out` is node k flagged against its own
      inputs. */
  lemma {:induction false} RerollPassAt(ns: seq<Node>, init: Option<ItemId>, b: Banner, forced: bool, k: int,
                                        out: seq<Node>)
    requires 0 <= k < |ns| && out == RerollPass(ns, init, b, forced)
    ensures out[k] == FlagNode(ns[k], PrevId2(ns, k, init), if k >= 3 then Some(out[k - 3]) else None, b, forced)
    decreases |ns|
  {
    var i := |ns| - 1;
    var done := RerollPass(ns[..i], init, b, forced);
    RerollPassLast(ns, init, b, forced, done, out);
    assert k >= 3 ==> out[k - 3] == done[k - 3];
    if k < i {
      RerollPassAt(ns[..i], init, b, forced, k, done);
      PrevId2Prefix(ns, i, k, init);
      assert out[k] == done[k];
    }
  }

  /** The last step of the pass, unfolded once. */
  lemma RerollPassLast(ns: seq<Node>, init: Option<ItemId>, b: Banner, forced: bool, done: seq<Node>, out: seq<Node>)
    requires ns != [] && done == RerollPass(ns[..|ns| - 1], init, b, forced) && out == RerollPass(ns, init, b, forced)
    ensures out == done + [FlagNode(ns[|ns| - 1], PrevId2(ns, |ns| - 1, init),
                                    if |ns| - 1 >= 3 then Some(done[|ns| - 4]) else None, b, forced)]
  {
  }

  /** The previous-but-one item of node k depends only on the nodes before k. */
  lemma PrevId2Prefix(ns: seq<Node>, i: int, k: int, init: Option<ItemId>)
    requires 0 <= k < i <= |ns|
    ensures ns[..i][k] == ns[k] && PrevId2(ns[..i], k, init) == PrevId2(ns, k, init)
  {
    assert k >= 2 ==> ns[..i][k - 2] == ns[k - 2];
  }

  /** The flag computation `calculateRerolls` performs for one node. */
  method FlagOne(node: Node, prevId2: ItemId, prev3: Option<Node>, b: Banner, forced: bool)
    returns (flagged: Node)
    ensures flagged == FlagNode(node, prevId2, prev3, b, forced)
  {
    var eligible := node.rarityId == 1 && node.poolSize > 1;
    var isDupe := eligible && node.itemId == prevId2;
    var isForced := eligible && forced;
    var reRollFlag := isDupe || isForced;
    var prevRerollId3: Option<ItemId> := Some(-1);
    if prev3.Some? && (prev3.value.rr.reRollFlag || prev3.value.rr.reRerollFlag) {
      prevRerollId3 := prev3.value.rr.reRollItemId;
    }
    var reRerollFlag := node.rarityId == 1 && prevRerollId3 == Some(node.itemId);
    var mark := node.rr.(reRollFlag := reRollFlag, reRerollFlag := reRerollFlag);
    if reRollFlag || reRerollFlag {
      var rrPool := Without(RarityPool(b, 1), node.itemId);
      if |rrPool| > 0 {
        var slot := node.seed3 % |rrPool|;
        mark := mark.(reRollSlot := Some(slot), reRollItemId := Some(rrPool[slot]));
      }
    }
    flagged := node.(rr := mark);
  }

  /** One more node of the pass: flagging the prefix of length i+1 extends the
      flagged prefix of length i by node i, flagged against its inputs. */
  lemma RerollPassSnoc(orig: seq<Node>, i: int, init: Option<ItemId>, b: Banner, forced: bool,
                       done: seq<Node>, next: seq<Node>)
    requires 0 <= i < |orig|
    requires done == RerollPass(orig[..i], init, b, forced) && next == RerollPass(orig[..i + 1], init, b, forced)
    ensures next == done + [FlagNode(orig[i], PrevId2(orig, i, init), if i >= 3 then Some(done[i - 3]) else None, b, forced)]
    ensures i >= 2 ==> done[i - 2].itemId == orig[i - 2].itemId
  {
    var pre := orig[..i + 1];
    assert pre[..i] == orig[..i];
    assert pre[i] == orig[i];
    var p3 := if i >= 3 then Some(done[i - 3]) else None;
    if i >= 2 {
      assert pre[i - 2] == orig[i - 2];
      RerollPassAt(orig[..i], init, b, forced, i - 2, done);
    }
    assert PrevId2(pre, i, init) == PrevId2(orig, i, init);
    assert next == RerollPass(pre[..i], init, b, forced) + [FlagNode(pre[i], PrevId2(pre, i, init), p3, b, forced)];
  }


  /** `calculateRerolls`: writes the flags on every node in place, in index
      order. */
  method CalculateRerolls(nodes: array<Node>, initialLastRollId: Option<ItemId>, b: Banner, forced: bool)
    modifies nodes
    ensures nodes[..] == RerollPass(old(nodes[..]), initialLastRollId, b, forced)
  {
    ghost var orig := nodes[..];
    for i := 0 to nodes.Length
      invariant nodes[..i] == RerollPass(orig[..i], initialLastRollId, b, forced)
      invariant nodes[i..] == orig[i..]
    {
      ghost var done := RerollPass(orig[..i], initialLastRollId, b, forced);
      ghost var next := RerollPass(orig[..i + 1], initialLastRollId, b, forced);
      RerollPassSnoc(orig, i, initialLastRollId, b, forced, done, next);
      ghost var before := nodes[..];
      FlagAt(nodes, i, initialLastRollId, b, forced);
      FlagAtExtends(orig, before, nodes[..], i, initialLastRollId, b, forced, done, next);
    }
    assert orig[..nodes.Length] == orig;
  }

  /** One pass of the `calculateRerolls` loop: node i flagged against the
      item two nodes back and the (already flagged) node three back. */
  method FlagAt(nodes: array<Node>, i: int, initialLastRollId: Option<ItemId>, b: Banner, forced: bool)
    requires 0 <= i < nodes.Length
    modifies nodes
    ensures nodes[..] == old(nodes[..])[i := FlagNode(old(nodes[i]), PrevId2(old(nodes[..]), i, initialLastRollId),
                                                      if i >= 3 then Some(old(nodes[i - 3])) else None, b, forced)]
  {
    var prevId2 := if i >= 2 then nodes[i - 2].itemId else OrMinusOne(initialLastRollId);
    var prev3 := if i >= 3 then Some(nodes[i - 3]) else None;
    var node := FlagOne(nodes[i], prevId2, prev3, b, forced);
    nodes[i] := node;
  }

  /** Flagging node i of an arena whose first i nodes are flagged and whose
      rest is untouched extends the flagged prefix by one node. */
  lemma FlagAtExtends(orig: seq<Node>, before: seq<Node>, after: seq<Node>, i: int, init: Option<ItemId>,
                      b: Banner, forced: bool, done: seq<Node>, next: seq<Node>)
    requires 0 <= i < |orig| == |before| && |done| == i
    requires before[..i] == done && before[i..] == orig[i..]
    requires next == done + [FlagNode(orig[i], PrevId2(orig, i, init), if i >= 3 then Some(done[i - 3]) else None, b, forced)]
    requires i >= 2 ==> done[i - 2].itemId == orig[i - 2].itemId
    requires after == before[i := FlagNode(before[i], PrevId2(before, i, init),
                                           if i >= 3 then Some(before[i - 3]) else None, b, forced)]
    ensures after[..i + 1] == next && after[i + 1..] == orig[i + 1..]
  {
    assert before[i] == orig[i] by { assert before[i..][0] == orig[i..][0]; }
    assert i >= 2 ==> before[i - 2] == before[..i][i - 2];
    assert i >= 3 ==> before[i - 3] == before[..i][i - 3];
    assert before[i + 1..] == orig[i + 1..] by { assert before[i..][1..] == before[i + 1..]; }
    assert after[..i + 1] == before[..i] + [after[i]];
  }

  /** The reroll flag of node k is set exactly when it is a Rare with more than
      one Rare in the pool and either its item equals the comparison id (two
      nodes back, or `initialLastRollId || -1` for the first two) or rerolls
      are forced. */
  lemma RerollFlagIff(ns: seq<Node>, init: Option<ItemId>, b: Banner, forced: bool, k: int)
    requires 0 <= k < |ns|
    ensures RerollPass(ns, init, b, forced)[k].rr.reRollFlag <==>
              ns[k].rarityId == 1 && ns[k].poolSize > 1 && (ns[k].itemId == PrevId2(ns, k, init) || forced)
  {
    RerollPassAt(ns, init, b, forced, k, RerollPass(ns, init, b, forced));
  }

  /** Flagging one node: the reroll flag is set exactly for a Rare node with
      more than one item in its rarity pool that repeats the item two nodes
      back or is under forced rerolls; the re-reroll flag exactly for a Rare
      node whose item is the re-draw of the flagged node three back (or -1
      when there is none, so a Rare node of an empty pool is flagged too). A
      re-draw is written exactly when a flag is set and the pool without the
      node's item is not empty: the entry `seed3` picks there, a Rare of the
      banner other than the node's own item. Nothing but the four flag fields
      changes. */
  lemma FlagNodeFields(n: Node, prevId2: ItemId, prev3: Option<Node>, b: Banner, forced: bool)
    requires n.rr.reRollItemId.None?
    ensures var out := FlagNode(n, prevId2, prev3, b, forced);
      var rrPool := Without(RarityPool(b, 1), n.itemId);
      (out.rr.reRollItemId.Some? <==> (out.rr.reRollFlag || out.rr.reRerollFlag) && |rrPool| > 0) &&
      (out.rr.reRollItemId.Some? ==>
         out.rr.reRollSlot == Some(n.seed3 % |rrPool|) && out.rr.reRollItemId.value == rrPool[n.seed3 % |rrPool|] &&
         out.rr.reRollItemId.value != n.itemId && out.rr.reRollItemId.value in RarityPool(b, 1)) &&
      out == n.(rr := out.rr)
    ensures var out := FlagNode(n, prevId2, prev3, b, forced);
      (out.rr.reRollFlag <==> n.rarityId == 1 && n.poolSize > 1 && (n.itemId == prevId2 || forced)) &&
      (out.rr.reRerollFlag <==>
         n.rarityId == 1 &&
         if prev3.Some? && (prev3.value.rr.reRollFlag || prev3.value.rr.reRerollFlag)
         then prev3.value.rr.reRollItemId == Some(n.itemId)
         else n.itemId == -1)
  {
    var out := FlagNode(n, prevId2, prev3, b, forced);
    var rrPool := Without(RarityPool(b, 1), n.itemId);
    if out.rr.reRollItemId.Some? {
      var slot := n.seed3 % |rrPool|;
      assert out.rr.reRollItemId.value == rrPool[slot];
      assert rrPool[slot] in rrPool;
    }
  }

  /** A re-draw written by the pass is a Rare of the banner other than the
      node's own item; the pass changes nothing but the four flag fields. */
  lemma RerollItemDiffers(ns: seq<Node>, init: Option<ItemId>, b: Banner, forced: bool, k: int)
    requires 0 <= k < |ns| && ns[k].rr.reRollItemId.None?
    ensures var out := RerollPass(ns, init, b, forced)[k];
      var rrPool := Without(RarityPool(b, 1), ns[k].itemId);
      (out.rr.reRollItemId.Some? <==> (out.rr.reRollFlag || out.rr.reRerollFlag) && |rrPool| > 0) &&
      (out.rr.reRollItemId.Some? ==>
         out.rr.reRollSlot == Some(ns[k].seed3 % |rrPool|) &&
         out.rr.reRollItemId.value == rrPool[ns[k].seed3 % |rrPool|] &&
         out.rr.reRollItemId.value != ns[k].itemId && out.rr.reRollItemId.value in RarityPool(b, 1)) &&
      out == ns[k].(rr := out.rr)
  {
    var out := RerollPass(ns, init, b, forced);
    RerollPassAt(ns, init, b, forced, k, out);
    FlagNodeFields(ns[k], PrevId2(ns, k, init), if k >= 3 then Some(out[k - 3]) else None, b, forced);
  }

  /** Whatever the comparison text of the node popup calls a duplicate of the
      item two nodes back is flagged for reroll (given more than one Rare). */
  lemma ComparisonDupeIsFlagged(ns: seq<Node>, init: Option<ItemId>, b: Banner, forced: bool, k: int)
    requires 2 <= k < |ns| && ns[k].poolSize > 1
    requires Utils.ComparisonIsDupe(ns[k].rarityId, ns[k].itemId, ns[k - 2].itemId)
    ensures RerollPass(ns, init, b, forced)[k].rr.reRollFlag
  {
    RerollFlagIff(ns, init, b, forced, k);
  }

  /** The `|| -1` quirk: a start whose last roll is item 0 (a real Rare) is
      compared as "no last roll", so the first node drawing item 0 is not
      flagged even though it repeats the last roll. */
  lemma ItemZeroIsNoLastRoll(ns: seq<Node>, b: Banner)
    requires |ns| >= 1 && ns[0].rarityId == 1 && ns[0].poolSize > 1 && ns[0].itemId == 0
    ensures !RerollPass(ns, Some(0), b, false)[0].rr.reRollFlag
  {
    RerollFlagIff(ns, Some(0), b, false, 0);
  }
}
