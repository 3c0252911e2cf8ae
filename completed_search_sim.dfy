/** The forward simulators of the route search (logic-completed-search.js):
    the linear pity counter, one single draw and one ten-draw from an
    arbitrary cursor of the flagged node arena. They resolve draws on their
    own rather than through the route walkers of CompletedRoutes, and differ
    from them: the single draw honours the guarantee flags, neither looks at
    the re-reroll flag, and a reroll without a re-drawn item keeps the
    node's own item. */
module SearchSimulation {
  import opened JsValues
  import opened Master
  import opened LogicCommon
  import opened CompletedHelpers
  import CompletedRoutes

  // ---------------------------------------------------------------------------
  // getNextNgLinear
  // ---------------------------------------------------------------------------

  /** `x` raised by whole cycles until it is at least 1. */
  function RaisePositive(x: int, cycle: int): (r: int)
    requires cycle >= 1
    ensures r >= 1
    ensures x >= 1 ==> r == x
    ensures x < 1 ==> r <= cycle
    decreases if x >= 1 then 0 else 1 - x
  {
    if x >= 1 then x else RaisePositive(x + cycle, cycle)
  }

  /** The raised value differs from x by whole cycles. */
  lemma {:induction false} RaisedByCycles(x: int, cycle: int)
    requires cycle >= 1
    ensures (RaisePositive(x, cycle) - x) % cycle == 0
    decreases if x >= 1 then 0 else 1 - x
  {
    if x < 1 {
      RaisedByCycles(x + cycle, cycle);
      ShiftByCycle(x, RaisePositive(x + cycle, cycle), cycle);
    }
  }

  /** A value a multiple of the cycle away from x + cycle is a multiple of
      the cycle away from x. */
  lemma ShiftByCycle(x: int, r: int, cycle: int)
    requires cycle >= 1 && (r - (x + cycle)) % cycle == 0
    ensures (r - x) % cycle == 0
  {
    var d := r - (x + cycle);
    ModUnique(d + cycle, cycle, d / cycle + 1, 0);
    assert d + cycle == r - x;
  }

  /** `getNextNgLinear(currentNg, rollCount, cycle)` as a value: an unset
      counter stays unset; otherwise `currentNg - rollCount`, raised by whole
      cycles until it is at least 1. */
  function NextNgLinear(ng: Option<int>, rollCount: int, cycle: int): (r: Option<int>)
    requires cycle >= 1
    ensures ng.None? <==> r.None?
    ensures r.Some? ==> r.value >= 1
    ensures r.Some? && ng.value - rollCount >= 1 ==> r.value == ng.value - rollCount
    ensures r.Some? && ng.value - rollCount < 1 ==> r.value <= cycle
  {
    if ng.None? then None else Some(RaisePositive(ng.value - rollCount, cycle))
  }

  /** A set counter moves by `rollCount` modulo the cycle. */
  lemma NextNgLinearByCycles(ng: Option<int>, rollCount: int, cycle: int)
    requires cycle >= 1 && ng.Some?
    ensures (NextNgLinear(ng, rollCount, cycle).value - (ng.value - rollCount)) % cycle == 0
  {
    RaisedByCycles(ng.value - rollCount, cycle);
  }

  /** `getNextNgLinear`, with its `while (next <= 0)` loop. */
  method GetNextNgLinear(currentNg: Option<int>, rollCount: int, cycle: int) returns (r: Option<int>)
    requires cycle >= 1
    ensures r == NextNgLinear(currentNg, rollCount, cycle)
  {
    if currentNg.None? {
      return None;
    }
    var next := currentNg.value - rollCount;
    while next <= 0
      invariant RaisePositive(next, cycle) == RaisePositive(currentNg.value - rollCount, cycle)
      decreases 1 - next
    {
      next := next + cycle;
    }
    r := Some(next);
  }

  /** Started in 1..cycle, jumping k draws at once lands where k single ticks
      of the per-draw rule land: the search's counter agrees with the route
      walkers'. */
  lemma NextNgLinearIsTicks(n: int, k: nat, cycle: int)
    requires 1 <= n <= cycle
    ensures NextNgLinear(Some(n), k, cycle) == TickN(Some(n), cycle, k)
  {
    CounterPeriodic(n, cycle, k);
    var r := RaisePositive(n - k, cycle);
    RaisedByCycles(n - k, cycle);
    assert r - 1 - (n - 1 - k) == r - (n - k);
    RaisedResidue(n - 1 - k, r - 1, cycle);
  }

  /** A value in 0..cycle-1 that differs from x by a multiple of the cycle is
      x's Euclidean remainder. */
  lemma RaisedResidue(x: int, y: int, cycle: int)
    requires cycle >= 1 && 0 <= y < cycle && (y - x) % cycle == 0
    ensures x % cycle == y
  {
    var d := y - x;
    var q := d / cycle;
    assert d == cycle * q;
    assert x == cycle * (-q) + y;
    ModUnique(x, cycle, -q, y);
  }

  /** Outside 1..cycle the two rules part: a counter of 0 ticks to the cycle
      under the per-draw rule but to cycle - 1 under the linear jump. */
  lemma NextNgLinearZeroCounter(cycle: int)
    requires cycle >= 2
    ensures TickCounter(Some(0), cycle) == Some(cycle)
    ensures NextNgLinear(Some(0), 1, cycle) == Some(cycle - 1)
  {
  }

  // ---------------------------------------------------------------------------
  // Draw results
  // ---------------------------------------------------------------------------

  /** One drawn item: its id (undefined when the pool slot is empty), its
      catalog rarity, and whether it was the pity draw or a reroll. */
  datatype RolledItem = RolledItem(itemId: Option<ItemId>, rarity: int, isGuaranteed: bool, isReroll: bool)

  /** `itemMaster[id]?.rarity || 0`. */
  function CatalogRarity(catalog: Catalog, id: Option<ItemId>): (r: int)
    ensures id.Some? && id.value in catalog ==> r == catalog[id.value].rarity
    ensures id.None? || id.value !in catalog ==> r == 0
  {
    if id.Some? && id.value in catalog then catalog[id.value].rarity else 0
  }

  /** Nodes a drawn item takes from the arena inside a ten-draw: 1 for the
      pity draw, 3 for a reroll, 2 otherwise. */
  function NodeCost(it: RolledItem): int
  {
    if it.isGuaranteed then 1 else if it.isReroll then 3 else 2
  }

  function NodesUsed(items: seq<RolledItem>): int
  {
    if items == [] then 0 else NodesUsed(items[..|items| - 1]) + NodeCost(items[|items| - 1])
  }

  /** Every drawn item takes at least one node. */
  lemma {:induction false} NodesUsedAtLeastCount(items: seq<RolledItem>)
    ensures NodesUsed(items) >= |items|
  {
    if items != [] {
      NodesUsedAtLeastCount(items[..|items| - 1]);
    }
  }

  /** `gacha.uberGuaranteedFlag || gacha.legendGuaranteedFlag`. */
  predicate HasGuarantee(b: Banner)
  {
    b.uberGuaranteedFlag || b.legendGuaranteedFlag
  }

  // ---------------------------------------------------------------------------
  // simulateSingleRoll
  // ---------------------------------------------------------------------------

  /** What `simulateSingleRoll` returns: the item, the nodes it uses, the last
      id and counter after it, and the cell it lands on. */
  datatype SingleResult = SingleResult(item: RolledItem, useSeeds: int, nextLastId: Option<ItemId>,
                                       nextNg: Option<int>, cellAddr: string)

  /** The reroll test of the search's draws: a Rare with more than one Rare in
      the pool whose item matches the last id, or any such Rare under forced
      rerolls. The re-reroll flag is not consulted. */
  predicate SearchRerolls(n: Node, lastId: Option<ItemId>, forced: bool)
  {
    n.rarityId == 1 && n.poolSize > 1 && (lastId == Some(n.itemId) || forced)
  }

  /** The item of an ordinary draw: the re-drawn item on a reroll when one was
      written, else the node's own item. */
  function OrdinaryItem(n: Node, isRR: bool): Option<ItemId>
  {
    if isRR && n.rr.reRollItemId.Some? then n.rr.reRollItemId else Some(n.itemId)
  }

  /** `simulateSingleRoll(startIdx, lastId, _, currentNg, gacha, Nodes)`. */
  function SimulateSingleRoll(nodes: seq<Node>, startIdx: int, lastId: Option<ItemId>, currentNg: Option<int>,
                              b: Banner, catalog: Catalog, forced: bool): (r: Option<SingleResult>)
    ensures r.None? <==> !(1 <= startIdx <= |nodes|)
    ensures r.Some? ==>
      var n := nodes[startIdx - 1];
      var res := r.value;
      res.nextLastId == res.item.itemId &&
      res.nextNg == NextNgLinear(currentNg, 1, CycleOr(b, 10)) &&
      res.item.rarity == CatalogRarity(catalog, res.item.itemId) &&
      (res.item.isGuaranteed <==> currentNg == Some(1) && HasGuarantee(b)) &&
      (res.item.isGuaranteed ==>
         res.useSeeds == 2 && res.cellAddr == n.address + "G" && !res.item.isReroll &&
         res.item.itemId == CompletedRoutes.GuaranteedItem(n)) &&
      (!res.item.isGuaranteed ==>
         res.cellAddr == n.address &&
         (res.item.isReroll <==> SearchRerolls(n, lastId, forced)) &&
         res.useSeeds == (if res.item.isReroll then 3 else 2) &&
         res.item.itemId == OrdinaryItem(n, res.item.isReroll) &&
         (!res.item.isReroll ==> res.item.itemId == Some(n.itemId)))
  {
    if !(1 <= startIdx <= |nodes|) then None
    else
      var node := nodes[startIdx - 1];
      var nextNg := NextNgLinear(currentNg, 1, CycleOr(b, 10));
      if currentNg == Some(1) && HasGuarantee(b) then
        var g := CompletedRoutes.GuaranteedItem(node);
        Some(SingleResult(RolledItem(g, CatalogRarity(catalog, g), true, false), 2, g, nextNg, node.address + "G"))
      else
        var isRR := SearchRerolls(node, lastId, forced);
        var finalId := OrdinaryItem(node, isRR);
        Some(SingleResult(RolledItem(finalId, CatalogRarity(catalog, finalId), false, isRR),
                          if isRR then 3 else 2, finalId, nextNg, node.address))
  }

  /** A reroll of the search on a flagged arena never yields the node's own
      item when the pass wrote a re-drawn item for it. */
  lemma SingleRerollChangesItem(ns: seq<Node>, init: Option<ItemId>, b: Banner, forced: bool, startIdx: int,
                                lastId: Option<ItemId>, currentNg: Option<int>, catalog: Catalog)
    requires 1 <= startIdx <= |ns| && ns[startIdx - 1].rr.reRollItemId.None?
    ensures var nodes := RerollPass(ns, init, b, forced);
      var r := SimulateSingleRoll(nodes, startIdx, lastId, currentNg, b, catalog, forced);
      r.Some? && r.value.item.isReroll && nodes[startIdx - 1].rr.reRollItemId.Some? ==>
        r.value.item.itemId != Some(ns[startIdx - 1].itemId)
  {
    RerollItemDiffers(ns, init, b, forced, startIdx - 1);
  }

  // ---------------------------------------------------------------------------
  // simulateTenRoll
  // ---------------------------------------------------------------------------

  /** One cell a ten-draw touches; `tenGuar` is its type 'ten-guar' (the
      tenth draw) as opposed to 'ten-normal'. */
  datatype Cell = Cell(addr: string, tenGuar: bool)

  /** The state of the `for (i …)` loop: items and cells so far, cursor and
      last id. */
  datatype TenAcc = TenAcc(items: seq<RolledItem>, cells: seq<Cell>, ptr: int, lastId: Option<ItemId>)

  /** What `simulateTenRoll` returns. */
  datatype TenResult = TenResult(items: seq<RolledItem>, useSeeds: int, nextLastId: Option<ItemId>,
                                 nextNg: Option<int>, cells: seq<Cell>)

  /** The pool the pity draw of a ten-draw takes its item from: that of the
      rarity decided at the head, `gacha.rarityItems[null] || []` (empty)
      when the head decided none. */
  function GuaranteePool(b: Banner, gRarity: Option<int>): seq<ItemId>
  {
    if gRarity.Some? then RarityPool(b, gRarity.value) else []
  }

  /** `it` and `cell` are what position i of a ten-draw yields reading cursor
      node p after the item `last`: at the pity position the item in slot
      `seed1 % max(1, size)` of the head rarity's pool, on the node's 'G' cell,
      not a reroll; elsewhere the node's item or, on a search reroll, its
      re-drawn item, on the node's own cell. The rarity is the catalog's, and
      the cell of position 9 is the 'ten-guar' one. */
  predicate DrawAt(nodes: seq<Node>, i: int, gIndex: int, gRarity: Option<int>, p: int, last: Option<ItemId>,
                   b: Banner, catalog: Catalog, forced: bool, it: RolledItem, cell: Cell)
  {
    1 <= p <= |nodes| &&
    var n := nodes[p - 1];
    var poolG := GuaranteePool(b, gRarity);
    it.rarity == CatalogRarity(catalog, it.itemId) && cell.tenGuar == (i == 9) &&
    (it.isGuaranteed <==> i == gIndex) &&
    (i == gIndex ==>
       !it.isReroll && cell.addr == n.address + "G" && it.itemId == PoolItem(poolG, n.seed1 % Max(1, |poolG|))) &&
    (i != gIndex ==>
       cell.addr == n.address && (it.isReroll <==> SearchRerolls(n, last, forced)) &&
       it.itemId == OrdinaryItem(n, it.isReroll))
  }

  /** Position i of the ten-draw at cursor ptr: the pity slot at position
      gIndex (item from the pool of the rarity decided at the head, slot from
      the node's seed1, one node), else an ordinary draw (3 nodes on a reroll,
      2 otherwise). None when the cursor is past the arena. */
  function TenPosition(nodes: seq<Node>, i: int, gIndex: int, gRarity: Option<int>, ptr: int,
                       lastId: Option<ItemId>, b: Banner, catalog: Catalog, forced: bool)
    : (r: Option<(RolledItem, Cell, int)>)
    ensures r.None? <==> !(1 <= ptr <= |nodes|)
    ensures r.Some? ==> r.value.0.isGuaranteed == (i == gIndex) && r.value.2 == ptr + NodeCost(r.value.0)
  {
    if !(1 <= ptr <= |nodes|) then None
    else
      var node := nodes[ptr - 1];
      if i == gIndex then
        var poolG := GuaranteePool(b, gRarity);
        var itemIdG := PoolItem(poolG, node.seed1 % Max(1, |poolG|));
        Some((RolledItem(itemIdG, CatalogRarity(catalog, itemIdG), true, false), Cell(node.address + "G", i == 9), ptr + 1))
      else
        var isRR := SearchRerolls(node, lastId, forced);
        var finalId := OrdinaryItem(node, isRR);
        Some((RolledItem(finalId, CatalogRarity(catalog, finalId), false, isRR), Cell(node.address, i == 9),
              ptr + if isRR then 3 else 2))
  }

  /** What one position of a ten-draw draws, as DrawAt describes it. */
  lemma TenPositionItem(nodes: seq<Node>, i: int, gIndex: int, gRarity: Option<int>, ptr: int,
                        lastId: Option<ItemId>, b: Banner, catalog: Catalog, forced: bool)
    requires 1 <= ptr <= |nodes|
    ensures var r := TenPosition(nodes, i, gIndex, gRarity, ptr, lastId, b, catalog, forced);
      DrawAt(nodes, i, gIndex, gRarity, ptr, lastId, b, catalog, forced, r.value.0, r.value.1)
  {
  }

  /** Positions i..9 of a ten-draw from cursor ptr; None as soon as one of
      them falls past the arena. (The cursor is named in the decreases
      clause so that a literal position alone never unrolls the definition.) */
  function TenDraws(nodes: seq<Node>, i: int, gIndex: int, gRarity: Option<int>, ptr: int,
                    lastId: Option<ItemId>, b: Banner, catalog: Catalog, forced: bool): (r: Option<TenAcc>)
    requires 0 <= i <= 10
    decreases 10 - i, ptr
  {
    if i == 10 then Some(TenAcc([], [], ptr, lastId))
    else
      match TenPosition(nodes, i, gIndex, gRarity, ptr, lastId, b, catalog, forced)
      case None => None
      case Some((it, cell, ptr')) =>
        Prepend([it], [cell], TenDraws(nodes, i + 1, gIndex, gRarity, ptr', it.itemId, b, catalog, forced))
  }

  /** Positions i..9 yield 10 - i items and cells, exactly the one at the pity
      position marked guaranteed, and the cursor advances by the nodes the
      items take. */
  lemma {:induction false} TenDrawsShape(nodes: seq<Node>, i: int, gIndex: int, gRarity: Option<int>, ptr: int,
                                         lastId: Option<ItemId>, b: Banner, catalog: Catalog, forced: bool,
                                         r: Option<TenAcc>)
    requires 0 <= i <= 10 && r == TenDraws(nodes, i, gIndex, gRarity, ptr, lastId, b, catalog, forced)
    ensures r.Some? ==>
      |r.value.items| == 10 - i && |r.value.cells| == 10 - i &&
      r.value.ptr == ptr + NodesUsed(r.value.items) &&
      forall k :: 0 <= k < |r.value.items| ==> (r.value.items[k].isGuaranteed <==> i + k == gIndex)
    decreases 10 - i
  {
    if i < 10 {
      TenDrawsUnfold(nodes, i, gIndex, gRarity, ptr, lastId, b, catalog, forced);
      var pos := TenPosition(nodes, i, gIndex, gRarity, ptr, lastId, b, catalog, forced);
      if pos.Some? {
        var rest := TenDraws(nodes, i + 1, gIndex, gRarity, pos.value.2, pos.value.0.itemId, b, catalog, forced);
        TenDrawsShape(nodes, i + 1, gIndex, gRarity, pos.value.2, pos.value.0.itemId, b, catalog, forced, rest);
        PrependShape(i, gIndex, ptr, pos.value.0, pos.value.1, pos.value.2, rest, r);
      }
    }
  }

  /** The item a draw of a run follows: the last id the run started from
      for its first draw, else the item before it. */
  function PrevId(lastId: Option<ItemId>, items: seq<RolledItem>, k: int): Option<ItemId>
    requires 0 <= k <= |items|
  {
    if k == 0 then lastId else items[k - 1].itemId
  }

  /** Draws `items` with cells `cells`, from position i at cursor ptr after
      item lastId: the first is what DrawAt says of position i there, and the
      rest draw on from position i + 1, at the node its cost leads to and
      after the item it drew. */
  predicate DrawsFrom(nodes: seq<Node>, i: int, gIndex: int, gRarity: Option<int>, ptr: int, lastId: Option<ItemId>,
                      b: Banner, catalog: Catalog, forced: bool, items: seq<RolledItem>, cells: seq<Cell>)
    decreases |items|
  {
    |items| == |cells| &&
    (items != [] ==>
       DrawAt(nodes, i, gIndex, gRarity, ptr, lastId, b, catalog, forced, items[0], cells[0]) &&
       DrawsFrom(nodes, i + 1, gIndex, gRarity, ptr + NodeCost(items[0]), items[0].itemId, b, catalog, forced,
                 items[1..], cells[1..]))
  }

  /** Positions i..9 from cursor ptr after item lastId draw what DrawsFrom
      says, and the run hands on its last item as the last id. */
  lemma {:induction false} TenDrawsItems(nodes: seq<Node>, i: int, gIndex: int, gRarity: Option<int>, ptr: int,
                                         lastId: Option<ItemId>, b: Banner, catalog: Catalog, forced: bool,
                                         r: Option<TenAcc>)
    requires 0 <= i <= 10 && r == TenDraws(nodes, i, gIndex, gRarity, ptr, lastId, b, catalog, forced)
    ensures r.Some? ==>
      DrawsFrom(nodes, i, gIndex, gRarity, ptr, lastId, b, catalog, forced, r.value.items, r.value.cells) &&
      r.value.lastId == PrevId(lastId, r.value.items, |r.value.items|)
    decreases 10 - i
  {
    if i < 10 {
      TenDrawsUnfold(nodes, i, gIndex, gRarity, ptr, lastId, b, catalog, forced);
      var pos := TenPosition(nodes, i, gIndex, gRarity, ptr, lastId, b, catalog, forced);
      if pos.Some? {
        var rest := TenDraws(nodes, i + 1, gIndex, gRarity, pos.value.2, pos.value.0.itemId, b, catalog, forced);
        TenDrawsItems(nodes, i + 1, gIndex, gRarity, pos.value.2, pos.value.0.itemId, b, catalog, forced, rest);
        TenPositionItem(nodes, i, gIndex, gRarity, ptr, lastId, b, catalog, forced);
        PrependItems(nodes, i, gIndex, gRarity, ptr, lastId, b, catalog, forced, pos.value.0, pos.value.1, rest, r);
      }
    }
  }

  /** One draw in front of the remaining draws of a run keeps what DrawsFrom
      says about them, from the draw's own position. */
  lemma PrependItems(nodes: seq<Node>, i: int, gIndex: int, gRarity: Option<int>, ptr: int, lastId: Option<ItemId>,
                     b: Banner, catalog: Catalog, forced: bool, it: RolledItem, cell: Cell,
                     rest: Option<TenAcc>, r: Option<TenAcc>)
    requires DrawAt(nodes, i, gIndex, gRarity, ptr, lastId, b, catalog, forced, it, cell)
    requires r == Prepend([it], [cell], rest)
    requires rest.Some? ==>
      DrawsFrom(nodes, i + 1, gIndex, gRarity, ptr + NodeCost(it), it.itemId, b, catalog, forced,
                rest.value.items, rest.value.cells) &&
      rest.value.lastId == PrevId(it.itemId, rest.value.items, |rest.value.items|)
    ensures r.Some? ==>
      DrawsFrom(nodes, i, gIndex, gRarity, ptr, lastId, b, catalog, forced, r.value.items, r.value.cells) &&
      r.value.lastId == PrevId(lastId, r.value.items, |r.value.items|)
  {
    if rest.Some? {
      var items := [it] + rest.value.items;
      assert items[1..] == rest.value.items && ([cell] + rest.value.cells)[1..] == rest.value.cells;
      assert PrevId(lastId, items, |items|) == PrevId(it.itemId, rest.value.items, |rest.value.items|);
    }
  }

  /** One more draw in front of the remaining draws keeps their shape, shifted
      by one position. */
  lemma PrependShape(i: int, gIndex: int, ptr: int, it: RolledItem, cell: Cell, ptr': int, rest: Option<TenAcc>,
                     r: Option<TenAcc>)
    requires 0 <= i < 10 && it.isGuaranteed == (i == gIndex) && ptr' == ptr + NodeCost(it)
    requires r == Prepend([it], [cell], rest)
    requires rest.Some? ==>
      |rest.value.items| == 10 - (i + 1) && |rest.value.cells| == 10 - (i + 1) &&
      rest.value.ptr == ptr' + NodesUsed(rest.value.items) &&
      forall k :: 0 <= k < |rest.value.items| ==> (rest.value.items[k].isGuaranteed <==> i + 1 + k == gIndex)
    ensures r.Some? ==>
      |r.value.items| == 10 - i && |r.value.cells| == 10 - i &&
      r.value.ptr == ptr + NodesUsed(r.value.items) &&
      forall k :: 0 <= k < |r.value.items| ==> (r.value.items[k].isGuaranteed <==> i + k == gIndex)
  {
    if rest.Some? {
      NodesUsedCons(it, rest.value.items);
      var items := [it] + rest.value.items;
      forall k | 0 <= k < |items|
        ensures items[k].isGuaranteed <==> i + k == gIndex
      {
        if k > 0 {
          assert items[k] == rest.value.items[k - 1];
        }
      }
    }
  }

  lemma {:induction false} NodesUsedCons(it: RolledItem, rest: seq<RolledItem>)
    ensures NodesUsed([it] + rest) == NodeCost(it) + NodesUsed(rest)
    decreases |rest|
  {
    if rest != [] {
      var s := [it] + rest;
      assert s[..|s| - 1] == [it] + rest[..|rest| - 1];
      NodesUsedCons(it, rest[..|rest| - 1]);
    } else {
      assert [it] + rest == [it];
      assert ([it] + rest)[..0] == [];
    }
  }

  /** The guaranteed rarity a ten-draw decides at its head: the head node's
      `rarityGId`, when the pity draw falls inside the draw and the divisor is
      positive. */
  function HeadRarityOf(n: Node): Option<int>
  {
    if n.g.Some? then Some(n.g.value.rarityGId) else None
  }

  /** The result of a ten-draw whose draws ended in acc. */
  function TenResultOf(acc: Option<TenAcc>, startIdx: int, nextNg: Option<int>): Option<TenResult>
  {
    if acc.None? then None
    else Some(TenResult(acc.value.items, acc.value.ptr - startIdx, acc.value.lastId, nextNg, acc.value.cells))
  }

  /** `simulateTenRoll(startIdx, lastId, _, currentNg, gacha, Nodes)`. */
  function SimulateTenRoll(nodes: seq<Node>, startIdx: int, lastId: Option<ItemId>, currentNg: Option<int>,
                           b: Banner, catalog: Catalog, forced: bool): (r: Option<TenResult>)
  {
    var gIndex := CompletedRoutes.GuaranteedIndex(currentNg);
    var headUsed := gIndex != -1 && GuaranteeDivisor(b) > 0;
    if headUsed && !(1 <= startIdx <= |nodes|) then None
    else
      var gRarity := if headUsed then HeadRarityOf(nodes[startIdx - 1]) else None;
      var ptr := startIdx + if headUsed then 1 else 0;
      TenResultOf(TenDraws(nodes, 0, gIndex, gRarity, ptr, lastId, b, catalog, forced), startIdx,
                  NextNgLinear(currentNg, 10, CycleOr(b, 10)))
  }

  /** A ten-draw yields exactly ten items and ten cells; the item at position
      `currentNg - 1` is the pity draw when the counter is in 1..10, and no
      other; it uses as many nodes as its cursor advanced, one more than its
      items take when the head decided the guaranteed rarity; its counter has
      jumped ten draws. */
  lemma TenRollShape(nodes: seq<Node>, startIdx: int, lastId: Option<ItemId>, currentNg: Option<int>,
                     b: Banner, catalog: Catalog, forced: bool)
    ensures var r := SimulateTenRoll(nodes, startIdx, lastId, currentNg, b, catalog, forced);
      var gIndex := CompletedRoutes.GuaranteedIndex(currentNg);
      r.Some? ==>
        |r.value.items| == 10 && |r.value.cells| == 10 &&
        r.value.nextNg == NextNgLinear(currentNg, 10, CycleOr(b, 10)) &&
        (forall k :: 0 <= k < 10 ==> (r.value.items[k].isGuaranteed <==> k == gIndex)) &&
        r.value.useSeeds == NodesUsed(r.value.items) + (if gIndex != -1 && GuaranteeDivisor(b) > 0 then 1 else 0)
  {
    var gIndex := CompletedRoutes.GuaranteedIndex(currentNg);
    var headUsed := gIndex != -1 && GuaranteeDivisor(b) > 0;
    if !(headUsed && !(1 <= startIdx <= |nodes|)) {
      var gRarity := if headUsed then HeadRarityOf(nodes[startIdx - 1]) else None;
      var p := startIdx + if headUsed then 1 else 0;
      TenDrawsShape(nodes, 0, gIndex, gRarity, p, lastId, b, catalog, forced,
                    TenDraws(nodes, 0, gIndex, gRarity, p, lastId, b, catalog, forced));
    }
  }

  /** What a ten-draw draws: when the pity draw falls inside it and the
      divisor is positive, the cursor node decides the guaranteed rarity and
      the draws start one node later; draw k then reads the node the earlier
      draws' costs lead to, the pity draw takes its item from the head
      rarity's pool, every other draw the node's item or its re-drawn item
      against the item drawn just before it, and the last id handed on is the
      tenth item. */
  lemma TenRollItems(nodes: seq<Node>, startIdx: int, lastId: Option<ItemId>, currentNg: Option<int>,
                     b: Banner, catalog: Catalog, forced: bool)
    requires SimulateTenRoll(nodes, startIdx, lastId, currentNg, b, catalog, forced).Some?
    ensures var r := SimulateTenRoll(nodes, startIdx, lastId, currentNg, b, catalog, forced).value;
      var gIndex := CompletedRoutes.GuaranteedIndex(currentNg);
      var headUsed := gIndex != -1 && GuaranteeDivisor(b) > 0;
      (headUsed ==> 1 <= startIdx <= |nodes|) &&
      var gRarity := if headUsed then HeadRarityOf(nodes[startIdx - 1]) else None;
      var p := startIdx + if headUsed then 1 else 0;
      r.nextLastId == PrevId(lastId, r.items, |r.items|) &&
      DrawsFrom(nodes, 0, gIndex, gRarity, p, lastId, b, catalog, forced, r.items, r.cells)
  {
    var gIndex := CompletedRoutes.GuaranteedIndex(currentNg);
    var headUsed := gIndex != -1 && GuaranteeDivisor(b) > 0;
    var gRarity := if headUsed then HeadRarityOf(nodes[startIdx - 1]) else None;
    var p := startIdx + if headUsed then 1 else 0;
    var acc := TenDraws(nodes, 0, gIndex, gRarity, p, lastId, b, catalog, forced);
    var r := SimulateTenRoll(nodes, startIdx, lastId, currentNg, b, catalog, forced);
    assert r == TenResultOf(acc, startIdx, NextNgLinear(currentNg, 10, CycleOr(b, 10)));
    ResultDraws(nodes, startIdx, gIndex, gRarity, p, lastId, b, catalog, forced, acc, r);
  }

  /** A ten-draw's result carries the draws of the run it was made from. */
  lemma ResultDraws(nodes: seq<Node>, startIdx: int, gIndex: int, gRarity: Option<int>, p: int,
                    lastId: Option<ItemId>, b: Banner, catalog: Catalog, forced: bool,
                    acc: Option<TenAcc>, r: Option<TenResult>)
    requires acc == TenDraws(nodes, 0, gIndex, gRarity, p, lastId, b, catalog, forced)
    requires r.Some? && r == TenResultOf(acc, startIdx, r.value.nextNg)
    ensures r.value.nextLastId == PrevId(lastId, r.value.items, |r.value.items|)
    ensures DrawsFrom(nodes, 0, gIndex, gRarity, p, lastId, b, catalog, forced, r.value.items, r.value.cells)
  {
    TenDrawsItems(nodes, 0, gIndex, gRarity, p, lastId, b, catalog, forced, acc);
  }

  /** With 30 nodes left at the cursor a ten-draw always completes: even
      deciding the head rarity and rerolling every draw reads no further. */
  lemma {:induction false} TenDrawsDefined(nodes: seq<Node>, i: int, gIndex: int, gRarity: Option<int>, ptr: int,
                                           lastId: Option<ItemId>, b: Banner, catalog: Catalog, forced: bool)
    requires 0 <= i <= 10 && ptr >= 1 && ptr + 3 * (10 - i) - 3 < |nodes|
    ensures TenDraws(nodes, i, gIndex, gRarity, ptr, lastId, b, catalog, forced).Some?
    decreases 10 - i
  {
    if i < 10 {
      var p := TenPosition(nodes, i, gIndex, gRarity, ptr, lastId, b, catalog, forced);
      TenDrawsDefined(nodes, i + 1, gIndex, gRarity, p.value.2, p.value.0.itemId, b, catalog, forced);
    }
  }

  lemma TenRollDefined(nodes: seq<Node>, startIdx: int, lastId: Option<ItemId>, currentNg: Option<int>,
                       b: Banner, catalog: Catalog, forced: bool)
    requires 1 <= startIdx && startIdx + 30 <= |nodes|
    ensures SimulateTenRoll(nodes, startIdx, lastId, currentNg, b, catalog, forced).Some?
  {
    var gIndex := CompletedRoutes.GuaranteedIndex(currentNg);
    var headUsed := gIndex != -1 && GuaranteeDivisor(b) > 0;
    var gRarity := if headUsed then HeadRarityOf(nodes[startIdx - 1]) else None;
    TenDrawsDefined(nodes, 0, gIndex, gRarity, startIdx + if headUsed then 1 else 0, lastId, b, catalog, forced);
  }

  /** The head rarity decision takes the cursor node: when the pity draw falls
      in the ten-draw and the divisor is positive, the first draw reads the
      node after the cursor; otherwise it reads the cursor node itself. */
  lemma TenRollFirstCell(nodes: seq<Node>, startIdx: int, lastId: Option<ItemId>, currentNg: Option<int>,
                         b: Banner, catalog: Catalog, forced: bool)
    requires SimulateTenRoll(nodes, startIdx, lastId, currentNg, b, catalog, forced).Some?
    ensures var r := SimulateTenRoll(nodes, startIdx, lastId, currentNg, b, catalog, forced).value;
      var gIndex := CompletedRoutes.GuaranteedIndex(currentNg);
      var p := if gIndex != -1 && GuaranteeDivisor(b) > 0 then startIdx + 1 else startIdx;
      1 <= p <= |nodes| &&
      r.cells[0].addr == nodes[p - 1].address + (if gIndex == 0 then "G" else "")
  {
    var gIndex := CompletedRoutes.GuaranteedIndex(currentNg);
    var headUsed := gIndex != -1 && GuaranteeDivisor(b) > 0;
    var gRarity := if headUsed then HeadRarityOf(nodes[startIdx - 1]) else None;
    var p := startIdx + if headUsed then 1 else 0;
    var pos := TenPosition(nodes, 0, gIndex, gRarity, p, lastId, b, catalog, forced);
    assert pos.Some?;
    assert nodes[p - 1].address + "" == nodes[p - 1].address;
  }

  /** One unfolding of TenDraws before the last position. */
  lemma TenDrawsUnfold(nodes: seq<Node>, i: int, gIndex: int, gRarity: Option<int>, ptr: int,
                       lastId: Option<ItemId>, b: Banner, catalog: Catalog, forced: bool)
    requires 0 <= i < 10
    ensures var pos := TenPosition(nodes, i, gIndex, gRarity, ptr, lastId, b, catalog, forced);
      TenDraws(nodes, i, gIndex, gRarity, ptr, lastId, b, catalog, forced)
      == if pos.None? then None
         else Prepend([pos.value.0], [pos.value.1],
                      TenDraws(nodes, i + 1, gIndex, gRarity, pos.value.2, pos.value.0.itemId, b, catalog, forced))
  {
  }

  /** Items and cells already drawn, put in front of the rest of a ten-draw. */
  function Prepend(items: seq<RolledItem>, cells: seq<Cell>, r: Option<TenAcc>): Option<TenAcc>
  {
    if r.None? then None else Some(TenAcc(items + r.value.items, cells + r.value.cells, r.value.ptr, r.value.lastId))
  }

  lemma PrependTwice(items: seq<RolledItem>, cells: seq<Cell>, it: RolledItem, cell: Cell, r: Option<TenAcc>)
    ensures Prepend(items, cells, Prepend([it], [cell], r)) == Prepend(items + [it], cells + [cell], r)
  {
    if r.Some? {
      AppendAssoc(items, [it], r.value.items);
      AppendAssoc(cells, [cell], r.value.cells);
    }
  }

  /** The `for (i …)` loop of `simulateTenRoll`, which returns null as soon
      as its cursor leaves the arena. */
  method RunTenDraws(nodes: seq<Node>, gIndex: int, gRarity: Option<int>, startPtr: int,
                     lastId: Option<ItemId>, b: Banner, catalog: Catalog, forced: bool)
    returns (r: Option<TenAcc>)
    ensures r == TenDraws(nodes, 0, gIndex, gRarity, startPtr, lastId, b, catalog, forced)
  {
    var items: seq<RolledItem> := [];
    var cells: seq<Cell> := [];
    var ptr, tempLastId := startPtr, lastId;
    ghost var whole := TenDraws(nodes, 0, gIndex, gRarity, ptr, lastId, b, catalog, forced);
    assert whole.Some? ==> [] + whole.value.items == whole.value.items && [] + whole.value.cells == whole.value.cells;
    for i := 0 to 10
      invariant whole == Prepend(items, cells, TenDraws(nodes, i, gIndex, gRarity, ptr, tempLastId, b, catalog, forced))
    {
      TenDrawsUnfold(nodes, i, gIndex, gRarity, ptr, tempLastId, b, catalog, forced);
      var pos := TenPosition(nodes, i, gIndex, gRarity, ptr, tempLastId, b, catalog, forced);
      if pos.None? {
        return None;
      }
      var (it, cell, ptr') := pos.value;
      PrependTwice(items, cells, it, cell, TenDraws(nodes, i + 1, gIndex, gRarity, ptr', it.itemId, b, catalog, forced));
      items := items + [it];
      cells := cells + [cell];
      ptr, tempLastId := ptr', it.itemId;
    }
    assert items + [] == items && cells + [] == cells;
    r := Some(TenAcc(items, cells, ptr, tempLastId));
  }

  /** `simulateTenRoll`: the head decision, then the draws. */
  method RunTenRoll(nodes: seq<Node>, startIdx: int, lastId: Option<ItemId>, currentNg: Option<int>,
                    b: Banner, catalog: Catalog, forced: bool)
    returns (r: Option<TenResult>)
    ensures r == SimulateTenRoll(nodes, startIdx, lastId, currentNg, b, catalog, forced)
  {
    var gCycle := CycleOr(b, 10);
    var gDiv := GuaranteeDivisor(b);
    var guaranteedRollIndex := -1;
    if currentNg.Some? && currentNg.value >= 1 && currentNg.value <= 10 {
      guaranteedRollIndex := currentNg.value - 1;
    }
    var guaranteedRarityId: Option<int> := None;
    var raritySeedConsumed := 0;
    if guaranteedRollIndex != -1 && gDiv > 0 {
      if !(1 <= startIdx <= |nodes|) {
        return None;
      }
      guaranteedRarityId := HeadRarityOf(nodes[startIdx - 1]);
      raritySeedConsumed := 1;
    }
    assert guaranteedRollIndex == CompletedRoutes.GuaranteedIndex(currentNg);
    var acc := RunTenDraws(nodes, guaranteedRollIndex, guaranteedRarityId, startIdx + raritySeedConsumed,
                           lastId, b, catalog, forced);
    var nextNg := GetNextNgLinear(currentNg, 10, gCycle);
    r := TenResultOf(acc, startIdx, nextNg);
  }
}
