/** The pseudo-random step, the per-rarity split of banner pools, and the
    duplicate rule of the item comparison (utils.js). */
module Utils {
  import opened JsValues
  import opened Master

  // ---------------------------------------------------------------------------
  // xorshift32
  // ---------------------------------------------------------------------------

  /** One xorshift step on the 32-bit pattern: `x ^= x << 13; x ^= x >>> 17;
      x ^= x << 15`. JavaScript's `<<` and `^` work on the same 32 bits as
      signed integers and the final `>>> 0` reads them back unsigned, so
      bit-vector arithmetic is exact here. */
  function XorshiftBits(x: bv32): bv32
  {
    var a := x ^ (x << 13);
    var b := a ^ (a >> 17);
    b ^ (b << 15)
  }

  /** Undoes XorshiftBits, one shift at a time in reverse order. */
  function UnshiftBits(y: bv32): bv32
  {
    var b := y ^ (y << 15) ^ (y << 30);
    var a := b ^ (b >> 17);
    a ^ (a << 13) ^ (a << 26)
  }

  /** The next seed of the stream (`xorshift32`). Seeds are kept as their
      unsigned 32-bit pattern; zero is the only seed that maps to zero, so a
      stream started from a non-zero seed never reaches zero. */
  function Xorshift32(seed: bv32): (r: bv32)
    ensures r == 0 <==> seed == 0
  {
    XorshiftStepInvertible(seed);
    XorshiftBits(seed)
  }

  lemma XorshiftStepInvertible(x: bv32)
    ensures UnshiftBits(XorshiftBits(x)) == x
    ensures XorshiftBits(x) == 0 <==> x == 0
  {
  }

  /** The step is a bijection on 32-bit values: the previous seed can always be
      recovered, so two different seeds never lead to the same next seed. */
  lemma XorshiftRoundTrip(seed: bv32)
    ensures UnshiftBits(Xorshift32(seed)) == seed
  {
    XorshiftStepInvertible(seed);
  }

  lemma XorshiftInjective(a: bv32, b: bv32)
    requires Xorshift32(a) == Xorshift32(b)
    ensures a == b
  {
    XorshiftRoundTrip(a);
    XorshiftRoundTrip(b);
  }

  // ---------------------------------------------------------------------------
  // setupGachaRarityItems
  // ---------------------------------------------------------------------------

  /** The items of `pool`, in pool order, whose catalog rarity is `r`; items
      missing from the catalog are dropped. */
  function PoolOfRarity(pool: seq<ItemId>, catalog: Catalog, r: int): seq<ItemId>
  {
    if pool == [] then []
    else
      var last := pool[|pool| - 1];
      PoolOfRarity(pool[..|pool| - 1], catalog, r)
        + (if last in catalog && catalog[last].rarity == r then [last] else [])
  }

  /** The five per-rarity lists `{ '0': ..., '4': ... }`. */
  function RarityLists(pool: seq<ItemId>, catalog: Catalog): (lists: seq<seq<ItemId>>)
    ensures |lists| == 5
  {
    seq(5, r => PoolOfRarity(pool, catalog, r))
  }

  /** A banner whose rarity lists have been derived from its pool. */
  function Derived(b: Banner, catalog: Catalog): Banner
  {
    b.(rarityItems := RarityLists(b.pool, catalog))
  }

  /** An item is in the rarity-r list exactly when it is in the pool and the
      catalog gives it rarity r. */
  lemma {:induction false} PoolOfRarityMembers(pool: seq<ItemId>, catalog: Catalog, r: int, x: ItemId)
    ensures x in PoolOfRarity(pool, catalog, r) <==> x in pool && x in catalog && catalog[x].rarity == r
  {
    if pool != [] {
      var init := pool[..|pool| - 1];
      PoolOfRarityMembers(init, catalog, r, x);
      assert pool == init + [pool[|pool| - 1]];
    }
  }

  /** No item is lost or duplicated beyond its pool occurrences: every pool item
      with a catalog rarity in 0..4 lands in exactly one list, so the lengths
      add up to the number of such pool entries. */
  function KnownCount(pool: seq<ItemId>, catalog: Catalog): nat
  {
    if pool == [] then 0
    else
      var last := pool[|pool| - 1];
      KnownCount(pool[..|pool| - 1], catalog)
        + (if last in catalog && 0 <= catalog[last].rarity < 5 then 1 else 0)
  }

  lemma {:induction false} RarityListsPartitionPool(pool: seq<ItemId>, catalog: Catalog)
    ensures |PoolOfRarity(pool, catalog, 0)| + |PoolOfRarity(pool, catalog, 1)|
          + |PoolOfRarity(pool, catalog, 2)| + |PoolOfRarity(pool, catalog, 3)|
          + |PoolOfRarity(pool, catalog, 4)| == KnownCount(pool, catalog)
  {
    if pool != [] {
      RarityListsPartitionPool(pool[..|pool| - 1], catalog);
    }
  }

  /** Splits one pool into its five rarity lists by pushing each item, in pool
      order, onto the list of its catalog rarity. */
  method SplitPool(pool: seq<ItemId>, catalog: Catalog) returns (lists: seq<seq<ItemId>>)
    ensures |lists| == 5
    ensures forall r :: 0 <= r < 5 ==> lists[r] == PoolOfRarity(pool, catalog, r)
  {
    lists := [[], [], [], [], []];
    for i := 0 to |pool|
      invariant |lists| == 5
      invariant forall r :: 0 <= r < 5 ==> lists[r] == PoolOfRarity(pool[..i], catalog, r)
    {
      var itemId := pool[i];
      assert pool[..i + 1][..i] == pool[..i];
      if itemId in catalog && 0 <= catalog[itemId].rarity < 5 {
        var r := catalog[itemId].rarity;
        lists := lists[r := lists[r] + [itemId]];
      }
    }
    assert pool[..|pool|] == pool;
  }

  /** Derives the rarity lists of every banner of the table. Each banner is
      replaced by a copy whose `rarityItems` holds the five lists; nothing else
      about any banner changes. */
  method SetupGachaRarityItems(gachas: map<string, Banner>, catalog: Catalog)
    returns (out: map<string, Banner>)
    ensures out.Keys == gachas.Keys
    ensures forall id :: id in out ==> out[id] == Derived(gachas[id], catalog)
  {
    out := gachas;
    var todo := gachas.Keys;
    while todo != {}
      invariant todo <= gachas.Keys
      invariant out.Keys == gachas.Keys
      invariant forall id :: id in gachas && id !in todo ==> out[id] == Derived(gachas[id], catalog)
      decreases todo
    {
      var id :| id in todo;
      var lists := SplitPool(gachas[id].pool, catalog);
      assert lists == RarityLists(gachas[id].pool, catalog);
      out := out[id := gachas[id].(rarityItems := lists)];
      todo := todo - {id};
    }
  }

  /** After setup every banner has the five lists '0'..'4' (possibly empty),
      each the pool-order selection of its rarity. */
  lemma DerivedHasFiveLists(b: Banner, catalog: Catalog, r: int)
    requires 0 <= r < 5
    ensures |Derived(b, catalog).rarityItems| == 5
    ensures RarityPool(Derived(b, catalog), r) == PoolOfRarity(b.pool, catalog, r)
  {
  }

  // ---------------------------------------------------------------------------
  // getFormattedItemComparison: the duplicate flag
  // ---------------------------------------------------------------------------

  /** A node's item counts as a duplicate of the previous item when it is a
      Rare, it is a real item, and its id equals the previous id. */
  function ComparisonIsDupe(nodeRarityId: int, nodeItemId: ItemId, prevItemId: ItemId): (isDupe: bool)
    ensures isDupe ==> nodeItemId == prevItemId && nodeRarityId == 1
    ensures prevItemId == -1 ==> !isDupe
  {
    nodeRarityId == 1 && nodeItemId != -1 && nodeItemId == prevItemId
  }
}
