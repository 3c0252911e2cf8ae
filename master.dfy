/** Shapes of the static master data (banners and item catalog), with a few
    entries of the shipped tables as fixtures. */
module Master {
  import opened JsValues

  type ItemId = int

  /** One entry of the item catalog: display name and rarity id (0 Normal,
      1 Rare, 2 Super Rare, 3 Uber Rare, 4 Legend Rare). */
  datatype CatalogItem = CatalogItem(name: string, rarity: int)

  type Catalog = map<ItemId, CatalogItem>

  /** The five rarity rates, out of 10000. */
  datatype Rates = Rates(r0: int, r1: int, r2: int, r3: int, r4: int)

  /** A banner configuration. `rarityItems` is derived from `pool` by
      Utils.SetupGachaRarityItems; before that it is empty. */
  datatype Banner = Banner(
    name: string,
    featuredItemRate: int,
    featuredItemStock: int,
    guaranteedCycle: nat,
    uberGuaranteedFlag: bool,
    legendGuaranteedFlag: bool,
    rarityRates: Rates,
    pool: seq<ItemId>,
    rarityItems: seq<seq<ItemId>>)

  /** `gacha.rarityItems[r] || []`. */
  function RarityPool(b: Banner, r: int): (pool: seq<ItemId>)
    ensures 0 <= r < |b.rarityItems| ==> pool == b.rarityItems[r]
    ensures !(0 <= r < |b.rarityItems|) ==> pool == []
  {
    if 0 <= r < |b.rarityItems| then b.rarityItems[r] else []
  }

  /** `gacha.guaranteedCycle || dflt`: an unset (zero) cycle falls back. */
  function CycleOr(b: Banner, dflt: nat): (c: nat)
    ensures b.guaranteedCycle > 0 ==> c == b.guaranteedCycle
    ensures b.guaranteedCycle == 0 ==> c == dflt
  {
    if b.guaranteedCycle == 0 then dflt else b.guaranteedCycle
  }

  /** The Uber weight of a guaranteed draw: `uFlag ? (rates['3'] || 500) : 0`. */
  function UberGuaranteeRate(b: Banner): (u: int)
    ensures !b.uberGuaranteedFlag ==> u == 0
    ensures b.uberGuaranteedFlag ==> u != 0
  {
    if !b.uberGuaranteedFlag then 0
    else if b.rarityRates.r3 == 0 then 500 else b.rarityRates.r3
  }

  /** The Legend weight of a guaranteed draw: `lFlag ? (rates['4'] || 200) : 0`. */
  function LegendGuaranteeRate(b: Banner): (l: int)
    ensures !b.legendGuaranteedFlag ==> l == 0
    ensures b.legendGuaranteedFlag ==> l != 0
  {
    if !b.legendGuaranteedFlag then 0
    else if b.rarityRates.r4 == 0 then 200 else b.rarityRates.r4
  }

  /** The divisor of the guaranteed-rarity roll, `uRate + lRate`. */
  function GuaranteeDivisor(b: Banner): int
  {
    UberGuaranteeRate(b) + LegendGuaranteeRate(b)
  }

  // ---- fixtures from the shipped master tables ----

  /** Banner '45' before its rarity lists are derived. */
  function Banner45(): Banner
  {
    Banner("にゃんこレンジャー", 0, 0, 10, true, false,
           Rates(0, 7000, 2300, 500, 200),
           [0, 2, 3, 4, 5, 11, 12, 14, 197, 184, 375, 726, 831], [])
  }

  /** The shipped item catalog. Item 0 is a real Rare. */
  function ShippedCatalog(): Catalog
  {
    map[0 := CatalogItem("スピダ", 1), 2 := CatalogItem("ネコボン", 2),
        3 := CatalogItem("ニャンピュ", 1), 4 := CatalogItem("おかめ", 2),
        5 := CatalogItem("スニャ", 2), 10 := CatalogItem("5千XP", 0),
        11 := CatalogItem("1万XP", 1), 12 := CatalogItem("3万XP", 1),
        14 := CatalogItem("10万XP", 2), 18 := CatalogItem("200万XP", 4),
        197 := CatalogItem("100万XP", 4), 184 := CatalogItem("ミスターニンジャ", 3),
        202 := CatalogItem("ネコ小籠包", 3), 375 := CatalogItem("記念ネコ", 3),
        381 := CatalogItem("ねこ農家", 3), 646 := CatalogItem("爆竹ネコ", 3),
        689 := CatalogItem("石の上にも10年ネコ", 3), 726 := CatalogItem("ネコメダル王", 3),
        730 := CatalogItem("古びたタマゴ:N204", 3), 831 := CatalogItem("スカーフにゃんこ", 3)]
  }
}
