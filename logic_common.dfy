/** Shared computations of both table models (logic-common.js): the seed list,
    rarity from a roll, cell addresses, safe item names and the highlight
    class of a cell. Also the rarity thresholds the page derives from a
    banner's rates (main.js). */
module LogicCommon {
  import opened JsValues
  import opened Master
  import Utils

  // ---------------------------------------------------------------------------
  // Seed list
  // ---------------------------------------------------------------------------

  /** The i-th value of the stream started at `s0`. */
  function SeedAt(s0: bv32, i: nat): bv32
  {
    if i == 0 then s0 else Utils.Xorshift32(SeedAt(s0, i - 1))
  }

  /** The list `generateSeedList(s0, count)` produces, as a value. */
  function SeedList(s0: bv32, count: int): seq<bv32>
  {
    seq(Max(1, count), i requires 0 <= i => SeedAt(s0, i))
  }

  /** The numeric value of a seed (`seed % 10000` and friends read it so). */
  function Val(s: bv32): nat
  {
    s as int
  }

  /** `generateSeedList`: the start value followed by its xorshift successors,
      `max(1, count)` values in all. */
  method GenerateSeedList(initialSeed: bv32, count: int) returns (seeds: seq<bv32>)
    ensures |seeds| == Max(1, count)
    ensures seeds[0] == initialSeed
    ensures forall i :: 1 <= i < |seeds| ==> seeds[i] == Utils.Xorshift32(seeds[i - 1])
    ensures seeds == SeedList(initialSeed, count)
  {
    seeds := [initialSeed];
    var i := 1;
    while i < count
      invariant 1 <= i <= Max(1, count)
      invariant |seeds| == i
      invariant forall k :: 0 <= k < i ==> seeds[k] == SeedAt(initialSeed, k)
    {
      seeds := seeds + [Utils.Xorshift32(seeds[i - 1])];
      i := i + 1;
    }
  }

  /** Seed lists of different lengths from one start value agree where both
      are defined: a longer table only extends a shorter one. */
  lemma SeedListsAgree(s0: bv32, m: int, n: int, i: nat)
    requires i < |SeedList(s0, m)| && i < |SeedList(s0, n)|
    ensures SeedList(s0, m)[i] == SeedList(s0, n)[i]
  {
  }

  // ---------------------------------------------------------------------------
  // Rarity from a roll
  // ---------------------------------------------------------------------------

  /** The four cumulative boundaries `thresholds['0'..'3']`; rarity 4 takes
      every roll from the last boundary up. */
  datatype Thresholds = Thresholds(t0: int, t1: int, t2: int, t3: int)

  function Threshold(th: Thresholds, k: int): int
  {
    if k <= 0 then th.t0 else if k == 1 then th.t1 else if k == 2 then th.t2 else th.t3
  }

  predicate Sorted(th: Thresholds)
  {
    th.t0 <= th.t1 <= th.t2 <= th.t3
  }

  /** The thresholds object built from a banner's rates: prefix sums of the
      rates of rarities 0..3. */
  function ThresholdsFromRates(r: Rates): (th: Thresholds)
    ensures r.r0 >= 0 && r.r1 >= 0 && r.r2 >= 0 && r.r3 >= 0 ==> Sorted(th)
    ensures th.t3 - th.t2 == r.r3 && th.t2 - th.t1 == r.r2 && th.t1 - th.t0 == r.r1 && th.t0 == r.r0
  {
    Thresholds(r.r0, r.r0 + r.r1, r.r0 + r.r1 + r.r2, r.r0 + r.r1 + r.r2 + r.r3)
  }

  /** `getRarityFromRoll(...).id`: the lowest rarity whose boundary exceeds the
      roll, else 4. */
  function RarityFromRoll(roll: int, th: Thresholds): (id: int)
    ensures 0 <= id <= 4
    ensures forall k :: 0 <= k < id ==> roll >= Threshold(th, k)
    ensures id < 4 ==> roll < Threshold(th, id)
  {
    if roll < th.t0 then 0
    else if roll < th.t1 then 1
    else if roll < th.t2 then 2
    else if roll < th.t3 then 3
    else 4
  }

  /** Rarity k's band of rolls: from the previous boundary up to its own. */
  predicate InBand(roll: int, th: Thresholds, k: int)
  {
    (k == 0 || roll >= Threshold(th, k - 1)) && (k == 4 || roll < Threshold(th, k))
  }

  /** With sorted boundaries the five bands partition the rolls: a roll gets
      rarity k exactly when it lies in band k. */
  lemma RarityBands(roll: int, th: Thresholds, k: int)
    requires Sorted(th) && 0 <= k <= 4
    ensures RarityFromRoll(roll, th) == k <==> InBand(roll, th, k)
  {
  }

  /** With sorted boundaries a larger roll never yields a smaller rarity. */
  lemma RarityMonotone(a: int, b: int, th: Thresholds)
    requires Sorted(th) && a <= b
    ensures RarityFromRoll(a, th) <= RarityFromRoll(b, th)
  {
  }

  // ---------------------------------------------------------------------------
  // The pity counter
  // ---------------------------------------------------------------------------

  /** The linear pity rule every walker applies after each draw: an active
      counter is decremented and restarts at the cycle once it reaches 0 or
      below; an unset counter ('none', or a value that is not a number) is
      inert. */
  function TickCounter(ng: Option<int>, gCycle: int): (next: Option<int>)
    ensures ng.None? <==> next.None?
    ensures ng.Some? && gCycle >= 1 ==> next.value >= 1
    ensures ng.Some? && ng.value > 1 ==> next.value == ng.value - 1
  {
    match ng
    case None => None
    case Some(n) => Some(if n - 1 <= 0 then gCycle else n - 1)
  }

  /** The counter after k draws. */
  function TickN(ng: Option<int>, gCycle: int, k: nat): Option<int>
  {
    if k == 0 then ng else TickCounter(TickN(ng, gCycle, k - 1), gCycle)
  }

  /** Started anywhere in 1..gCycle the counter runs down through every value
      of the cycle and wraps: after k draws it is ((c - 1 - k) mod gCycle) + 1,
      so it never reaches 0 and reads 1 exactly once per cycle. */
  lemma {:induction false} CounterPeriodic(c: int, gCycle: int, k: nat)
    requires 1 <= c <= gCycle
    ensures TickN(Some(c), gCycle, k) == Some((c - 1 - k) % gCycle + 1)
  {
    if k == 0 {
      ModUnique(c - 1, gCycle, 0, c - 1);
    } else {
      CounterPeriodic(c, gCycle, k - 1);
      ModStep(c - 1 - k, gCycle);
      var x := c - 1 - k;
      var prev := (x + 1) % gCycle;
      assert TickN(Some(c), gCycle, k) == TickCounter(Some(prev + 1), gCycle);
    }
  }

  lemma ModStep(x: int, g: int)
    requires g >= 1
    ensures 0 <= (x + 1) % g < g
    ensures (x + 1) % g == 0 ==> x % g == g - 1
    ensures (x + 1) % g != 0 ==> x % g == (x + 1) % g - 1
  {
    var q := (x + 1) / g;
    var r := (x + 1) % g;
    assert x + 1 == g * q + r;
    if r == 0 {
      assert x == g * (q - 1) + (g - 1);
      ModUnique(x, g, q - 1, g - 1);
    } else {
      ModUnique(x, g, q, r - 1);
    }
  }

  /** Euclidean division has a unique quotient and remainder. */
  lemma ModUnique(x: int, g: int, q: int, r: int)
    requires g >= 1 && 0 <= r < g && x == g * q + r
    ensures x % g == r
  {
    var q0, r0 := x / g, x % g;
    assert g * q0 + r0 == g * q + r;
    var d := q0 - q;
    assert g * d == r - r0;
  }

  /** An unset counter never triggers a guarantee. */
  lemma UnsetCounterStaysUnset(gCycle: int, k: nat)
    ensures TickN(None, gCycle, k) == None
  {
  }

  // ---------------------------------------------------------------------------
  // Addresses
  // ---------------------------------------------------------------------------

  function DigitChar(d: int): char
    requires 0 <= d < 10
  {
    (48 + d) as char
  }

  /** The decimal text of a row number, as a template literal renders it. */
  function NatToString(n: nat): (s: string)
    ensures |s| >= 1
    ensures forall i :: 0 <= i < |s| ==> '0' <= s[i] <= '9'
    ensures n >= 10 ==> |s| >= 2
  {
    if n < 10 then [DigitChar(n)] else NatToString(n / 10) + [DigitChar(n % 10)]
  }

  lemma {:induction false} NatToStringInjective(a: nat, b: nat)
    requires NatToString(a) == NatToString(b)
    ensures a == b
  {
    var s := NatToString(a);
    if a >= 10 && b >= 10 {
      assert NatToString(a / 10) == s[..|s| - 1] == NatToString(b / 10);
      NatToStringInjective(a / 10, b / 10);
      assert a % 10 == b % 10 by { assert DigitChar(a % 10) == s[|s| - 1] == DigitChar(b % 10); }
    }
  }

  function ColumnLetter(c: int): char
    requires 0 <= c < 26
  {
    (65 + c) as char
  }

  /** `getAddressStringGeneric(n, cols)`: the column letter of a 1-based
      index followed by its row number; empty for n <= 0. */
  function AddressString(n: int, cols: int): (s: string)
    requires 1 <= cols <= 26
    ensures n <= 0 <==> s == ""
    ensures n >= 1 ==> s[0] == ColumnLetter((n - 1) % cols) && s[1..] == NatToString((n - 1) / cols + 1)
  {
    if n <= 0 then ""
    else [ColumnLetter((n - 1) % cols)] + NatToString((n - 1) / cols + 1)
  }

  /** Distinct positive indices get distinct addresses. */
  lemma AddressInjective(n: int, m: int, cols: int)
    requires 1 <= cols <= 26 && n >= 1 && m >= 1
    requires AddressString(n, cols) == AddressString(m, cols)
    ensures n == m
  {
    DivModBounds(n - 1, cols);
    DivModBounds(m - 1, cols);
    var qn, rn := (n - 1) / cols, (n - 1) % cols;
    var qm, rm := (m - 1) / cols, (m - 1) % cols;
    ConsInjective(ColumnLetter(rn), NatToString(qn + 1), ColumnLetter(rm), NatToString(qm + 1));
    NatToStringInjective(qn + 1, qm + 1);
    ColumnLetterInjective(rn, rm);
    DivModDetermine(n - 1, m - 1, cols);
  }

  lemma DivModBounds(x: int, k: int)
    requires x >= 0 && k >= 1
    ensures x / k >= 0 && 0 <= x % k < k
  {
  }

  lemma ConsInjective(c: char, s: string, d: char, t: string)
    requires [c] + s == [d] + t
    ensures c == d && s == t
  {
    assert s == ([c] + s)[1..];
    assert t == ([d] + t)[1..];
  }

  lemma ColumnLetterInjective(c: int, d: int)
    requires 0 <= c < 26 && 0 <= d < 26 && ColumnLetter(c) == ColumnLetter(d)
    ensures c == d
  {
    assert ColumnLetter(c) as int == 65 + c;
    assert ColumnLetter(d) as int == 65 + d;
  }

  lemma DivModDetermine(x: int, y: int, k: int)
    requires k >= 1 && x / k == y / k && x % k == y % k
    ensures x == y
  {
    assert x == k * (x / k) + x % k;
    assert y == k * (y / k) + y % k;
  }

  /** In the two-column table an address holds the letter 'A' exactly when it
      is in column A (odd index), and 'B' exactly when in column B. */
  lemma TwoColumnLetters(n: int)
    requires n >= 1
    ensures 'A' in AddressString(n, 2) <==> n % 2 == 1
    ensures 'B' in AddressString(n, 2) <==> n % 2 == 0
  {
    var s := AddressString(n, 2);
    assert s == [s[0]] + s[1..];
    assert 'A' !in s[1..] && 'B' !in s[1..];
  }

  // ---------------------------------------------------------------------------
  // Pools
  // ---------------------------------------------------------------------------

  /** `pool[slot]`, or undefined when the slot is outside the pool. */
  function PoolItem(pool: seq<ItemId>, slot: int): (item: Option<ItemId>)
    ensures item.Some? <==> 0 <= slot < |pool|
    ensures item.Some? ==> item.value in pool
  {
    if 0 <= slot < |pool| then Some(pool[slot]) else None
  }

  /** `pool.filter(id => id !== x)`: the re-draw pool of a duplicate. */
  function Without(pool: seq<ItemId>, x: ItemId): (rest: seq<ItemId>)
    ensures |rest| <= |pool|
    ensures forall y :: y in rest <==> y in pool && y != x
  {
    if pool == [] then []
    else (if pool[0] == x then [] else [pool[0]]) + Without(pool[1..], x)
  }

  // ---------------------------------------------------------------------------
  // Item names
  // ---------------------------------------------------------------------------

  /** `getItemNameSafe`: the catalog name, or '---' for -1, undefined, an id the
      catalog lacks, or an empty name. */
  function ItemNameSafe(id: Option<ItemId>, catalog: Catalog): (name: string)
    ensures name != ""
    ensures id.None? || id == Some(-1) ==> name == "---"
    ensures id.Some? && id.value !in catalog ==> name == "---"
    ensures id.Some? && id.value != -1 && id.value in catalog && catalog[id.value].name != "" ==>
              name == catalog[id.value].name
  {
    if id.None? || id.value == -1 then "---"
    else if id.value in catalog && catalog[id.value].name != "" then catalog[id.value].name
    else "---"
  }

  // ---------------------------------------------------------------------------
  // Highlight class
  // ---------------------------------------------------------------------------

  /** A roll label stored in a highlight entry: a plain roll number, or the
      `${roll}g` text the stock-limited table stores for a guaranteed draw. */
  datatype RollLabel = RollNo(n: int) | GuaranteedRollNo(n: int)

  /** `label % 10 === 0`; the text `${roll}g` yields NaN and never matches. */
  predicate IsTenthRoll(l: Option<RollLabel>)
  {
    l.Some? && l.value.RollNo? && l.value.n % 10 == 0
  }

  /** The fields of a highlight entry that decide its class. */
  datatype HighlightFlags = HighlightFlags(
    single: bool, singleRoll: Option<RollLabel>, ten: bool, tenRoll: Option<RollLabel>)

  const OverlapDark := "highlight-roll-overlap-dark"
  const Overlap := "highlight-roll-overlap"
  const SingleDark := "highlight-roll-dark"
  const SingleClass := "highlight-roll"
  const TenDark := "highlight-roll-10pull-dark"
  const TenClass := "highlight-roll-10pull"

  predicate IsDarkClass(c: string)
  {
    c == OverlapDark || c == SingleDark || c == TenDark
  }

  /** `determineHighlightClass`: no class without an entry or without a route;
      an overlap class exactly when both routes touch the cell; a dark variant
      exactly when a route touching it does so on a roll number that is a
      multiple of 10. */
  function DetermineHighlightClass(info: Option<HighlightFlags>): (cls: string)
    ensures cls == "" <==> info.None? || (!info.value.single && !info.value.ten)
    ensures info.Some? && info.value.single && info.value.ten <==> cls == Overlap || cls == OverlapDark
    ensures info.Some? && info.value.single && !info.value.ten ==> cls == SingleClass || cls == SingleDark
    ensures info.Some? && !info.value.single && info.value.ten ==> cls == TenClass || cls == TenDark
    ensures IsDarkClass(cls) <==>
              info.Some? && ((info.value.single && IsTenthRoll(info.value.singleRoll))
                          || (info.value.ten && IsTenthRoll(info.value.tenRoll)))
  {
    if info.None? then ""
    else
      var f := info.value;
      var single10 := f.single && IsTenthRoll(f.singleRoll);
      var ten10 := f.ten && IsTenthRoll(f.tenRoll);
      if f.single && f.ten then (if single10 || ten10 then OverlapDark else Overlap)
      else if f.single then (if single10 then SingleDark else SingleClass)
      else if f.ten then (if ten10 then TenDark else TenClass)
      else ""
  }
}
