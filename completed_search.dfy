/** The route search of the completed table (logic-completed-search.js): a
    beam search over ticket tiers. Tier t holds the states reachable by
    spending exactly t tickets, at most one per key (cursor, last id,
    counter); a tier over the beam width is cut to its best states before it
    is expanded by a single draw (1 ticket) and a ten-draw (10 tickets). The
    answer is the best state of the highest non-empty tier. */
module CompletedSearch {
  import opened JsValues
  import opened Master
  import opened CompletedHelpers
  import opened SearchSimulation

  // ---------------------------------------------------------------------------
  // States, keys and scores
  // ---------------------------------------------------------------------------

  /** One entry of a state's path: a single draw with its item, or a
      ten-draw with its ten items; each with the address of the node it
      started from and the cells it lands on. Item names are left to the
      view; the entries keep the item ids. */
  datatype PathStep =
    | SinglePath(item: RolledItem, addr: string, targetCell: string)
    | TenPath(items: seq<RolledItem>, addr: string, targetCells: seq<Cell>)

  /** A search state. */
  datatype State = State(nodeIdx: int, lastId: Option<ItemId>, currentNg: Option<int>,
                         ubers: nat, legends: nat, path: seq<PathStep>, rollCount: int, tickets: int)

  /** The key `${nodeIdx}_${lastId}_${currentNg}` as a structured value. */
  datatype Key = Key(nodeIdx: int, lastId: Option<ItemId>, currentNg: Option<int>)

  function KeyOf(s: State): Key
  {
    Key(s.nodeIdx, s.lastId, s.currentNg)
  }

  /** `calculateScore`: an Uber is worth ten Legends. */
  function Score(s: State): int
  {
    s.ubers * 10000 + s.legends * 1000
  }

  const BeamWidth: nat := 1000

  /** The fixed inputs of one search: the flagged arena, the banner, the
      item catalog, the forced-reroll switch and the ticket budget. */
  datatype SearchEnv = SearchEnv(nodes: seq<Node>, b: Banner, catalog: Catalog, forced: bool, total: nat)

  // ---------------------------------------------------------------------------
  // A tier: an insertion-ordered Map from key to state
  // ---------------------------------------------------------------------------

  /** The values of a tier's Map in insertion order. */
  type Tier = seq<State>

  /** Position of the state stored under key k, or -1. */
  function IndexOf(tier: Tier, k: Key): (i: int)
    ensures -1 <= i < |tier|
    ensures i >= 0 ==> KeyOf(tier[i]) == k && forall j :: 0 <= j < i ==> KeyOf(tier[j]) != k
    ensures i == -1 ==> forall j :: 0 <= j < |tier| ==> KeyOf(tier[j]) != k
  {
    if tier == [] then -1
    else if KeyOf(tier[0]) == k then 0
    else
      var i := IndexOf(tier[1..], k);
      if i == -1 then -1 else i + 1
  }

  /** `map.get(k)`. */
  function Get(tier: Tier, k: Key): Option<State>
  {
    var i := IndexOf(tier, k);
    if i == -1 then None else Some(tier[i])
  }

  /** `map.set(key(s), s)`: a stored key keeps its position, a new key goes
      last. */
  function Put(tier: Tier, s: State): Tier
  {
    var i := IndexOf(tier, KeyOf(s));
    if i == -1 then tier + [s] else tier[i := s]
  }

  /** The keep-if-better insertion: s is stored unless a state with its key
      scores at least as much. */
  function Offer(tier: Tier, s: State): Tier
  {
    var e := Get(tier, KeyOf(s));
    if e.None? || Score(e.value) < Score(s) then Put(tier, s) else tier
  }

  /** No key occurs twice. */
  predicate DistinctKeys(tier: Tier)
  {
    forall i, j :: 0 <= i < j < |tier| ==> KeyOf(tier[i]) != KeyOf(tier[j])
  }

  /** The position of the first state under k is IndexOf's answer. */
  lemma IndexOfAt(tier: Tier, k: Key, i: int)
    requires 0 <= i < |tier| && KeyOf(tier[i]) == k
    requires forall j :: 0 <= j < i ==> KeyOf(tier[j]) != k
    ensures IndexOf(tier, k) == i
  {
  }

  /** After `set` the key reads back the stored state, and every other key
      reads what it read before. */
  lemma GetPut(tier: Tier, s: State, k: Key)
    ensures Get(Put(tier, s), k) == if k == KeyOf(s) then Some(s) else Get(tier, k)
  {
    var i := IndexOf(tier, KeyOf(s));
    var t' := Put(tier, s);
    if k == KeyOf(s) {
      if i == -1 {
        IndexOfAt(t', k, |tier|);
      } else {
        IndexOfAt(t', k, i);
      }
    } else {
      var j0 := IndexOf(tier, k);
      if j0 == -1 {
        assert forall j :: 0 <= j < |t'| ==> KeyOf(t'[j]) != k by {
          forall j | 0 <= j < |t'|
            ensures KeyOf(t'[j]) != k
          {
            if j < |tier| && j != i { assert t'[j] == tier[j]; }
          }
        }
      } else {
        assert forall j :: 0 <= j <= j0 && j != i ==> t'[j] == tier[j];
        IndexOfAt(t', k, j0);
      }
    }
  }

  /** A state under some key is replaced only by a state of strictly higher
      score; every other key keeps its state; the stored score never drops. */
  lemma OfferKeepsBetter(tier: Tier, s: State, k: Key)
    ensures var e := Get(tier, KeyOf(s));
      Get(Offer(tier, s), KeyOf(s)) == (if e.None? || Score(e.value) < Score(s) then Some(s) else e)
    ensures k != KeyOf(s) ==> Get(Offer(tier, s), k) == Get(tier, k)
    ensures var e := Get(Offer(tier, s), KeyOf(s));
      e.Some? && Score(e.value) >= Score(s) &&
      (Get(tier, KeyOf(s)).Some? ==> Score(e.value) >= Score(Get(tier, KeyOf(s)).value))
  {
    GetPut(tier, s, KeyOf(s));
    GetPut(tier, s, k);
  }

  /** `set` keeps the keys distinct and adds at most one state. */
  lemma PutShape(tier: Tier, s: State)
    ensures |tier| <= |Put(tier, s)| <= |tier| + 1
    ensures s in Put(tier, s)
    ensures forall x :: x in Put(tier, s) ==> x == s || x in tier
    ensures DistinctKeys(tier) ==> DistinctKeys(Put(tier, s))
  {
    var i := IndexOf(tier, KeyOf(s));
    if i != -1 {
      assert tier[i := s][i] == s;
      forall x | x in tier[i := s]
        ensures x == s || x in tier
      {
        var m :| 0 <= m < |tier| && tier[i := s][m] == x;
        if m != i { assert x == tier[m]; }
      }
    }
  }

  // ---------------------------------------------------------------------------
  // Pruning
  // ---------------------------------------------------------------------------

  /** The first position whose score is below sc (|s| when none is). */
  function FirstLower(s: Tier, sc: int): (p: int)
    ensures 0 <= p <= |s|
    ensures forall j :: 0 <= j < p ==> Score(s[j]) >= sc
    ensures p < |s| ==> Score(s[p]) < sc
  {
    if s == [] then 0
    else if Score(s[0]) < sc then 0
    else 1 + FirstLower(s[1..], sc)
  }

  /** x inserted after every state scoring at least as much. */
  function InsertDesc(x: State, s: Tier): Tier
  {
    var p := FirstLower(s, Score(x));
    s[..p] + [x] + s[p..]
  }

  /** The order of `sort((a, b) => score(b) - score(a))`: by descending
      score, ties in tier order (the sort is stable). */
  function SortDesc(t: Tier): (r: Tier)
    ensures |r| == |t|
  {
    if t == [] then [] else InsertDesc(t[|t| - 1], SortDesc(t[..|t| - 1]))
  }

  predicate SortedDesc(s: Tier)
  {
    forall i, j :: 0 <= i < j < |s| ==> Score(s[i]) >= Score(s[j])
  }

  /** Where each state of InsertDesc(x, s) comes from. */
  lemma InsertDescAt(x: State, s: Tier, k: int)
    requires 0 <= k <= |s|
    ensures var p := FirstLower(s, Score(x));
      |InsertDesc(x, s)| == |s| + 1 &&
      InsertDesc(x, s)[k] == if k < p then s[k] else if k == p then x else s[k - 1]
  {
  }

  lemma InsertDescSorted(x: State, s: Tier)
    requires SortedDesc(s)
    ensures SortedDesc(InsertDesc(x, s))
  {
    var p := FirstLower(s, Score(x));
    var r := InsertDesc(x, s);
    forall i, j | 0 <= i < j < |r|
      ensures Score(r[i]) >= Score(r[j])
    {
      InsertDescAt(x, s, i);
      InsertDescAt(x, s, j);
      if i == p && j > p {
        assert Score(s[j - 1]) <= Score(s[p]);
      }
    }
  }

  lemma InsertDescMultiset(x: State, s: Tier)
    ensures multiset(InsertDesc(x, s)) == multiset(s) + multiset{x}
  {
    var p := FirstLower(s, Score(x));
    assert s == s[..p] + s[p..];
  }

  /** The sorted tier is a permutation of the tier, in descending score. */
  lemma SortDescPermutation(t: Tier)
    ensures SortedDesc(SortDesc(t))
    ensures multiset(SortDesc(t)) == multiset(t)
  {
    SortDescSorted(t);
    SortDescMultiset(t);
  }

  lemma {:induction false} SortDescSorted(t: Tier)
    ensures SortedDesc(SortDesc(t))
  {
    if t != [] {
      var init, x := t[..|t| - 1], t[|t| - 1];
      SortDescSorted(init);
      InsertDescSorted(x, SortDesc(init));
      assert SortDesc(t) == InsertDesc(x, SortDesc(init));
    }
  }

  lemma {:induction false} SortDescMultiset(t: Tier)
    ensures multiset(SortDesc(t)) == multiset(t)
  {
    if t != [] {
      var init, x := t[..|t| - 1], t[|t| - 1];
      assert t == init + [x];
      SortDescMultiset(init);
      InsertDescMultiset(x, SortDesc(init));
      assert SortDesc(t) == InsertDesc(x, SortDesc(init));
    }
  }

  /** The states of s that score exactly c, in their order in s. */
  function Ties(s: Tier, c: int): (r: Tier)
    ensures |r| <= |s|
  {
    if s == [] then [] else (if Score(s[0]) == c then [s[0]] else []) + Ties(s[1..], c)
  }

  lemma {:induction false} TiesConcat(a: Tier, b: Tier, c: int)
    ensures Ties(a + b, c) == Ties(a, c) + Ties(b, c)
    decreases |a|
  {
    if a != [] {
      assert (a + b)[0] == a[0] && (a + b)[1..] == a[1..] + b;
      TiesConcat(a[1..], b, c);
    } else {
      assert a + b == b;
    }
  }

  /** A run scoring below c holds no tie at c. */
  lemma {:induction false} TiesBelow(s: Tier, c: int)
    requires forall i :: 0 <= i < |s| ==> Score(s[i]) < c
    ensures Ties(s, c) == []
    decreases |s|
  {
    if s != [] {
      TiesBelow(s[1..], c);
    }
  }

  /** Inserting x into a descending list puts it after every state it ties
      with. */
  lemma InsertDescTies(x: State, s: Tier, c: int)
    requires SortedDesc(s)
    ensures Ties(InsertDesc(x, s), c) == Ties(s, c) + Ties([x], c)
  {
    var p := FirstLower(s, Score(x));
    var a, b := s[..p], s[p..];
    assert InsertDesc(x, s) == (a + [x]) + b;
    assert a + b == s;
    TiesConcat(a + [x], b, c);
    TiesConcat(a, [x], c);
    TiesConcat(a, b, c);
    assert Ties(InsertDesc(x, s), c) == Ties(a, c) + Ties([x], c) + Ties(b, c);
    if Score(x) == c {
      LowerTail(s, c);
      TiesBelow(b, c);
    } else {
      assert Ties([x], c) == [];
    }
  }

  /** In a descending list, everything from the first state below sc on is
      below sc. */
  lemma LowerTail(s: Tier, sc: int)
    requires SortedDesc(s)
    ensures var p := FirstLower(s, sc); forall i :: 0 <= i < |s[p..]| ==> Score(s[p..][i]) < sc
  {
    var p := FirstLower(s, sc);
    forall i | 0 <= i < |s[p..]| ensures Score(s[p..][i]) < sc {
      assert s[p..][i] == s[p + i];
      if i > 0 {
        assert Score(s[p + i]) <= Score(s[p]);
      }
    }
  }

  /** The sort is stable: for every score, the states scoring it keep their
      tier order. */
  lemma {:induction false} SortDescStable(t: Tier, c: int)
    ensures Ties(SortDesc(t), c) == Ties(t, c)
  {
    if t != [] {
      var init, x := t[..|t| - 1], t[|t| - 1];
      assert t == init + [x];
      SortDescStable(init, c);
      SortDescSorted(init);
      InsertDescTies(x, SortDesc(init), c);
      TiesConcat(init, [x], c);
      assert SortDesc(t) == InsertDesc(x, SortDesc(init));
    }
  }

  /** Inserting a state whose key is new keeps the keys distinct. */
  lemma InsertDescDistinct(x: State, s: Tier)
    requires DistinctKeys(s) && forall y :: y in s ==> KeyOf(y) != KeyOf(x)
    ensures DistinctKeys(InsertDesc(x, s))
  {
    var p := FirstLower(s, Score(x));
    var r := InsertDesc(x, s);
    forall i, j | 0 <= i < j < |r|
      ensures KeyOf(r[i]) != KeyOf(r[j])
    {
      var si := if i < p then i else i - 1;
      var sj := if j < p then j else j - 1;
      InsertDescAt(x, s, i);
      InsertDescAt(x, s, j);
      if i == p {
        assert r[i] == x && r[j] == s[sj];
      } else if j == p {
        assert r[j] == x && r[i] == s[si];
      } else {
        assert r[i] == s[si] && r[j] == s[sj] && si < sj;
      }
    }
  }

  lemma {:induction false} SortDescDistinct(t: Tier)
    requires DistinctKeys(t)
    ensures DistinctKeys(SortDesc(t))
  {
    if t != [] {
      var init := t[..|t| - 1];
      var x := t[|t| - 1];
      assert DistinctKeys(init);
      SortDescDistinct(init);
      SortDescPermutation(init);
      forall y | y in SortDesc(init)
        ensures KeyOf(y) != KeyOf(x)
      {
        assert y in multiset(init);
        var m :| 0 <= m < |init| && init[m] == y;
      }
      InsertDescDistinct(x, SortDesc(init));
    }
  }

  /** The Map `newDp` built by setting the states of ss in order. */
  function FoldPut(ss: seq<State>): Tier
  {
    if ss == [] then [] else Put(FoldPut(ss[..|ss| - 1]), ss[|ss| - 1])
  }

  /** Setting states with distinct keys into an empty Map keeps them all, in
      order. */
  lemma {:induction false} FoldPutDistinct(ss: seq<State>)
    requires DistinctKeys(ss)
    ensures FoldPut(ss) == ss
  {
    if ss != [] {
      var init := ss[..|ss| - 1];
      assert DistinctKeys(init);
      FoldPutDistinct(init);
      var i := IndexOf(init, KeyOf(ss[|ss| - 1]));
      assert i == -1;
      assert init + [ss[|ss| - 1]] == ss;
    }
  }

  /** The tier `runGachaSearch` expands: itself when it holds at most the beam
      width, else its first BeamWidth states in descending score set into a
      new Map. */
  function Prune(tier: Tier): Tier
  {
    if |tier| > BeamWidth then FoldPut(SortDesc(tier)[..BeamWidth]) else tier
  }

  /** On a tier with one state per key, pruning keeps at most BeamWidth of its
      states, keeps them in descending score, and keeps every state that
      scores more than one it drops. */
  lemma PruneKeepsBest(tier: Tier)
    requires DistinctKeys(tier)
    ensures var p := Prune(tier);
      |p| <= BeamWidth || p == tier
    ensures var p := Prune(tier);
      DistinctKeys(p) && (forall x :: x in p ==> x in tier)
    ensures |tier| > BeamWidth ==>
      var p := Prune(tier);
      |p| == BeamWidth && SortedDesc(p) &&
      forall x, y :: x in p && y in tier && y !in p ==> Score(y) <= Score(x)
  {
    if |tier| > BeamWidth {
      var sorted := SortDesc(tier);
      SortDescPermutation(tier);
      SortDescDistinct(tier);
      var kept := sorted[..BeamWidth];
      PrefixKeepsOrder(sorted, BeamWidth);
      FoldPutDistinct(kept);
      assert Prune(tier) == kept;
      PrefixFromTier(tier, sorted, kept);
      PrefixHoldsBest(tier, sorted, kept);
    }
  }

  /** A prefix keeps distinct keys and descending order. */
  lemma PrefixKeepsOrder(s: Tier, n: int)
    requires 0 <= n <= |s| && DistinctKeys(s) && SortedDesc(s)
    ensures DistinctKeys(s[..n]) && SortedDesc(s[..n])
  {
  }

  /** Every state of a prefix of a permutation of the tier is in the tier. */
  lemma PrefixFromTier(tier: Tier, sorted: Tier, kept: Tier)
    requires multiset(sorted) == multiset(tier) && |kept| <= |sorted| && kept == sorted[..|kept|]
    ensures forall x :: x in kept ==> x in tier
  {
    forall x | x in kept
      ensures x in tier
    {
      assert x in multiset(sorted);
    }
  }

  /** A prefix of the tier sorted by descending score holds a state at least
      as good as any state it leaves out. */
  lemma PrefixHoldsBest(tier: Tier, sorted: Tier, kept: Tier)
    requires multiset(sorted) == multiset(tier) && SortedDesc(sorted)
    requires |kept| <= |sorted| && kept == sorted[..|kept|]
    ensures forall x, y :: x in kept && y in tier && y !in kept ==> Score(y) <= Score(x)
  {
    forall x, y | x in kept && y in tier && y !in kept
      ensures Score(y) <= Score(x)
    {
      assert y in multiset(sorted);
      var iy :| 0 <= iy < |sorted| && sorted[iy] == y;
      var ix :| 0 <= ix < |kept| && kept[ix] == x;
      assert iy >= |kept|;
    }
  }

  /** The `if (dp[t].size > BEAM_WIDTH)` block: sort, then set the first
      BeamWidth states into a new Map. */
  method PruneTier(tier: Tier) returns (newDp: Tier)
    requires |tier| > BeamWidth
    ensures newDp == Prune(tier)
  {
    var sortedStates := SortDesc(tier);
    var n := if |sortedStates| < BeamWidth then |sortedStates| else BeamWidth;
    newDp := [];
    var i := 0;
    while i < n
      invariant 0 <= i <= n == BeamWidth
      invariant newDp == FoldPut(sortedStates[..i])
    {
      FoldPutSnoc(sortedStates, i);
      newDp := Put(newDp, sortedStates[i]);
      i := i + 1;
    }
  }

  /** Folding one more state of ss sets it into the fold of the ones before. */
  lemma FoldPutSnoc(ss: seq<State>, i: int)
    requires 0 <= i < |ss|
    ensures FoldPut(ss[..i + 1]) == Put(FoldPut(ss[..i]), ss[i])
  {
    assert ss[..i + 1][..i] == ss[..i];
  }

  // ---------------------------------------------------------------------------
  // Transitions
  // ---------------------------------------------------------------------------

  /** `Nodes[idx - 1]?.address || '?'`. */
  function AddrAt(nodes: seq<Node>, idx: int): string
  {
    if 1 <= idx <= |nodes| && nodes[idx - 1].address != "" then nodes[idx - 1].address else "?"
  }

  /** Items of the given catalog rarity among the items. */
  function CountRarity(items: seq<RolledItem>, r: int): (n: nat)
    ensures n <= |items|
  {
    if items == [] then 0
    else CountRarity(items[..|items| - 1], r) + (if items[|items| - 1].rarity == r then 1 else 0)
  }

  /** The state after a single draw from s on tier t. */
  function SingleNext(s: State, r: SingleResult, nodes: seq<Node>, t: int): (s': State)
    ensures s'.tickets == t + 1 && s'.rollCount == s.rollCount + 1
    ensures |s'.path| == |s.path| + 1 && s'.path[..|s.path|] == s.path
    ensures s.ubers <= s'.ubers && s.legends <= s'.legends && s'.ubers + s'.legends <= s.ubers + s.legends + 1
    ensures KeyOf(s') == Key(s.nodeIdx + r.useSeeds, r.nextLastId, r.nextNg)
  {
    State(s.nodeIdx + r.useSeeds, r.nextLastId, r.nextNg,
          s.ubers + (if r.item.rarity == 3 then 1 else 0), s.legends + (if r.item.rarity == 4 then 1 else 0),
          s.path + [SinglePath(r.item, AddrAt(nodes, s.nodeIdx), r.cellAddr)], s.rollCount + 1, t + 1)
  }

  /** The state after a ten-draw from s on tier t. */
  function TenNext(s: State, r: TenResult, nodes: seq<Node>, t: int): (s': State)
    ensures s'.tickets == t + 10 && s'.rollCount == s.rollCount + 10 && |s'.path| == |s.path| + 1
    ensures KeyOf(s') == Key(s.nodeIdx + r.useSeeds, r.nextLastId, r.nextNg)
  {
    State(s.nodeIdx + r.useSeeds, r.nextLastId, r.nextNg,
          s.ubers + CountRarity(r.items, 3), s.legends + CountRarity(r.items, 4),
          s.path + [TenPath(r.items, AddrAt(nodes, s.nodeIdx), r.cells)], s.rollCount + 10, t + 10)
  }

  /** The state after a single roll from s, if the roll completes. */
  function SingleSucc(s: State, t: int, env: SearchEnv): Option<State>
  {
    var r := SimulateSingleRoll(env.nodes, s.nodeIdx, s.lastId, s.currentNg, env.b, env.catalog, env.forced);
    if r.Some? then Some(SingleNext(s, r.value, env.nodes, t)) else None
  }

  /** The state after a ten-roll from s, if the ten-roll completes. */
  function TenSucc(s: State, t: int, env: SearchEnv): Option<State>
  {
    var r := SimulateTenRoll(env.nodes, s.nodeIdx, s.lastId, s.currentNg, env.b, env.catalog, env.forced);
    if r.Some? then Some(TenNext(s, r.value, env.nodes, t)) else None
  }

  /** The single-roll successor of s offered to tier t + 1. */
  function ExpandSingle(dp: seq<Tier>, t: int, s: State, env: SearchEnv): (dp': seq<Tier>)
    requires |dp| == env.total + 1 && 0 <= t
    ensures |dp'| == |dp|
  {
    if t + 1 <= env.total then
      var n := SingleSucc(s, t, env);
      if n.Some? then dp[t + 1 := Offer(dp[t + 1], n.value)] else dp
    else dp
  }

  /** The ten-roll successor of s offered to tier t + 10. */
  function ExpandTen(dp: seq<Tier>, t: int, s: State, env: SearchEnv): (dp': seq<Tier>)
    requires |dp| == env.total + 1 && 0 <= t
    ensures |dp'| == |dp|
  {
    if t + 10 <= env.total then
      var n := TenSucc(s, t, env);
      if n.Some? then dp[t + 10 := Offer(dp[t + 10], n.value)] else dp
    else dp
  }

  /** The tiers after expanding state s of tier t: the single draw when one
      more ticket fits the budget, then the ten-draw when ten more fit;
      each offered to its tier under keep-if-better. */
  function ExpandOne(dp: seq<Tier>, t: int, s: State, env: SearchEnv): (dp': seq<Tier>)
    requires |dp| == env.total + 1 && 0 <= t
    ensures |dp'| == |dp|
  {
    ExpandTen(ExpandSingle(dp, t, s, env), t, s, env)
  }

  /** The tiers after expanding the states ss of tier t in order. */
  function ExpandAll(dp: seq<Tier>, t: int, ss: seq<State>, env: SearchEnv): (dp': seq<Tier>)
    requires |dp| == env.total + 1 && 0 <= t
    ensures |dp'| == |dp|
  {
    if ss == [] then dp else ExpandOne(ExpandAll(dp, t, ss[..|ss| - 1], env), t, ss[|ss| - 1], env)
  }

  /** One pass of the `for (t …)` loop: prune tier t, then expand its states. */
  function ProcessTier(dp: seq<Tier>, t: int, env: SearchEnv): (dp': seq<Tier>)
    requires |dp| == env.total + 1 && 0 <= t <= env.total
    ensures |dp'| == |dp|
  {
    var dp1 := dp[t := Prune(dp[t])];
    ExpandAll(dp1, t, dp1[t], env)
  }

  /** The tiers once tiers 0..n-1 have been processed. */
  function Run(dp0: seq<Tier>, n: int, env: SearchEnv): (dp: seq<Tier>)
    requires |dp0| == env.total + 1 && 0 <= n <= env.total + 1
    ensures |dp| == |dp0|
    decreases n, 0
  {
    if n == 0 then dp0 else RunThrough(dp0, n - 1, env)
  }

  /** The tiers once tiers 0..t have been processed: the states of tier t,
      pruned, expanded on top of the run before it. */
  function RunThrough(dp0: seq<Tier>, t: int, env: SearchEnv): (dp: seq<Tier>)
    requires |dp0| == env.total + 1 && 0 <= t <= env.total
    ensures |dp| == |dp0|
    decreases t, 2
  {
    var dp1 := RunPruned(dp0, t, env);
    ExpandAll(dp1, t, dp1[t], env)
  }

  /** The run before tier t with tier t pruned. (Run, RunThrough and
      RunPruned are one recursion, so that a run named in a proof spells out
      neither the sort of the tier it prunes nor the passes before it.) */
  function RunPruned(dp0: seq<Tier>, t: int, env: SearchEnv): (dp: seq<Tier>)
    requires |dp0| == env.total + 1 && 0 <= t <= env.total
    ensures |dp| == |dp0|
    decreases t, 1
  {
    var dp := Run(dp0, t, env);
    dp[t := Prune(dp[t])]
  }

  /** The state tier 0 starts from: node 1, the start's last id and counter,
      nothing drawn. */
  function InitialState(initialLastRollId: Option<ItemId>, startNg: Option<int>): State
  {
    State(1, initialLastRollId, startNg, 0, 0, [], 1, 0)
  }

  function InitialTiers(total: nat, init: State): (dp: seq<Tier>)
    ensures |dp| == total + 1
  {
    seq(total + 1, i => if i == 0 then [init] else [])
  }

  // ---------------------------------------------------------------------------
  // findBestBeamSearchResult
  // ---------------------------------------------------------------------------

  /** The scan of one tier: best state and best score so far, starting from
      none and -1, replaced only on a strictly higher score. */
  function ScanTier(ss: seq<State>): (r: (Option<State>, int))
  {
    if ss == [] then (None, -1)
    else
      var (best, bestScore) := ScanTier(ss[..|ss| - 1]);
      var s := ss[|ss| - 1];
      if Score(s) > bestScore then (Some(s), Score(s)) else (best, bestScore)
  }

  /** The scan of tiers t, t-1, ..., 0: the best of the first non-empty one. */
  function FindBest(dp: seq<Tier>, t: int): Option<State>
    requires t < |dp|
    decreases t
  {
    if t < 0 then None
    else if |dp[t]| == 0 then FindBest(dp, t - 1)
    else ScanTier(dp[t]).0
  }

  /** The scan of a non-empty tier returns its first state of highest score. */
  lemma {:induction false} ScanTierBest(ss: seq<State>)
    ensures var r := ScanTier(ss);
      (ss == [] ==> r.0.None? && r.1 == -1) &&
      (ss != [] ==>
         exists i :: 0 <= i < |ss| && r.0 == Some(ss[i]) && r.1 == Score(ss[i]) &&
           (forall j :: 0 <= j < |ss| ==> Score(ss[j]) <= r.1) &&
           (forall j :: 0 <= j < i ==> Score(ss[j]) < r.1))
  {
    if ss != [] {
      var init := ss[..|ss| - 1];
      ScanTierBest(init);
      var p := ScanTier(init);
      var s := ss[|ss| - 1];
      if init == [] {
        assert ScanTier(ss) == (Some(s), Score(s));
        assert ss[0] == s;
      } else {
        var i :| 0 <= i < |init| && p.0 == Some(init[i]) && p.1 == Score(init[i]) &&
                 (forall j :: 0 <= j < |init| ==> Score(init[j]) <= p.1) &&
                 (forall j :: 0 <= j < i ==> Score(init[j]) < p.1);
        if Score(s) > p.1 {
          assert ScanTier(ss) == (Some(s), Score(s));
          assert forall j :: 0 <= j < |ss| - 1 ==> ss[j] == init[j];
        } else {
          assert ScanTier(ss) == p;
          assert ss[i] == init[i];
          assert forall j :: 0 <= j < |ss| - 1 ==> ss[j] == init[j];
        }
      }
    }
  }

  /** The result is a state of the highest non-empty tier at or below t, its
      first state of highest score; higher tiers are empty. States of
      different tiers are never compared. */
  lemma {:induction false} FindBestSpec(dp: seq<Tier>, t: int)
    requires t < |dp|
    ensures var r := FindBest(dp, t);
      (r.None? <==> forall j :: 0 <= j <= t ==> dp[j] == []) &&
      (r.Some? ==>
         exists j, i :: 0 <= j <= t && 0 <= i < |dp[j]| && r.value == dp[j][i] &&
           (forall j' :: j < j' <= t ==> dp[j'] == []) &&
           (forall k :: 0 <= k < |dp[j]| ==> Score(dp[j][k]) <= Score(r.value)) &&
           (forall k :: 0 <= k < i ==> Score(dp[j][k]) < Score(r.value)))
    decreases t
  {
    if t >= 0 {
      if |dp[t]| == 0 {
        FindBestSpec(dp, t - 1);
      } else {
        ScanTierBest(dp[t]);
      }
    }
  }

  /** `findBestBeamSearchResult(dp, totalTickets, calculateScore)`. */
  method FindBestBeamSearchResult(dp: seq<Tier>, totalTickets: int) returns (r: Option<State>)
    requires totalTickets < |dp|
    ensures r == FindBest(dp, totalTickets)
  {
    var t := totalTickets;
    while t >= 0
      invariant t <= totalTickets
      invariant FindBest(dp, totalTickets) == FindBest(dp, t)
      decreases t
    {
      var statesInTier := dp[t];
      if |statesInTier| == 0 {
        t := t - 1;
        continue;
      }
      var bestStateInTier: Option<State> := None;
      var bestScoreInTier := -1;
      for k := 0 to |statesInTier|
        invariant (bestStateInTier, bestScoreInTier) == ScanTier(statesInTier[..k])
      {
        assert statesInTier[..k + 1][..k] == statesInTier[..k];
        var state := statesInTier[k];
        var score := Score(state);
        if score > bestScoreInTier {
          bestScoreInTier := score;
          bestStateInTier := Some(state);
        }
      }
      assert statesInTier[..|statesInTier|] == statesInTier;
      ScanTierBest(statesInTier);
      if bestStateInTier.Some? {
        return bestStateInTier;
      }
      t := t - 1;
    }
    r := None;
  }

  // ---------------------------------------------------------------------------
  // runGachaSearch
  // ---------------------------------------------------------------------------

  /** The answer of `runGachaSearch`. */
  function SearchResult(env: SearchEnv, initialLastRollId: Option<ItemId>, startNg: Option<int>): Option<State>
  {
    FindBest(FinalTiers(env, initialLastRollId, startNg), env.total)
  }

  /** The tiers once every tier has been processed. */
  function FinalTiers(env: SearchEnv, initialLastRollId: Option<ItemId>, startNg: Option<int>): (dp: seq<Tier>)
    ensures |dp| == env.total + 1
  {
    Run(InitialTiers(env.total, InitialState(initialLastRollId, startNg)), env.total + 1, env)
  }

  /** `dp[j] = Offer(dp[j], s)` on the array of tiers. */
  method OfferInto(dp: array<Tier>, j: int, s: State)
    requires 0 <= j < dp.Length
    modifies dp
    ensures dp[..] == old(dp[..])[j := Offer(old(dp[j]), s)]
  {
    var key := KeyOf(s);
    var existing := Get(dp[j], key);
    if existing.None? || Score(existing.value) < Score(s) {
      dp[j] := Put(dp[j], s);
    }
  }

  /** The body of the inner `for (const state of states)` loop. */
  method ExpandState(dp: array<Tier>, t: int, state: State, env: SearchEnv)
    requires dp.Length == env.total + 1 && 0 <= t
    modifies dp
    ensures dp[..] == ExpandOne(old(dp[..]), t, state, env)
  {
    ExpandSingleInPlace(dp, t, state, env);
    ExpandTenInPlace(dp, t, state, env);
  }

  /** The single draw from `state`, when one more ticket fits the budget. */
  method ExpandSingleInPlace(dp: array<Tier>, t: int, state: State, env: SearchEnv)
    requires dp.Length == env.total + 1 && 0 <= t
    modifies dp
    ensures dp[..] == ExpandSingle(old(dp[..]), t, state, env)
  {
    var totalTickets := env.total;
    if t + 1 <= totalTickets {
      var resS := SimulateSingleRoll(env.nodes, state.nodeIdx, state.lastId, state.currentNg, env.b, env.catalog, env.forced);
      if resS.Some? {
        OfferInto(dp, t + 1, SingleNext(state, resS.value, env.nodes, t));
      }
    }
  }

  /** The ten-draw from `state`, when ten more tickets fit the budget. */
  method ExpandTenInPlace(dp: array<Tier>, t: int, state: State, env: SearchEnv)
    requires dp.Length == env.total + 1 && 0 <= t
    modifies dp
    ensures dp[..] == ExpandTen(old(dp[..]), t, state, env)
  {
    var totalTickets := env.total;
    if t + 10 <= totalTickets {
      var resTen := RunTenRoll(env.nodes, state.nodeIdx, state.lastId, state.currentNg, env.b, env.catalog, env.forced);
      ExpandTenBy(dp[..], t, state, env, resTen);
      if resTen.Some? {
        var next := TenNext(state, resTen.value, env.nodes, t);
        OfferInto(dp, t + 10, next);
      }
    } else {
      assert ExpandTen(dp[..], t, state, env) == dp[..];
    }
  }

  /** ExpandTen in terms of the ten-roll's result. */
  lemma ExpandTenBy(dp: seq<Tier>, t: int, s: State, env: SearchEnv, res: Option<TenResult>)
    requires |dp| == env.total + 1 && 0 <= t && t + 10 <= env.total
    requires res == SimulateTenRoll(env.nodes, s.nodeIdx, s.lastId, s.currentNg, env.b, env.catalog, env.forced)
    ensures res.Some? ==> ExpandTen(dp, t, s, env) == dp[t + 10 := Offer(dp[t + 10], TenNext(s, res.value, env.nodes, t))]
    ensures res.None? ==> ExpandTen(dp, t, s, env) == dp
  {
  }

  /** One pass of the outer `for (t …)` loop on the array of tiers. */
  method ProcessTierInPlace(dp: array<Tier>, t: int, env: SearchEnv)
    requires dp.Length == env.total + 1 && 0 <= t <= env.total
    modifies dp
    ensures dp[..] == ProcessTier(old(dp[..]), t, env)
  {
    ghost var dp0 := dp[..];
    if |dp[t]| == 0 {
      assert dp0[t := Prune(dp0[t])] == dp0;
      assert ExpandAll(dp0, t, [], env) == dp0;
      return;
    }
    PruneInPlace(dp, t);
    var states := dp[t];
    ExpandTierInPlace(dp, t, states, env);
  }

  /** `if (states.length > BEAM_WIDTH)`: tier t pruned in the array. */
  method PruneInPlace(dp: array<Tier>, t: int)
    requires 0 <= t < dp.Length
    modifies dp
    ensures dp[..] == old(dp[..])[t := Prune(old(dp[t]))]
  {
    if |dp[t]| > BeamWidth {
      var pruned := PruneTier(dp[t]);
      dp[t] := pruned;
    } else {
      assert dp[..][t := Prune(dp[t])] == dp[..];
    }
  }

  /** The `for (const state of states)` loop over the pruned tier t. */
  method ExpandTierInPlace(dp: array<Tier>, t: int, states: seq<State>, env: SearchEnv)
    requires dp.Length == env.total + 1 && 0 <= t
    modifies dp
    ensures dp[..] == ExpandAll(old(dp[..]), t, states, env)
  {
    ghost var dp1 := dp[..];
    for k := 0 to |states|
      invariant dp[..] == ExpandAll(dp1, t, states[..k], env)
    {
      assert states[..k + 1][..k] == states[..k];
      ExpandState(dp, t, states[k], env);
    }
    assert states[..|states|] == states;
  }

  /** The outer `for (let t = 0; t <= totalTickets; t++)` loop. */
  method ProcessAllTiers(dp: array<Tier>, env: SearchEnv)
    requires dp.Length == env.total + 1
    modifies dp
    ensures dp[..] == Run(old(dp[..]), env.total + 1, env)
  {
    ghost var dp0 := dp[..];
    var t := 0;
    while t <= env.total
      invariant 0 <= t <= env.total + 1
      invariant dp[..] == Run(dp0, t, env)
    {
      RunUnfold(dp0, t, env);
      ProcessTierInPlace(dp, t, env);
      t := t + 1;
    }
  }

  /** `runGachaSearch(Nodes, initialLastRollId, totalTickets, gacha, _, initialNg)`,
      with `initialNg` already read as a counter (None for 'none' or a value
      that is not a number). */
  method RunGachaSearch(env: SearchEnv, initialLastRollId: Option<ItemId>, startNg: Option<int>)
    returns (r: Option<State>)
    ensures r == SearchResult(env, initialLastRollId, startNg)
  {
    var totalTickets := env.total;
    var dp := new Tier[totalTickets + 1](i => []);
    dp[0] := [InitialState(initialLastRollId, startNg)];
    assert dp[..] == InitialTiers(totalTickets, InitialState(initialLastRollId, startNg));
    ProcessAllTiers(dp, env);
    r := FindBestBeamSearchResult(dp[..], totalTickets);
  }

  // ---------------------------------------------------------------------------
  // What the search keeps true
  // ---------------------------------------------------------------------------

  /** Tickets a path spends: one per single draw, ten per ten-draw. */
  function PathCost(p: seq<PathStep>): int
  {
    if p == [] then 0 else PathCost(p[..|p| - 1]) + (if p[|p| - 1].SinglePath? then 1 else 10)
  }

  /** Items of catalog rarity r drawn along a path. */
  function PathCount(p: seq<PathStep>, r: int): nat
  {
    if p == [] then 0
    else
      var last := p[|p| - 1];
      PathCount(p[..|p| - 1], r) +
      (if last.SinglePath? then (if last.item.rarity == r then 1 else 0) else CountRarity(last.items, r))
  }

  /** A state of tier j: it spent j tickets on its path, rolled j times after
      the start, its Uber and Legend counts are those of its path, and each
      ticket moved the cursor at least one node past node 1. */
  predicate GoodState(s: State, j: int)
  {
    s.tickets == j && s.rollCount == j + 1 && PathCost(s.path) == j && s.nodeIdx >= 1 + j &&
    s.ubers == PathCount(s.path, 3) && s.legends == PathCount(s.path, 4)
  }

  /** A tier is a Map of good states. */
  predicate GoodTier(tier: Tier, j: int)
  {
    DistinctKeys(tier) && forall s :: s in tier ==> GoodState(s, j)
  }

  predicate GoodTiers(dp: seq<Tier>)
  {
    forall j :: 0 <= j < |dp| ==> GoodTier(dp[j], j)
  }

  lemma OfferGood(tier: Tier, s: State, j: int)
    requires GoodTier(tier, j) && GoodState(s, j)
    ensures GoodTier(Offer(tier, s), j)
  {
    PutShape(tier, s);
  }

  lemma SingleNextGood(s: State, r: SingleResult, nodes: seq<Node>, t: int)
    requires GoodState(s, t) && r.useSeeds >= 1
    ensures GoodState(SingleNext(s, r, nodes, t), t + 1)
  {
    var s' := SingleNext(s, r, nodes, t);
    assert s'.path[..|s'.path| - 1] == s.path;
  }

  lemma TenNextGood(s: State, r: TenResult, nodes: seq<Node>, t: int)
    requires GoodState(s, t) && r.useSeeds >= 10
    ensures GoodState(TenNext(s, r, nodes, t), t + 10)
  {
    var s' := TenNext(s, r, nodes, t);
    assert s'.path[..|s'.path| - 1] == s.path;
  }

  lemma SingleSuccGood(s: State, t: int, env: SearchEnv)
    ensures GoodState(s, t) && SingleSucc(s, t, env).Some? ==> GoodState(SingleSucc(s, t, env).value, t + 1)
  {
    var r := SimulateSingleRoll(env.nodes, s.nodeIdx, s.lastId, s.currentNg, env.b, env.catalog, env.forced);
    if GoodState(s, t) && r.Some? {
      SingleNextGood(s, r.value, env.nodes, t);
    }
  }

  lemma TenSuccGood(s: State, t: int, env: SearchEnv)
    ensures GoodState(s, t) && TenSucc(s, t, env).Some? ==> GoodState(TenSucc(s, t, env).value, t + 10)
  {
    var r := SimulateTenRoll(env.nodes, s.nodeIdx, s.lastId, s.currentNg, env.b, env.catalog, env.forced);
    TenRollShape(env.nodes, s.nodeIdx, s.lastId, s.currentNg, env.b, env.catalog, env.forced);
    if GoodState(s, t) && r.Some? {
      NodesUsedAtLeastCount(r.value.items);
      TenNextGood(s, r.value, env.nodes, t);
    }
  }

  /** Offering a good state of tier k keeps every tier good and changes
      tier k only. */
  lemma OfferIntoGood(dp: seq<Tier>, k: int, s: State)
    requires 0 <= k < |dp|
    ensures GoodTiers(dp) && GoodState(s, k) ==> GoodTiers(dp[k := Offer(dp[k], s)])
  {
    if GoodTiers(dp) && GoodState(s, k) {
      OfferIntoGoodStep(dp, k, s);
    }
  }

  lemma OfferIntoGoodStep(dp: seq<Tier>, k: int, s: State)
    requires GoodTiers(dp) && 0 <= k < |dp| && GoodState(s, k)
    ensures GoodTiers(dp[k := Offer(dp[k], s)])
  {
    OfferGood(dp[k], s, k);
    var dp' := dp[k := Offer(dp[k], s)];
    forall j | 0 <= j < |dp| ensures GoodTier(dp'[j], j) {
      if j != k {
        assert dp'[j] == dp[j];
      }
    }
  }

  /** The single draw from a good state of tier t keeps every tier good
      and leaves tiers 0..t alone. (The first ensures is compared with `true`
      so that the verifier keeps GoodTiers folded in the goal.) */
  lemma ExpandSingleGood(dp: seq<Tier>, t: int, s: State, env: SearchEnv)
    requires |dp| == env.total + 1 && 0 <= t && GoodTiers(dp) && GoodState(s, t)
    ensures GoodTiers(ExpandSingle(dp, t, s, env)) == true
    ensures forall j :: 0 <= j <= t && j < |dp| ==> ExpandSingle(dp, t, s, env)[j] == dp[j]
  {
    var n := SingleSucc(s, t, env);
    if t + 1 <= env.total && n.Some? {
      assert ExpandSingle(dp, t, s, env) == dp[t + 1 := Offer(dp[t + 1], n.value)];
      SingleSuccGood(s, t, env);
      OfferIntoGood(dp, t + 1, n.value);
    } else {
      assert ExpandSingle(dp, t, s, env) == dp;
    }
  }

  /** The same for the ten-draw. */
  lemma ExpandTenGood(dp: seq<Tier>, t: int, s: State, env: SearchEnv)
    requires |dp| == env.total + 1 && 0 <= t && GoodTiers(dp) && GoodState(s, t)
    ensures GoodTiers(ExpandTen(dp, t, s, env)) == true
    ensures forall j :: 0 <= j <= t && j < |dp| ==> ExpandTen(dp, t, s, env)[j] == dp[j]
  {
    var n := TenSucc(s, t, env);
    if t + 10 <= env.total && n.Some? {
      assert ExpandTen(dp, t, s, env) == dp[t + 10 := Offer(dp[t + 10], n.value)];
      TenSuccGood(s, t, env);
      OfferIntoGood(dp, t + 10, n.value);
    } else {
      assert ExpandTen(dp, t, s, env) == dp;
    }
  }

  /** Expanding a good state of tier t keeps every tier good and leaves
      tiers 0..t as they were. */
  lemma ExpandOneGood(dp: seq<Tier>, t: int, s: State, env: SearchEnv)
    requires |dp| == env.total + 1 && 0 <= t && GoodTiers(dp) && GoodState(s, t)
    ensures GoodTiers(ExpandOne(dp, t, s, env))
    ensures forall j :: 0 <= j <= t && j < |dp| ==> ExpandOne(dp, t, s, env)[j] == dp[j]
  {
    ExpandSingleGood(dp, t, s, env);
    ExpandTenGood(ExpandSingle(dp, t, s, env), t, s, env);
  }


  lemma {:induction false} ExpandAllGood(dp: seq<Tier>, t: int, ss: seq<State>, env: SearchEnv)
    requires |dp| == env.total + 1 && 0 <= t && GoodTiers(dp)
    requires forall s :: s in ss ==> GoodState(s, t)
    ensures GoodTiers(ExpandAll(dp, t, ss, env))
    ensures forall j :: 0 <= j <= t && j < |dp| ==> ExpandAll(dp, t, ss, env)[j] == dp[j]
  {
    if ss != [] {
      var init := ss[..|ss| - 1];
      assert forall s :: s in init ==> s in ss;
      ExpandAllGood(dp, t, init, env);
      ExpandOneGood(ExpandAll(dp, t, init, env), t, ss[|ss| - 1], env);
    }
  }

  /** Processing tier t keeps every tier good; it changes no tier below t,
      and tier t itself only by pruning. */
  lemma ProcessTierGood(dp: seq<Tier>, t: int, env: SearchEnv)
    requires |dp| == env.total + 1 && 0 <= t <= env.total
    ensures GoodTiers(dp) ==> GoodTiers(ProcessTier(dp, t, env))
    ensures GoodTiers(dp) ==> forall j :: 0 <= j < t ==> ProcessTier(dp, t, env)[j] == dp[j]
    ensures GoodTiers(dp) ==> ProcessTier(dp, t, env)[t] == Prune(dp[t])
  {
    if GoodTiers(dp) {
      PruneKeepsBest(dp[t]);
      var dp1 := dp[t := Prune(dp[t])];
      assert GoodTier(dp1[t], t);
      assert GoodTiers(dp1);
      ExpandAllGood(dp1, t, dp1[t], env);
    }
  }

  /** One more tier of the run processes tier t of the run so far. */
  lemma RunUnfold(dp0: seq<Tier>, t: int, env: SearchEnv)
    requires |dp0| == env.total + 1 && 0 <= t <= env.total
    ensures Run(dp0, t + 1, env) == ProcessTier(Run(dp0, t, env), t, env)
  {
    var dp := Run(dp0, t, env);
    assert RunPruned(dp0, t, env) == dp[t := Prune(dp[t])];
  }

  /** Processing tier t keeps every tier a Map of good states. The runs
      before and after the step are passed in as `prev` and `cur`, so that
      the goal holds no call of the recursive Run for the verifier to
      unfold. */
  lemma RunStepGood(dp0: seq<Tier>, t: int, env: SearchEnv, prev: seq<Tier>, cur: seq<Tier>)
    requires |dp0| == env.total + 1 && 0 <= t <= env.total
    requires prev == Run(dp0, t, env) && cur == Run(dp0, t + 1, env) && GoodTiers(prev)
    ensures GoodTiers(cur)
  {
    ProcessTierGood(prev, t, env);
    RunUnfold(dp0, t, env);
  }

  /** Every tier stays a Map of good states through the search. */
  lemma {:induction false} RunGood(dp0: seq<Tier>, n: int, env: SearchEnv, dp: seq<Tier>)
    requires |dp0| == env.total + 1 && 0 <= n <= env.total + 1 && dp == Run(dp0, n, env)
    ensures GoodTiers(dp0) ==> GoodTiers(dp)
  {
    if n > 0 && GoodTiers(dp0) {
      var prev := Run(dp0, n - 1, env);
      RunGood(dp0, n - 1, env, prev);
      RunStepGood(dp0, n - 1, env, prev, dp);
    }
  }

  /** Processing a tier above the start tier leaves the start tier alone. */
  lemma RunStepFirst(dp0: seq<Tier>, t: int, env: SearchEnv, prev: seq<Tier>, cur: seq<Tier>)
    requires |dp0| == env.total + 1 && 1 <= t <= env.total
    requires prev == Run(dp0, t, env) && cur == Run(dp0, t + 1, env)
    ensures GoodTiers(prev) ==> cur[0] == prev[0]
  {
    ProcessTierGood(prev, t, env);
    RunUnfold(dp0, t, env);
  }

  /** Processing the start tier prunes it. */
  lemma RunFirstStep(dp0: seq<Tier>, env: SearchEnv)
    requires |dp0| == env.total + 1
    ensures GoodTiers(dp0) ==> Run(dp0, 1, env)[0] == Prune(dp0[0])
  {
    ProcessTierGood(dp0, 0, env);
    RunUnfold(dp0, 0, env);
  }

  lemma RunFirstStable(dp0: seq<Tier>, t: int, env: SearchEnv, prev: seq<Tier>, cur: seq<Tier>)
    requires |dp0| == env.total + 1 && 1 <= t <= env.total
    requires prev == Run(dp0, t, env) && cur == Run(dp0, t + 1, env)
    ensures GoodTiers(dp0) && prev[0] == Prune(dp0[0]) ==> cur[0] == Prune(dp0[0])
  {
    RunGood(dp0, t, env, prev);
    RunStepFirst(dp0, t, env, prev, cur);
  }

  /** Once processed, the start tier is its pruned self for the rest of the
      search: later tiers only ever receive states. */
  lemma RunKeepsFirst(dp0: seq<Tier>, n: int, env: SearchEnv, dp: seq<Tier>)
    requires |dp0| == env.total + 1 && 1 <= n <= env.total + 1 && dp == Run(dp0, n, env)
    ensures GoodTiers(dp0) ==> dp[0] == Prune(dp0[0])
  {
    if GoodTiers(dp0) {
      RunFirstStep(dp0, env);
      var k, cur := 1, Run(dp0, 1, env);
      while k < n
        invariant 1 <= k <= n && cur == Run(dp0, k, env) && cur[0] == Prune(dp0[0])
      {
        var next := Run(dp0, k + 1, env);
        RunFirstStable(dp0, k, env, cur, next);
        k, cur := k + 1, next;
      }
    }
  }

  lemma InitialTiersGood(total: nat, initialLastRollId: Option<ItemId>, startNg: Option<int>)
    ensures GoodTiers(InitialTiers(total, InitialState(initialLastRollId, startNg)))
  {
    var dp0 := InitialTiers(total, InitialState(initialLastRollId, startNg));
    assert dp0[0] == [InitialState(initialLastRollId, startNg)];
  }

  /** `r` is an answer of the search over tiers `dp` with budget `total`: a
      state of the highest non-empty tier j whose path spends j tickets,
      within the budget, whose Uber and Legend counts are those of its path,
      and which no state of tier j outscores. */
  predicate IsBestAnswer(dp: seq<Tier>, total: nat, r: Option<State>)
    requires |dp| == total + 1
  {
    r.Some? &&
    exists j :: 0 <= j <= total && r.value in dp[j] && GoodState(r.value, j) &&
      PathCost(r.value.path) <= total &&
      (forall j' :: j < j' <= total ==> dp[j'] == []) &&
      (forall x :: x in dp[j] ==> Score(x) <= Score(r.value))
  }

  /** The search always answers, with a best state of its highest non-empty
      tier. */
  lemma SearchResultSpec(env: SearchEnv, initialLastRollId: Option<ItemId>, startNg: Option<int>)
    ensures IsBestAnswer(FinalTiers(env, initialLastRollId, startNg), env.total, SearchResult(env, initialLastRollId, startNg))
  {
    var dp := FinalTiers(env, initialLastRollId, startNg);
    FinalTiersGood(env, initialLastRollId, startNg, dp);
    FinalTiersStart(env, initialLastRollId, startNg, dp);
    FinalTiersBest(dp, env.total);
  }

  /** After the search every tier is a Map of good states. */
  lemma FinalTiersGood(env: SearchEnv, initialLastRollId: Option<ItemId>, startNg: Option<int>, dp: seq<Tier>)
    requires dp == FinalTiers(env, initialLastRollId, startNg)
    ensures GoodTiers(dp)
  {
    var dp0 := InitialTiers(env.total, InitialState(initialLastRollId, startNg));
    InitialTiersGood(env.total, initialLastRollId, startNg);
    RunGood(dp0, env.total + 1, env, dp);
  }

  /** After the search the start tier still holds the start state alone. */
  lemma FinalTiersStart(env: SearchEnv, initialLastRollId: Option<ItemId>, startNg: Option<int>, dp: seq<Tier>)
    requires dp == FinalTiers(env, initialLastRollId, startNg)
    ensures dp[0] == [InitialState(initialLastRollId, startNg)]
  {
    var dp0 := InitialTiers(env.total, InitialState(initialLastRollId, startNg));
    InitialTiersGood(env.total, initialLastRollId, startNg);
    RunKeepsFirst(dp0, env.total + 1, env, dp);
    assert dp0[0] == [InitialState(initialLastRollId, startNg)];
  }

  /** On good tiers whose start tier is non-empty, the scan finds a good
      state of the highest non-empty tier, scoring at least as much as every
      state of that tier. */
  lemma FinalTiersBest(dp: seq<Tier>, total: nat)
    requires |dp| == total + 1
    ensures GoodTiers(dp) && dp[0] != [] ==> IsBestAnswer(dp, total, FindBest(dp, total))
  {
    FindBestSpec(dp, total);
  }

  /** With no tickets the answer is the start state with an empty path. */
  lemma SearchZeroBudget(env: SearchEnv, initialLastRollId: Option<ItemId>, startNg: Option<int>)
    requires env.total == 0
    ensures SearchResult(env, initialLastRollId, startNg) == Some(InitialState(initialLastRollId, startNg))
  {
    ZeroBudgetTier(env, initialLastRollId, startNg);
    FindBestOne(FinalTiers(env, initialLastRollId, startNg), InitialState(initialLastRollId, startNg));
  }

  /** The scan of a single tier holding one state returns that state. */
  lemma FindBestOne(dp: seq<Tier>, s: State)
    requires |dp| == 1 && dp[0] == [s]
    ensures FindBest(dp, 0) == Some(s)
  {
    assert ScanTier([s]) == (Some(s), Score(s)) by {
      assert [s][..0] == [];
    }
  }

  /** With no tickets the only tier holds just the start state. */
  lemma ZeroBudgetTier(env: SearchEnv, initialLastRollId: Option<ItemId>, startNg: Option<int>)
    requires env.total == 0
    ensures FinalTiers(env, initialLastRollId, startNg)[0] == [InitialState(initialLastRollId, startNg)]
  {
    var init := InitialState(initialLastRollId, startNg);
    var dp0 := InitialTiers(env.total, init);
    InitialTiersGood(env.total, initialLastRollId, startNg);
    assert dp0[0] == [init];
    ProcessTierGood(dp0, 0, env);
    RunUnfold(dp0, 0, env);
    var dp := Run(dp0, 1, env);
    assert dp[0] == Prune(dp0[0]) == [init];
  }

  /** A path holding a ten-draw spends at least ten tickets. */
  lemma {:induction false} TenPathCost(p: seq<PathStep>)
    ensures (exists k :: 0 <= k < |p| && p[k].TenPath?) ==> PathCost(p) >= 10
    ensures PathCost(p) >= 0
  {
    if p != [] {
      var init := p[..|p| - 1];
      TenPathCost(init);
      if exists k :: 0 <= k < |p| && p[k].TenPath? {
        var k :| 0 <= k < |p| && p[k].TenPath?;
        if k < |p| - 1 {
          assert init[k] == p[k];
        }
      }
    }
  }

  /** Under ten tickets the answer holds single draws only. */
  lemma SearchShortBudget(env: SearchEnv, initialLastRollId: Option<ItemId>, startNg: Option<int>)
    requires env.total < 10
    ensures var r := SearchResult(env, initialLastRollId, startNg);
      r.Some? && forall k :: 0 <= k < |r.value.path| ==> r.value.path[k].SinglePath?
  {
    SearchResultSpec(env, initialLastRollId, startNg);
    TenPathCost(SearchResult(env, initialLastRollId, startNg).value.path);
  }
}
