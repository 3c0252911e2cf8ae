/** The highlight map of the completed table (logic-completed-highlight.js):
    which cells the single-draw route and the ten-draw route pass through,
    keyed by cell address. Its walkers differ from the route walkers of
    CompletedRoutes in small ways: they ignore forced rerolls, skip an item
    id of -1 in the duplicate test, keep an unset counter at 0, and the
    ten-draw walker places each cell on an A/B track that flips at the pity
    draw. */
module CompletedHighlight {
  import opened JsValues
  import opened Master
  import opened LogicCommon
  import opened CompletedHelpers
  import CompletedRoutes

  // ---------------------------------------------------------------------------
  // Map entries
  // ---------------------------------------------------------------------------

  /** One entry of the map. A field the JavaScript object lacks is false or
      None; `tReRoll` is the `t_reRoll` field. */
  datatype Mark = Mark(single: bool, singleRoll: Option<int>, ten: bool, tenRoll: Option<int>,
                       tReRoll: Option<bool>, tenIndex: Option<int>)

  /** `map.get(addr) || {}` for a cell not yet in the map. */
  const NoMark := Mark(false, None, false, None, None, None)

  /** One `map.set` of the pass: a cell of the single route on a roll, or a
      cell of the ten-draw route on a roll, with its reroll flag (absent on
      the pity draw) and the node index it reads. */
  datatype Visit =
    | SingleVisit(addr: string, roll: int)
    | TenVisit(addr: string, roll: int, reroll: Option<bool>, index: int)

  /** `{ ...existing, <fields of v> }`: the fields the visit sets, the rest
      as they were. */
  function Merge(e: Mark, v: Visit): Mark
  {
    match v
    case SingleVisit(_, r) => e.(single := true, singleRoll := Some(r))
    case TenVisit(_, r, rr, i) =>
      e.(ten := true, tenRoll := Some(r), tReRoll := if rr.Some? then rr else e.tReRoll, tenIndex := Some(i))
  }

  /** `map.set(addr, { ...(map.get(addr) || {}), ... })`. */
  function Record(m: map<string, Mark>, v: Visit): map<string, Mark>
  {
    m[v.addr := Merge(if v.addr in m then m[v.addr] else NoMark, v)]
  }

  /** The map after recording the visits in order. */
  function Apply(m: map<string, Mark>, vs: seq<Visit>): map<string, Mark>
    decreases |vs|
  {
    if vs == [] then m else Apply(Record(m, vs[0]), vs[1..])
  }

  /** Re-marking a cell from one route keeps what the other route stored
      there; a pity cell of the ten-draw route also keeps an earlier reroll
      flag. */
  lemma MergeKeepsOtherRoute(e: Mark, v: Visit)
    ensures v.SingleVisit? ==> var r := Merge(e, v);
      r.single && r.singleRoll == Some(v.roll) && r.ten == e.ten && r.tenRoll == e.tenRoll &&
      r.tReRoll == e.tReRoll && r.tenIndex == e.tenIndex
    ensures v.TenVisit? ==> var r := Merge(e, v);
      r.ten && r.tenRoll == Some(v.roll) && r.tenIndex == Some(v.index) &&
      r.single == e.single && r.singleRoll == e.singleRoll &&
      r.tReRoll == (if v.reroll.Some? then v.reroll else e.tReRoll)
  {
  }

  /** The cells of the map are the cells it had plus every visited cell. */
  lemma {:induction false} ApplyKeys(m: map<string, Mark>, vs: seq<Visit>)
    ensures Apply(m, vs).Keys == m.Keys + (set v | v in vs :: v.addr)
    decreases |vs|
  {
    if vs != [] {
      ApplyKeys(Record(m, vs[0]), vs[1..]);
      assert Record(m, vs[0]).Keys == m.Keys + {vs[0].addr};
      AddrsCons(vs);
    }
  }

  /** The cells of a run of visits: the first visit's cell and the rest's. */
  lemma AddrsCons(vs: seq<Visit>)
    requires vs != []
    ensures (set v | v in vs :: v.addr) == {vs[0].addr} + (set v | v in vs[1..] :: v.addr)
  {
    var all, rest := (set v | v in vs :: v.addr), (set v | v in vs[1..] :: v.addr);
    forall x | x in all ensures x in {vs[0].addr} + rest {
      var v :| v in vs && v.addr == x;
      if v != vs[0] {
        var i :| 0 <= i < |vs| && vs[i] == v;
        assert vs[1..][i - 1] == v;
      }
    }
    forall x | x in rest ensures x in all {
      var v :| v in vs[1..] && v.addr == x;
      var i :| 0 <= i < |vs[1..]| && vs[1..][i] == v;
      assert vs[i + 1] == v;
    }
  }

  /** A cell is marked by the single route exactly when it already was or a
      single-route visit reaches it, and likewise for the ten-draw route. */
  lemma {:induction false} ApplyRoutes(m: map<string, Mark>, vs: seq<Visit>, a: string)
    ensures var r := Apply(m, vs);
      (a in r && r[a].single <==> (a in m && m[a].single) || exists v :: v in vs && v.SingleVisit? && v.addr == a) &&
      (a in r && r[a].ten <==> (a in m && m[a].ten) || exists v :: v in vs && v.TenVisit? && v.addr == a)
    decreases |vs|
  {
    if vs != [] {
      ApplyRoutes(Record(m, vs[0]), vs[1..], a);
      assert forall v :: v in vs <==> v == vs[0] || v in vs[1..] by {
        assert vs == [vs[0]] + vs[1..];
      }
    }
  }

  /** The guarantee flags of a banner, `uFlag || lFlag`. */
  predicate HasGuarantee(b: Banner)
  {
    b.uberGuaranteedFlag || b.legendGuaranteedFlag
  }

  /** `parseInt(initialNg)` with NaN read as 0. */
  function NgOrZero(ng: Option<int>): int
  {
    if ng.Some? then ng.value else 0
  }

  /** The duplicate test of both highlight walkers: a Rare with more than one
      Rare in the pool whose (defined) item matches the last item, or a node
      carrying the re-reroll flag. Forced rerolls are not consulted. */
  predicate MarkRerolls(n: Node, lastId: Option<ItemId>)
  {
    (n.rarityId == 1 && n.poolSize > 1 && n.itemId != -1 && lastId == Some(n.itemId)) || n.rr.reRerollFlag
  }

  // ---------------------------------------------------------------------------
  // Single route
  // ---------------------------------------------------------------------------

  /** The cursor of the single-route pass: node, roll, last item, counter. */
  datatype SCursor = SCursor(idx: int, roll: int, lastId: Option<ItemId>, ng: int)

  /** One cell of the single pass and the cursor after it. */
  datatype SStep = SStep(next: SCursor, visit: Visit)

  /** One roll of the single pass: the node's 'G' cell when the counter reads
      1 and the banner has a guarantee flag (advancing 2 and restarting the
      counter), else the node's own cell (advancing 3 on a reroll, else 2;
      the counter drops while above 1 and restarts from 1). */
  function SingleMarkStep(n: Node, c: SCursor, gCycle: int, hasFlag: bool): SStep
  {
    if c.ng == 1 && hasFlag then
      SStep(SCursor(c.idx + 2, c.roll + 1, CompletedRoutes.GuaranteedItem(n), gCycle), SingleVisit(n.address + "G", c.roll))
    else
      var isRR := MarkRerolls(n, c.lastId);
      SStep(SCursor(c.idx + (if isRR then 3 else 2), c.roll + 1,
                    if isRR then n.rr.reRollItemId else Some(n.itemId),
                    if c.ng > 1 then c.ng - 1 else if c.ng == 1 then gCycle else c.ng),
            SingleVisit(n.address, c.roll))
  }

  /** The cells of the single pass from cursor c. */
  function SingleVisits(nodes: seq<Node>, c: SCursor, tableRows: int, gCycle: int, hasFlag: bool): seq<Visit>
    requires c.idx >= 1
    decreases tableRows - c.roll
  {
    if c.roll > tableRows || c.idx > |nodes| then []
    else
      var st := SingleMarkStep(nodes[c.idx - 1], c, gCycle, hasFlag);
      [st.visit] + SingleVisits(nodes, st.next, tableRows, gCycle, hasFlag)
  }

  /** The first loop of `generateHighlightMap`, recording into m. */
  method SingleHighlightPass(nodes: seq<Node>, tableRows: int, initialNg: Option<int>,
                             initialLastRollId: Option<ItemId>, gCycle: int, b: Banner, m0: map<string, Mark>)
    returns (m: map<string, Mark>)
    ensures m == Apply(m0, SingleVisits(nodes, SCursor(1, 1, initialLastRollId, NgOrZero(initialNg)),
                                        tableRows, gCycle, HasGuarantee(b)))
  {
    var uFlag, lFlag := b.uberGuaranteedFlag, b.legendGuaranteedFlag;
    ghost var total := Apply(m0, SingleVisits(nodes, SCursor(1, 1, initialLastRollId, NgOrZero(initialNg)),
                                              tableRows, gCycle, HasGuarantee(b)));
    m := m0;
    var sIdx, sLastId := 1, initialLastRollId;
    var sNgTracker := if initialNg.Some? then initialNg.value else 0;
    var roll := 1;
    while roll <= tableRows && sIdx <= |nodes|
      invariant sIdx >= 1
      invariant Apply(m, SingleVisits(nodes, SCursor(sIdx, roll, sLastId, sNgTracker), tableRows, gCycle, HasGuarantee(b))) == total
      decreases tableRows - roll
    {
      var node := nodes[sIdx - 1];
      ghost var st := SingleMarkStep(node, SCursor(sIdx, roll, sLastId, sNgTracker), gCycle, HasGuarantee(b));
      var isG := sNgTracker == 1 && (uFlag || lFlag);
      var addr;
      if isG {
        addr := node.address + "G";
        var existing := if addr in m then m[addr] else NoMark;
        m := m[addr := existing.(single := true, singleRoll := Some(roll))];
        sIdx := sIdx + 2;
        sNgTracker := gCycle;
        sLastId := CompletedRoutes.GuaranteedItem(node);
      } else {
        addr := node.address;
        var isMatch := node.itemId != -1 && sLastId == Some(node.itemId);
        var isRR := (node.rarityId == 1 && node.poolSize > 1 && isMatch) || node.rr.reRerollFlag;
        var existing := if addr in m then m[addr] else NoMark;
        m := m[addr := existing.(single := true, singleRoll := Some(roll))];
        sLastId := if isRR then node.rr.reRollItemId else Some(node.itemId);
        sIdx := sIdx + if isRR then 3 else 2;
        if sNgTracker > 1 {
          sNgTracker := sNgTracker - 1;
        } else if sNgTracker == 1 {
          sNgTracker := gCycle;
        }
      }
      roll := roll + 1;
      assert SCursor(sIdx, roll, sLastId, sNgTracker) == st.next;
    }
  }

  /** The single pass marks rolls 1, 2, 3, ... in order, one per roll. */
  lemma {:induction false} SingleVisitRolls(nodes: seq<Node>, c: SCursor, tableRows: int, gCycle: int, hasFlag: bool, k: int)
    requires c.idx >= 1 && 0 <= k < |SingleVisits(nodes, c, tableRows, gCycle, hasFlag)|
    ensures SingleVisits(nodes, c, tableRows, gCycle, hasFlag)[k].roll == c.roll + k
    ensures c.roll + k <= tableRows
    decreases tableRows - c.roll
  {
    var st := SingleMarkStep(nodes[c.idx - 1], c, gCycle, hasFlag);
    if k > 0 {
      SingleVisitRolls(nodes, st.next, tableRows, gCycle, hasFlag, k - 1);
    }
  }

  /** The cell a draw of the helpers' single route occupies: its node's
      address, with 'G' appended for the pity draw. */
  function RouteCell(nodes: seq<Node>, d: CompletedRoutes.Draw): Visit
  {
    if 1 <= d.nodeIdx <= |nodes| then
      SingleVisit(nodes[d.nodeIdx - 1].address + (if d.guaranteed then "G" else ""), d.roll)
    else SingleVisit("", d.roll)
  }

  /** No Rare with more than one Rare in its pool holds the id -1 (the
      highlight walkers skip -1 in their duplicate test, the route walkers do
      not). */
  predicate NoMinusOneRares(nodes: seq<Node>)
  {
    forall i :: 0 <= i < |nodes| && nodes[i].rarityId == 1 && nodes[i].poolSize > 1 ==> nodes[i].itemId != -1
  }

  /** The highlight counter tracks the route counter: an active counter is
      the same positive number, an unset one is 0. */
  predicate CountersAgree(hNg: int, rNg: Option<int>)
  {
    (rNg.Some? && hNg == rNg.value && hNg >= 1) || (rNg.None? && hNg == 0)
  }

  /** One roll of both single walkers, from corresponding cursors. */
  lemma SingleStepAgrees(n: Node, c: SCursor, w: CompletedRoutes.Walker, gCycle: int, hasFlag: bool)
    requires c.idx == w.idx && c.roll == w.roll && c.lastId == w.lastId && CountersAgree(c.ng, w.ng)
    requires gCycle >= 1 && (hasFlag || w.ng.None?)
    requires n.rarityId == 1 && n.poolSize > 1 ==> n.itemId != -1
    ensures var hs := SingleMarkStep(n, c, gCycle, hasFlag);
      var rs := CompletedRoutes.SingleStep(n, w, gCycle, false);
      hs.next.idx == rs.next.idx && hs.next.roll == rs.next.roll && hs.next.lastId == rs.next.lastId &&
      CountersAgree(hs.next.ng, rs.next.ng) &&
      hs.visit == SingleVisit(n.address + (if rs.draw.guaranteed then "G" else ""), rs.draw.roll) &&
      rs.draw.nodeIdx == w.idx
  {
    assert n.address + "" == n.address;
  }

  /** Under the guarantee flags (or with an unset counter), without forced
      rerolls, with the same cycle and no Rare of id -1, the single highlight
      pass marks exactly the cells of the helpers' single route, roll for
      roll, its 'G' cells being the route's pity draws. */
  lemma {:induction false} SingleHighlightFollowsRoute(nodes: seq<Node>, c: SCursor, w: CompletedRoutes.Walker,
                                                       tableRows: int, gCycle: int, hasFlag: bool)
    requires c.idx == w.idx >= 1 && c.roll == w.roll && c.lastId == w.lastId && CountersAgree(c.ng, w.ng)
    requires gCycle >= 1 && (hasFlag || w.ng.None?) && NoMinusOneRares(nodes)
    ensures var vs := SingleVisits(nodes, c, tableRows, gCycle, hasFlag);
      var ds := CompletedRoutes.SingleRoute(nodes, w, tableRows, gCycle, false);
      |vs| == |ds| && forall k :: 0 <= k < |vs| ==> vs[k] == RouteCell(nodes, ds[k])
    decreases tableRows - c.roll
  {
    if !(c.roll > tableRows || c.idx > |nodes|) {
      var n := nodes[c.idx - 1];
      var hs := SingleMarkStep(n, c, gCycle, hasFlag);
      var rs := CompletedRoutes.SingleStep(n, w, gCycle, false);
      SingleStepAgrees(n, c, w, gCycle, hasFlag);
      assert hs.next.ng == 0 ==> rs.next.ng.None?;
      SingleHighlightFollowsRoute(nodes, hs.next, rs.next, tableRows, gCycle, hasFlag);
      var vs' := SingleVisits(nodes, hs.next, tableRows, gCycle, hasFlag);
      var ds' := CompletedRoutes.SingleRoute(nodes, rs.next, tableRows, gCycle, false);
      var vs := [hs.visit] + vs';
      var ds := [rs.draw] + ds';
      assert SingleVisits(nodes, c, tableRows, gCycle, hasFlag) == vs;
      assert CompletedRoutes.SingleRoute(nodes, w, tableRows, gCycle, false) == ds;
      forall k | 0 <= k < |vs|
        ensures vs[k] == RouteCell(nodes, ds[k])
      {
        if k > 0 {
          assert vs[k] == vs'[k - 1] && ds[k] == ds'[k - 1];
        }
      }
    }
  }

  // ---------------------------------------------------------------------------
  // Ten-draw route
  // ---------------------------------------------------------------------------

  /** `s.replace(/[AB]/, t)`: the first 'A' or 'B' of s becomes t. */
  function ReplaceFirstAB(s: string, t: char): string
  {
    if s == [] then []
    else if s[0] == 'A' || s[0] == 'B' then [t] + s[1..]
    else [s[0]] + ReplaceFirstAB(s[1..], t)
  }

  /** On a two-column address the replacement swaps the column letter. */
  lemma ReplaceColumn(i: int, t: char)
    requires i >= 1
    ensures ReplaceFirstAB(AddressString(i, 2), t) == [t] + AddressString(i, 2)[1..]
  {
    var s := AddressString(i, 2);
    assert (i - 1) % 2 == 0 || (i - 1) % 2 == 1;
    assert s[0] == 'A' || s[0] == 'B';
  }

  function Opposite(t: char): char
  {
    if t == 'A' then 'B' else 'A'
  }

  /** The cursor of the ten-draw pass inside a cycle: node cursor, last
      item, counter and current track. */
  datatype TCursor = TCursor(ptr: int, lastId: Option<ItemId>, ng: int, track: char)

  datatype TStep = TStep(next: TCursor, visit: Visit)

  datatype TWalked = TWalked(after: TCursor, visits: seq<Visit>)

  /** Position j of a cycle on roll `roll`. The pity position marks the node's
      cell on the opposite track with 'G', consumes one node, restarts the
      counter and flips the track, and leaves the last item as it was. Any
      other position marks the node's cell on the current track, advances 3
      on a reroll or else 2, and lowers the counter only while it is above 1. */
  function TenMarkStep(n: Node, c: TCursor, j: int, gRoll: int, roll: int, gCycle: int): TStep
  {
    if j == gRoll then
      var opp := Opposite(c.track);
      TStep(TCursor(c.ptr + 1, c.lastId, gCycle, opp), TenVisit(ReplaceFirstAB(n.address, opp) + "G", roll, None, c.ptr))
    else
      var isRR := MarkRerolls(n, c.lastId);
      TStep(TCursor(c.ptr + (if isRR then 3 else 2), if isRR then n.rr.reRollItemId else Some(n.itemId),
                    if c.ng > 1 then c.ng - 1 else c.ng, c.track),
            TenVisit(ReplaceFirstAB(n.address, c.track), roll, Some(isRR), c.ptr))
  }

  /** Positions j..9 of a cycle whose first roll is rollNum, stopping when the
      rolls or the nodes run out. (The cursor is named in the decreases clause
      so that a literal position j alone never lets the definition unroll.) */
  function TenCycleVisits(nodes: seq<Node>, c: TCursor, j: int, gRoll: int, rollNum: int,
                          tableRows: int, gCycle: int): TWalked
    requires c.ptr >= 1 && 0 <= j <= 10
    decreases 10 - j, c.ptr
  {
    if j == 10 || rollNum + j > tableRows || c.ptr > |nodes| then TWalked(c, [])
    else
      var st := TenMarkStep(nodes[c.ptr - 1], c, j, gRoll, rollNum + j, gCycle);
      var rest := TenCycleVisits(nodes, st.next, j + 1, gRoll, rollNum, tableRows, gCycle);
      TWalked(rest.after, [st.visit] + rest.visits)
  }

  /** One unfolding of TenCycleVisits while the cycle goes on. */
  lemma TenCycleUnfold(nodes: seq<Node>, c: TCursor, j: int, gRoll: int, rollNum: int, tableRows: int, gCycle: int)
    requires 1 <= c.ptr <= |nodes| && 0 <= j < 10 && rollNum + j <= tableRows
    ensures var st := TenMarkStep(nodes[c.ptr - 1], c, j, gRoll, rollNum + j, gCycle);
      var rest := TenCycleVisits(nodes, st.next, j + 1, gRoll, rollNum, tableRows, gCycle);
      TenCycleVisits(nodes, c, j, gRoll, rollNum, tableRows, gCycle) == TWalked(rest.after, [st.visit] + rest.visits)
  {
  }

  /** A cycle never moves the cursor back; it holds the 10 - j positions
      left unless the rolls or the nodes run out, in which case nothing
      follows it. */
  lemma {:induction false} TenCycleBounds(nodes: seq<Node>, c: TCursor, j: int, gRoll: int, rollNum: int,
                                          tableRows: int, gCycle: int)
    requires c.ptr >= 1 && 0 <= j <= 10
    ensures var r := TenCycleVisits(nodes, c, j, gRoll, rollNum, tableRows, gCycle);
      r.after.ptr >= c.ptr && |r.visits| <= 10 - j &&
      (|r.visits| == 10 - j || rollNum + 10 > tableRows || r.after.ptr > |nodes|)
    decreases 10 - j
  {
    if !(j == 10 || rollNum + j > tableRows || c.ptr > |nodes|) {
      var st := TenMarkStep(nodes[c.ptr - 1], c, j, gRoll, rollNum + j, gCycle);
      TenCycleUnfold(nodes, c, j, gRoll, rollNum, tableRows, gCycle);
      TenCycleBounds(nodes, st.next, j + 1, gRoll, rollNum, tableRows, gCycle);
    }
  }

  /** The track a cycle's position p is marked on, for a cycle walked from
      position j on track t: the opposite track from the pity position on
      (when it is still ahead of j), else t. */
  function TrackAt(t: char, j: int, gRoll: int, p: int): char
  {
    if j <= gRoll <= p then Opposite(t) else t
  }

  /** Visit v is the cell position p of a cycle marks: the node it reads is
      in the arena, its roll is rollNum + p, and its address is that node's
      address moved to the position's track, with 'G' and no reroll flag at
      the pity position. */
  predicate TenVisitAt(nodes: seq<Node>, t: char, j: int, gRoll: int, rollNum: int, p: int, v: Visit)
  {
    v.TenVisit? && v.roll == rollNum + p && 1 <= v.index <= |nodes| &&
    v.addr == ReplaceFirstAB(nodes[v.index - 1].address, TrackAt(t, j, gRoll, p)) + (if p == gRoll then "G" else "") &&
    (v.reroll.None? <==> p == gRoll)
  }

  /** The track rule of the ten-draw pass: position p is marked on the
      cycle's current track before the pity position, the pity cell on the
      opposite track with 'G', and every later cell on that opposite track,
      to which the cursor has flipped by the end of the cycle. */
  lemma {:induction false} TenCycleTracks(nodes: seq<Node>, c: TCursor, j: int, gRoll: int, rollNum: int,
                                          tableRows: int, gCycle: int, r: TWalked)
    requires c.ptr >= 1 && 0 <= j <= 10 && r == TenCycleVisits(nodes, c, j, gRoll, rollNum, tableRows, gCycle)
    ensures forall k :: 0 <= k < |r.visits| ==> TenVisitAt(nodes, c.track, j, gRoll, rollNum, j + k, r.visits[k])
    ensures r.after.track == TrackAt(c.track, j, gRoll, j + |r.visits| - 1)
    ensures |r.visits| > 0 ==> r.visits[0].index == c.ptr
    decreases 10 - j
  {
    if !(j == 10 || rollNum + j > tableRows || c.ptr > |nodes|) {
      var st := TenMarkStep(nodes[c.ptr - 1], c, j, gRoll, rollNum + j, gCycle);
      TenMarkStepAt(nodes, c, j, gRoll, rollNum, gCycle);
      var rest := TenCycleVisits(nodes, st.next, j + 1, gRoll, rollNum, tableRows, gCycle);
      TenCycleTracks(nodes, st.next, j + 1, gRoll, rollNum, tableRows, gCycle, rest);
      TenCycleUnfold(nodes, c, j, gRoll, rollNum, tableRows, gCycle);
      TenVisitsCons(nodes, c.track, st.next.track, j, gRoll, rollNum, st.visit, rest, r);
    }
  }

  /** The cell position j of a cycle marks at the cursor's node, and the
      track it leaves the cursor on. */
  lemma TenMarkStepAt(nodes: seq<Node>, c: TCursor, j: int, gRoll: int, rollNum: int, gCycle: int)
    requires 1 <= c.ptr <= |nodes|
    ensures var st := TenMarkStep(nodes[c.ptr - 1], c, j, gRoll, rollNum + j, gCycle);
      TenVisitAt(nodes, c.track, j, gRoll, rollNum, j, st.visit) && st.visit.index == c.ptr &&
      st.next.track == (if j == gRoll then Opposite(c.track) else c.track)
  {
    var a := nodes[c.ptr - 1].address;
    assert ReplaceFirstAB(a, c.track) + "" == ReplaceFirstAB(a, c.track);
  }

  /** A visit at position j in front of visits from position j + 1 on the
      track position j leaves, are visits from position j. */
  lemma TenVisitsCons(nodes: seq<Node>, t: char, t1: char, j: int, gRoll: int, rollNum: int, v: Visit,
                      rest: TWalked, r: TWalked)
    requires t1 == (if j == gRoll then Opposite(t) else t)
    requires TenVisitAt(nodes, t, j, gRoll, rollNum, j, v)
    requires forall k :: 0 <= k < |rest.visits| ==>
      TenVisitAt(nodes, t1, j + 1, gRoll, rollNum, j + 1 + k, rest.visits[k])
    requires rest.after.track == TrackAt(t1, j + 1, gRoll, j + 1 + |rest.visits| - 1)
    requires r == TWalked(rest.after, [v] + rest.visits)
    ensures forall k :: 0 <= k < |r.visits| ==> TenVisitAt(nodes, t, j, gRoll, rollNum, j + k, r.visits[k])
    ensures r.after.track == TrackAt(t, j, gRoll, j + |r.visits| - 1)
    ensures r.visits[0] == v
  {
    forall k | 1 <= k < |r.visits|
      ensures TenVisitAt(nodes, t, j, gRoll, rollNum, j + k, r.visits[k])
    {
      assert r.visits[k] == rest.visits[k - 1];
      assert TenVisitAt(nodes, t1, j + 1, gRoll, rollNum, j + 1 + (k - 1), rest.visits[k - 1]);
    }
  }

  /** The pity position of a cycle whose head counter is ng: `ng - 1` when ng
      is in 1..10, else -1. */
  function PityPosition(ng: int): (g: int)
    ensures -1 <= g < 10 && (g >= 0 <==> 1 <= ng <= 10)
  {
    if ng > 0 && ng <= 10 then ng - 1 else -1
  }

  /** The cursor of the first draw of a cycle headed at tIdx: the head node is
      consumed to decide the guaranteed rarity exactly when the pity position
      falls in the cycle and the divisor is positive. */
  function CycleStart(tIdx: int, ng: int, gDiv: int): int
  {
    if PityPosition(ng) != -1 && gDiv > 0 then tIdx + 1 else tIdx
  }

  /** The track a cycle starts on: 'A' when the address of its first cursor
      contains an 'A', else 'B'. */
  function StartTrack(ptr: int): char
  {
    if 'A' in AddressString(ptr, 2) then 'A' else 'B'
  }

  /** The track starts on 'A' exactly at an odd cursor. */
  lemma StartTrackParity(ptr: int)
    requires ptr >= 1
    ensures StartTrack(ptr) == 'A' <==> ptr % 2 == 1
    ensures StartTrack(ptr) == 'A' || StartTrack(ptr) == 'B'
  {
    TwoColumnLetters(ptr);
  }

  /** The cycle headed at tIdx with counter ng, on rolls from rollNum. */
  function TenCycleAt(nodes: seq<Node>, tIdx: int, rollNum: int, lastId: Option<ItemId>, ng: int,
                      tableRows: int, gCycle: int, gDiv: int): TWalked
    requires tIdx >= 1
  {
    var ptr := CycleStart(tIdx, ng, gDiv);
    TenCycleVisits(nodes, TCursor(ptr, lastId, ng, StartTrack(ptr)), 0, PityPosition(ng), rollNum, tableRows, gCycle)
  }

  /** The cells of the ten-draw pass from the cycle headed at tIdx on. */
  function TenVisits(nodes: seq<Node>, tIdx: int, rollNum: int, lastId: Option<ItemId>, ng: int,
                     tableRows: int, gCycle: int, gDiv: int): seq<Visit>
    requires tIdx >= 1
    decreases tableRows - rollNum
  {
    if tIdx > |nodes| || rollNum > tableRows then []
    else
      var cyc := TenCycleAt(nodes, tIdx, rollNum, lastId, ng, tableRows, gCycle, gDiv);
      TenCycleBounds(nodes, TCursor(CycleStart(tIdx, ng, gDiv), lastId, ng, StartTrack(CycleStart(tIdx, ng, gDiv))),
                     0, PityPosition(ng), rollNum, tableRows, gCycle);
      cyc.visits + TenVisits(nodes, cyc.after.ptr, rollNum + 10, cyc.after.lastId, cyc.after.ng, tableRows, gCycle, gDiv)
  }

  /** One position of a cycle as the inner loop runs it, recording its cell. */
  method MarkTenCell(node: Node, c: TCursor, j: int, gRoll: int, currentRollCount: int, gCycle: int,
                     m: map<string, Mark>)
    returns (next: TCursor, m': map<string, Mark>)
    ensures var st := TenMarkStep(node, c, j, gRoll, currentRollCount, gCycle);
      next == st.next && m' == Record(m, st.visit)
  {
    var ptr, tLastId, tNgTracker, currentTrack := c.ptr, c.lastId, c.ng, c.track;
    if j == gRoll {
      var oppositeTrack := if currentTrack == 'A' then 'B' else 'A';
      var addr := ReplaceFirstAB(node.address, oppositeTrack) + "G";
      var existing := if addr in m then m[addr] else NoMark;
      m' := m[addr := existing.(ten := true, tenRoll := Some(currentRollCount), tenIndex := Some(ptr))];
      ptr := ptr + 1;
      tNgTracker := gCycle;
      currentTrack := oppositeTrack;
    } else {
      var addr := ReplaceFirstAB(node.address, currentTrack);
      var isMatch := node.itemId != -1 && tLastId == Some(node.itemId);
      var isRR := (node.rarityId == 1 && node.poolSize > 1 && isMatch) || node.rr.reRerollFlag;
      var existing := if addr in m then m[addr] else NoMark;
      m' := m[addr := existing.(ten := true, tenRoll := Some(currentRollCount), tReRoll := Some(isRR), tenIndex := Some(ptr))];
      tLastId := if isRR then node.rr.reRollItemId else Some(node.itemId);
      ptr := ptr + if isRR then 3 else 2;
      if tNgTracker > 1 {
        tNgTracker := tNgTracker - 1;
      }
    }
    next := TCursor(ptr, tLastId, tNgTracker, currentTrack);
  }

  /** Recording one position and then the rest of the cycle is recording the
      cycle from that position, and ends on the same cursor. */
  lemma TenCycleProgress(nodes: seq<Node>, c: TCursor, j: int, gRoll: int, rollNum: int, tableRows: int,
                         gCycle: int, m: map<string, Mark>)
    requires 1 <= c.ptr <= |nodes| && 0 <= j < 10 && rollNum + j <= tableRows
    ensures var st := TenMarkStep(nodes[c.ptr - 1], c, j, gRoll, rollNum + j, gCycle);
      var r := TenCycleVisits(nodes, c, j, gRoll, rollNum, tableRows, gCycle);
      var r' := TenCycleVisits(nodes, st.next, j + 1, gRoll, rollNum, tableRows, gCycle);
      st.next.ptr >= 1 && r'.after == r.after && Apply(Record(m, st.visit), r'.visits) == Apply(m, r.visits)
  {
    var st := TenMarkStep(nodes[c.ptr - 1], c, j, gRoll, rollNum + j, gCycle);
    var r' := TenCycleVisits(nodes, st.next, j + 1, gRoll, rollNum, tableRows, gCycle);
    TenCycleUnfold(nodes, c, j, gRoll, rollNum, tableRows, gCycle);
    assert ([st.visit] + r'.visits)[1..] == r'.visits;
  }

  /** The inner `for (j …)` loop of the ten-draw pass, recording into m. */
  method TenCyclePass(nodes: seq<Node>, c0: TCursor, gRoll: int, rollNum: int, tableRows: int, gCycle: int,
                      m0: map<string, Mark>)
    returns (c: TCursor, m: map<string, Mark>)
    requires c0.ptr >= 1
    ensures var r := TenCycleVisits(nodes, c0, 0, gRoll, rollNum, tableRows, gCycle);
      c == r.after && m == Apply(m0, r.visits)
  {
    ghost var whole := TenCycleVisits(nodes, c0, 0, gRoll, rollNum, tableRows, gCycle);
    c, m := c0, m0;
    var j := 0;
    while j < 10 && rollNum + j <= tableRows && c.ptr <= |nodes|
      invariant 0 <= j <= 10 && c.ptr >= 1
      invariant TenCycleVisits(nodes, c, j, gRoll, rollNum, tableRows, gCycle).after == whole.after
      invariant Apply(m, TenCycleVisits(nodes, c, j, gRoll, rollNum, tableRows, gCycle).visits) == Apply(m0, whole.visits)
      decreases 10 - j
    {
      TenCycleProgress(nodes, c, j, gRoll, rollNum, tableRows, gCycle, m);
      c, m := MarkTenCell(nodes[c.ptr - 1], c, j, gRoll, rollNum + j, gCycle, m);
      j := j + 1;
    }
    assert TenCycleVisits(nodes, c, j, gRoll, rollNum, tableRows, gCycle) == TWalked(c, []);
  }

  /** The head of a cycle: its pity position, first cursor and track. */
  method TenCycleHead(tIdx: int, tNgTracker: int, gDiv: int) returns (gRollInCycle: int, ptr: int, currentTrack: char)
    requires tIdx >= 1
    ensures gRollInCycle == PityPosition(tNgTracker) && ptr == CycleStart(tIdx, tNgTracker, gDiv)
    ensures ptr >= 1 && currentTrack == StartTrack(ptr)
  {
    gRollInCycle := -1;
    if tNgTracker > 0 && tNgTracker <= 10 {
      gRollInCycle := tNgTracker - 1;
    }
    ptr := tIdx;
    if gRollInCycle != -1 && gDiv > 0 {
      ptr := ptr + 1;
    }
    currentTrack := if 'A' in AddressString(ptr, 2) then 'A' else 'B';
  }

  /** The cells of one cycle as TenCycleTracks describes them, read cell by
      cell against the start track t and the pity position g. */
  predicate PityTrackCells(nodes: seq<Node>, t: char, g: int, rollNum: int, vs: seq<Visit>)
  {
    forall k :: 0 <= k < |vs| ==>
      vs[k].TenVisit? && vs[k].roll == rollNum + k && 1 <= vs[k].index <= |nodes| &&
      var a := nodes[vs[k].index - 1].address;
      (k < g || g == -1 ==> vs[k].addr == ReplaceFirstAB(a, t) && vs[k].reroll.Some?) &&
      (k == g ==> vs[k].addr == ReplaceFirstAB(a, Opposite(t)) + "G" && vs[k].reroll.None?) &&
      (0 <= g < k ==> vs[k].addr == ReplaceFirstAB(a, Opposite(t)) && vs[k].reroll.Some?)
  }

  lemma PityTrackCellsFrom(nodes: seq<Node>, t: char, g: int, rollNum: int, vs: seq<Visit>)
    requires -1 <= g
    requires forall k :: 0 <= k < |vs| ==> TenVisitAt(nodes, t, 0, g, rollNum, k, vs[k])
    ensures PityTrackCells(nodes, t, g, rollNum, vs)
  {
    forall k | 0 <= k < |vs|
      ensures var a := nodes[vs[k].index - 1].address;
        (k < g || g == -1 ==> vs[k].addr == ReplaceFirstAB(a, t)) &&
        (0 <= g < k ==> vs[k].addr == ReplaceFirstAB(a, Opposite(t)))
    {
      assert TenVisitAt(nodes, t, 0, g, rollNum, k, vs[k]);
      var a := nodes[vs[k].index - 1].address;
      assert ReplaceFirstAB(a, t) + "" == ReplaceFirstAB(a, t);
      assert ReplaceFirstAB(a, Opposite(t)) + "" == ReplaceFirstAB(a, Opposite(t));
    }
  }

  /** The cells of one cycle: the first reads the cycle's first node, cell k
      is on roll rollNum + k, the cells before the pity position lie on the
      start track, the pity cell lies on the opposite track with suffix 'G'
      and carries no reroll flag, the cells after it lie on the opposite track
      too, and the cycle ends on the opposite track exactly when its pity
      cell was marked. */
  lemma TenCyclePityTrack(nodes: seq<Node>, tIdx: int, rollNum: int, lastId: Option<ItemId>, ng: int,
                          tableRows: int, gCycle: int, gDiv: int)
    requires tIdx >= 1
    ensures var start := CycleStart(tIdx, ng, gDiv);
      var t := StartTrack(start);
      var g := PityPosition(ng);
      var cyc := TenCycleAt(nodes, tIdx, rollNum, lastId, ng, tableRows, gCycle, gDiv);
      (|cyc.visits| > 0 ==> cyc.visits[0].index == start) &&
      (cyc.after.track == if 0 <= g < |cyc.visits| then Opposite(t) else t) &&
      PityTrackCells(nodes, t, g, rollNum, cyc.visits)
  {
    var start := CycleStart(tIdx, ng, gDiv);
    var t := StartTrack(start);
    var g := PityPosition(ng);
    TenCycleTracks(nodes, TCursor(start, lastId, ng, t), 0, g, rollNum, tableRows, gCycle,
                   TenCycleVisits(nodes, TCursor(start, lastId, ng, t), 0, g, rollNum, tableRows, gCycle));
    PityTrackCellsFrom(nodes, t, g, rollNum, TenCycleVisits(nodes, TCursor(start, lastId, ng, t), 0, g, rollNum,
                                                             tableRows, gCycle).visits);
  }

  /** One pass of the outer loop: the cycle headed at tIdx, recorded into m. */
  method RecordTenCycle(nodes: seq<Node>, tIdx: int, tRollNum: int, tLastId: Option<ItemId>, tNgTracker: int,
                        tableRows: int, gCycle: int, gDiv: int, m0: map<string, Mark>)
    returns (after: TCursor, m: map<string, Mark>)
    requires tIdx >= 1
    ensures var cyc := TenCycleAt(nodes, tIdx, tRollNum, tLastId, tNgTracker, tableRows, gCycle, gDiv);
      after == cyc.after && m == Apply(m0, cyc.visits)
  {
    var gRollInCycle, ptr, currentTrack := TenCycleHead(tIdx, tNgTracker, gDiv);
    after, m := TenCyclePass(nodes, TCursor(ptr, tLastId, tNgTracker, currentTrack), gRollInCycle, tRollNum,
                             tableRows, gCycle, m0);
  }

  /** Recording one cycle and then the rest of the pass is recording the pass
      from that cycle. */
  lemma TenVisitsProgress(nodes: seq<Node>, tIdx: int, rollNum: int, lastId: Option<ItemId>, ng: int,
                          tableRows: int, gCycle: int, gDiv: int, m: map<string, Mark>)
    requires 1 <= tIdx <= |nodes| && rollNum <= tableRows
    ensures var cyc := TenCycleAt(nodes, tIdx, rollNum, lastId, ng, tableRows, gCycle, gDiv);
      cyc.after.ptr >= 1 &&
      Apply(Apply(m, cyc.visits), TenVisits(nodes, cyc.after.ptr, rollNum + 10, cyc.after.lastId, cyc.after.ng, tableRows, gCycle, gDiv))
      == Apply(m, TenVisits(nodes, tIdx, rollNum, lastId, ng, tableRows, gCycle, gDiv))
  {
    var ptr := CycleStart(tIdx, ng, gDiv);
    var cyc := TenCycleAt(nodes, tIdx, rollNum, lastId, ng, tableRows, gCycle, gDiv);
    TenCycleBounds(nodes, TCursor(ptr, lastId, ng, StartTrack(ptr)), 0, PityPosition(ng), rollNum, tableRows, gCycle);
    AppendApply(m, cyc.visits, TenVisits(nodes, cyc.after.ptr, rollNum + 10, cyc.after.lastId, cyc.after.ng,
                                         tableRows, gCycle, gDiv));
  }

  /** The second loop of `generateHighlightMap`, recording into m. */
  method TenHighlightPass(nodes: seq<Node>, tableRows: int, initialNg: Option<int>,
                          initialLastRollId: Option<ItemId>, gCycle: int, b: Banner, m0: map<string, Mark>)
    returns (m: map<string, Mark>)
    ensures m == Apply(m0, TenVisits(nodes, 1, 1, initialLastRollId, NgOrZero(initialNg), tableRows, gCycle,
                                     GuaranteeDivisor(b)))
  {
    var gDiv := GuaranteeDivisor(b);
    ghost var total := Apply(m0, TenVisits(nodes, 1, 1, initialLastRollId, NgOrZero(initialNg), tableRows, gCycle, gDiv));
    m := m0;
    var tIdx, tLastId := 1, initialLastRollId;
    var tNgTracker := if initialNg.Some? then initialNg.value else 0;
    var tRollNum := 1;
    while tIdx <= |nodes| && tRollNum <= tableRows
      invariant tIdx >= 1
      invariant Apply(m, TenVisits(nodes, tIdx, tRollNum, tLastId, tNgTracker, tableRows, gCycle, gDiv)) == total
      decreases tableRows - tRollNum
    {
      TenVisitsProgress(nodes, tIdx, tRollNum, tLastId, tNgTracker, tableRows, gCycle, gDiv, m);
      var after;
      after, m := RecordTenCycle(nodes, tIdx, tRollNum, tLastId, tNgTracker, tableRows, gCycle, gDiv, m);
      tIdx, tLastId, tNgTracker := after.ptr, after.lastId, after.ng;
      tRollNum := tRollNum + 10;
    }
    assert TenVisits(nodes, tIdx, tRollNum, tLastId, tNgTracker, tableRows, gCycle, gDiv) == [];
  }

  /** Recording two runs of visits is recording their concatenation. */
  lemma {:induction false} AppendApply(m: map<string, Mark>, a: seq<Visit>, b: seq<Visit>)
    ensures Apply(m, a + b) == Apply(Apply(m, a), b)
    decreases |a|
  {
    if a == [] {
      assert a + b == b;
    } else {
      assert (a + b)[0] == a[0];
      assert (a + b)[1..] == a[1..] + b;
      AppendApply(Record(m, a[0]), a[1..], b);
    }
  }

  /** The map `generateHighlightMap` returns: the single pass recorded first,
      then the ten-draw pass. */
  function HighlightMap(nodes: seq<Node>, tableRows: int, initialNg: Option<int>,
                        initialLastRollId: Option<ItemId>, gCycle: int, b: Banner): map<string, Mark>
  {
    var single := SingleVisits(nodes, SCursor(1, 1, initialLastRollId, NgOrZero(initialNg)), tableRows, gCycle, HasGuarantee(b));
    var ten := TenVisits(nodes, 1, 1, initialLastRollId, NgOrZero(initialNg), tableRows, gCycle, GuaranteeDivisor(b));
    Apply(Apply(map[], single), ten)
  }

  /** `generateHighlightMap`. */
  method GenerateHighlightMap(nodes: seq<Node>, tableRows: int, initialNg: Option<int>,
                              initialLastRollId: Option<ItemId>, gCycle: int, b: Banner)
    returns (m: map<string, Mark>)
    ensures m == HighlightMap(nodes, tableRows, initialNg, initialLastRollId, gCycle, b)
  {
    m := SingleHighlightPass(nodes, tableRows, initialNg, initialLastRollId, gCycle, b, map[]);
    m := TenHighlightPass(nodes, tableRows, initialNg, initialLastRollId, gCycle, b, m);
  }
}
