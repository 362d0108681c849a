/** The checkpoint list of one prefill, trimmed to its plan after every capture. */
module Checkpoints {
  import opened Wrappers
  import opened GridLevels
  import opened Retention

  /** A recurrent snapshot with its hidden row. */
  type Snapshot(!new)

  datatype Record = Record(position: int, size: nat, snapshot: Snapshot)

  const DEFAULT_CHECKPOINT_COUNT: int := 8

  function Nbytes(r: Record): (n: nat)
    ensures n >= 1
  {
    if r.size < 1 then 1 else r.size
  }

  type Index = map<Position, Record>

  predicate Admitted(plan: Plan, r: Record) {
    r.position > 0 && Admits(plan, r.position)
  }

  /** The admitted records by position, a later capture replacing an earlier one. */
  function ByPosition(records: seq<Record>, plan: Plan): Index {
    if records == [] then map[]
    else
      var m, r := ByPosition(records[..|records| - 1], plan), records[|records| - 1];
      if Admitted(plan, r) then m[r.position := r] else m
  }

  ghost function Largest(m: Index, keys: set<Position>): (n: nat)
    requires keys <= m.Keys
    ensures n >= 1
    ensures forall x :: x in keys ==> Nbytes(m[x]) <= n
    ensures keys != {} ==> exists x :: x in keys && Nbytes(m[x]) == n
  {
    if keys == {} then 1
    else
      var x :| x in keys;
      var n := Largest(m, keys - {x});
      assert forall y :: y in keys ==> y == x || y in keys - {x};
      if keys - {x} == {} || n < Nbytes(m[x]) then Nbytes(m[x]) else n
  }

  function Count(plan: Plan): nat {
    var c := if plan.recordCount.Some? then plan.recordCount.value else DEFAULT_CHECKPOINT_COUNT;
    if c < 0 then 0 else c
  }

  /** `budget_bytes_for`. */
  ghost function Budget(m: Index, plan: Plan): nat {
    match plan.budgetBytes
    case Some(b) => if b < 0 then 0 else b
    case None => Count(plan) * Largest(m, m.Keys)
  }

  datatype Fit = Fit(kept: seq<Position>, spent: nat)

  function TotalBytes(kept: seq<Position>, m: Index): nat
    requires Elems(kept) <= m.Keys
  {
    if kept == [] then 0
    else
      var x := kept[|kept| - 1];
      assert x in Elems(kept) && Elems(kept[..|kept| - 1]) <= Elems(kept);
      TotalBytes(kept[..|kept| - 1], m) + Nbytes(m[x])
  }

  /** First fit: each checkpoint in turn, if it still fits. What is kept never exceeds the budget. */
  function FirstFit(order: seq<Position>, m: Index, budget: nat): (f: Fit)
    requires Elems(order) <= m.Keys
    ensures Elems(f.kept) <= Elems(order) && f.spent <= budget && f.spent == TotalBytes(f.kept, m)
  {
    if order == [] then Fit([], 0)
    else
      var x := order[|order| - 1];
      assert Elems(order[..|order| - 1]) <= Elems(order);
      var f := FirstFit(order[..|order| - 1], m, budget);
      if f.spent + Nbytes(m[x]) > budget then f else Fit(f.kept + [x], f.spent + Nbytes(m[x]))
  }

  /* ---- rank order ---- */

  ghost function Top(s: set<Position>, plan: Plan, u: set<Position>): (x: Position)
    requires u <= s && u != {}
    ensures x in u && forall y :: y in u && y != x ==> Better(s, plan, x, y)
  {
    hide Level;
    var x :| x in u;
    var rest := u - {x};
    assert forall y :: y in u ==> y == x || y in rest;
    if rest == {} then x
    else
      var y := Top(s, plan, rest);
      if Better(s, plan, x, y) then x else y
  }

  lemma ElemsJoin(a: seq<Position>, b: seq<Position>)
    ensures Elems(a + b) == Elems(a) + Elems(b)
  {
  }

  lemma ElemsNone()
    ensures Elems([]) == {}
  {
  }

  lemma ElemsOne(x: Position)
    ensures Elems([x]) == {x}
  {
  }

  ghost function Ranked(s: set<Position>, plan: Plan, u: set<Position>): (o: seq<Position>)
    requires u <= s
    ensures Elems(o) == u && |o| == |u|
  {
    hide Elems, Better;
    if u == {} then
      ElemsNone();
      []
    else
      var x := Top(s, plan, u);
      ElemsJoin([x], Ranked(s, plan, u - {x}));
      ElemsOne(x);
      [x] + Ranked(s, plan, u - {x})
  }

  ghost function Order(s: set<Position>, plan: Plan): (o: seq<Position>)
    requires s != {}
    ensures Elems(o) == s && |o| == |s|
  {
    var p := Protected(s, plan, ANCHORS);
    var rest := Ranked(s, plan, s - Elems(p));
    assert Elems(p + rest) == Elems(p) + Elems(rest);
    p + rest
  }

  ghost function Ascending(u: set<Position>): (o: seq<Position>)
    ensures Elems(o) == u && |o| == |u|
  {
    hide Elems;
    if u == {} then
      ElemsNone();
      []
    else
      ElemsJoin(Ascending(u - {Newest(u)}), [Newest(u)]);
      ElemsOne(Newest(u));
      Ascending(u - {Newest(u)}) + [Newest(u)]
  }

  function Collect(m: Index, o: seq<Position>): (r: seq<Record>)
    requires Elems(o) <= m.Keys
    ensures |r| == |o|
  {
    assert forall i :: 0 <= i < |o| ==> o[i] in Elems(o);
    seq(|o|, i requires 0 <= i < |o| => m[o[i]])
  }

  /** The checkpoints to keep, ascending by position, within the budget. */
  ghost function Retained(records: seq<Record>, plan: Plan): seq<Record> {
    var m := ByPosition(records, plan);
    if m.Keys == {} then []
    else Collect(m, Ascending(Elems(FirstFit(Order(m.Keys, plan), m, Budget(m, plan)).kept)))
  }

  /* ---- the trim, step by step ---- */

  lemma {:induction false} AscendingSorted(u: set<Position>, i: nat, j: nat)
    requires i < j < |Ascending(u)|
    ensures Ascending(u)[i] < Ascending(u)[j]
  {
    hide Newest;
    var x := Newest(u);
    if j < |u| - 1 {
      AscendingSorted(u - {x}, i, j);
    } else {
      assert Ascending(u)[i] in Elems(Ascending(u - {x}));
    }
  }

  /** `sorted(by_position)`. */
  method SortedKeys(u: set<Position>) returns (o: seq<Position>)
    ensures o == Ascending(u)
  {
    hide Elems;
    o := [];
    var rest := u;
    while rest != {}
      invariant rest <= u && Ascending(rest) + o == Ascending(u)
      decreases rest
    {
      ghost var newest := Newest(rest);
      var x :| x in rest && forall y :: y in rest ==> y <= x;
      assert x == newest;
      assert Ascending(rest) == Ascending(rest - {x}) + [x];
      assert Ascending(rest - {x}) + [x] + o == Ascending(rest - {x}) + ([x] + o);
      o, rest := [x] + o, rest - {x};
    }
  }

  /** The last of the ascending positions that is at most `bound`. */
  method LastAtMost(positions: seq<Position>, bound: int) returns (last: Option<Position>)
    requires forall i, j :: 0 <= i < j < |positions| ==> positions[i] < positions[j]
    ensures last == AtMost(Elems(positions), bound)
  {
    last := None;
    for i := 0 to |positions|
      invariant last.Some? ==> last.value in positions[..i] && last.value <= bound
      invariant forall j :: 0 <= j < i && positions[j] <= bound ==> last.Some? && positions[j] <= last.value
    {
      if positions[i] <= bound {
        last := Some(positions[i]);
      }
    }
    assert last.Some? ==> last.value in Elems(positions);
    forall x | x in Elems(positions) && x <= bound
      ensures last.Some? && x <= last.value
    {
      var j :| 0 <= j < |positions| && positions[j] == x;
    }
  }

  /** `_grid_levels`: every position against the cell of the one before it. */
  method AllLevels(positions: seq<Position>, plan: Plan) returns (levels: map<Position, int>)
    requires forall i, j :: 0 <= i < j < |positions| ==> positions[i] < positions[j]
    ensures levels.Keys == Elems(positions)
    ensures forall x :: x in levels.Keys ==> levels[x] == Level(Elems(positions), plan, x)
  {
    levels := map[];
    var previous: Option<nat> := None;
    for i := 0 to |positions|
      invariant levels.Keys == Elems(positions[..i])
      invariant previous == if i == 0 then None else Some(CellOf(plan, positions[i - 1]))
      invariant forall x :: x in levels.Keys ==> levels[x] == Level(Elems(positions), plan, x)
    {
      var x := positions[i];
      var cell := CellOf(plan, x);
      Predecessor(positions, i);
      assert positions[..i + 1] == positions[..i] + [x];
      var level := if previous.None? then FIRST_LEVEL
                   else if cell == previous.value then -1
                   else BitLength(Xor(cell, previous.value)) - 1;
      levels := levels[x := level];
      previous := Some(cell);
    }
    assert positions[..|positions|] == positions;
  }

  lemma Predecessor(positions: seq<Position>, i: nat)
    requires i < |positions| && forall i, j :: 0 <= i < j < |positions| ==> positions[i] < positions[j]
    ensures AtMost(Elems(positions), positions[i] as int - 1) == if i == 0 then None else Some(positions[i - 1])
  {
    var a := AtMost(Elems(positions), positions[i] as int - 1);
    if i > 0 {
      assert positions[i - 1] in Elems(positions);
    }
  }

  /** The sort key of `rest`: no grid cell of its own last, coarser first, newer first. */
  predicate KeyBefore(levels: map<Position, int>, x: Position, y: Position)
    requires x in levels.Keys && y in levels.Keys
  {
    if (levels[x] < 0) != (levels[y] < 0) then !(levels[x] < 0)
    else if levels[x] != levels[y] then -levels[x] < -levels[y]
    else -(x as int) < -(y as int)
  }

  lemma KeyIsRank(levels: map<Position, int>, plan: Plan, u: set<Position>, x: Position)
    requires u <= levels.Keys && forall y :: y in levels.Keys ==> levels[y] == Level(levels.Keys, plan, y)
    requires x in u && forall y :: y in u && y != x ==> Better(levels.Keys, plan, x, y)
    ensures forall y :: y in u && y != x ==> KeyBefore(levels, x, y) && !KeyBefore(levels, y, x)
  {
    hide Level;
  }

  method MinByKey(levels: map<Position, int>, u: set<Position>, ghost plan: Plan) returns (x: Position)
    requires u <= levels.Keys && u != {} && forall x :: x in levels.Keys ==> levels[x] == Level(levels.Keys, plan, x)
    ensures x == Top(levels.Keys, plan, u)
  {
    hide Better, KeyBefore;
    ghost var top := Top(levels.Keys, plan, u);
    KeyIsRank(levels, plan, u, top);
    x :| x in u && forall y :: y in u && y != x ==> KeyBefore(levels, x, y);
  }

  method SortByKey(levels: map<Position, int>, u: set<Position>, ghost plan: Plan) returns (o: seq<Position>)
    requires u <= levels.Keys && forall x :: x in levels.Keys ==> levels[x] == Level(levels.Keys, plan, x)
    ensures o == Ranked(levels.Keys, plan, u)
  {
    hide Better, Level, Elems, Top;
    o := [];
    var rest := u;
    while rest != {}
      invariant rest <= u && o + Ranked(levels.Keys, plan, rest) == Ranked(levels.Keys, plan, u)
      decreases rest
    {
      var x := MinByKey(levels, rest, plan);
      assert Ranked(levels.Keys, plan, rest) == [x] + Ranked(levels.Keys, plan, rest - {x});
      assert o + ([x] + Ranked(levels.Keys, plan, rest - {x})) == o + [x] + Ranked(levels.Keys, plan, rest - {x});
      o, rest := o + [x], rest - {x};
    }
  }

  /** The newest checkpoints below the tail, the first image and the query edge. */
  method EdgeAnchors(keys: set<Position>, positions: seq<Position>, plan: Plan)
    returns (belowLimit: Option<Position>, preImage: Option<Position>, belowQuery: Option<Position>, newest: Position)
    requires keys != {} && positions == Ascending(keys)
    requires forall i, j :: 0 <= i < j < |positions| ==> positions[i] < positions[j]
    ensures belowLimit == Anchor(keys, plan, 0) && preImage == Anchor(keys, plan, 1)
    ensures belowQuery == Anchor(keys, plan, 5)
    ensures Some(newest) == Anchor(keys, plan, 6)
  {
    hide AtMost, Ascending;
    newest := LastIsNewest(keys, positions);
    var end := if plan.promptEnd.Some? then plan.promptEnd.value else newest;
    var limit := end - if plan.tailBackoff < 0 then 0 else plan.tailBackoff;
    if plan.ceiling.Some? {
      limit := Min(limit, plan.ceiling.value);
    }
    belowLimit := LastAtMost(positions, limit);
    belowQuery, preImage := None, None;
    if plan.queryEdge.Some? {
      belowQuery := LastAtMost(positions, plan.queryEdge.value);
    }
    if plan.imageSpans != [] {
      preImage := LastAtMost(positions, plan.imageSpans[0].0);
    }
  }

  method LastIsNewest(keys: set<Position>, positions: seq<Position>) returns (newest: Position)
    requires keys != {} && positions == Ascending(keys)
    ensures newest == Newest(keys)
  {
    newest := positions[|positions| - 1];
  }

  /** The captured candidates in the order they are protected in, each once. */
  method ProtectedAnchors(keys: set<Position>, candidates: seq<Option<int>>, ghost plan: Plan)
    returns (protected: seq<Position>)
    requires keys != {} && |candidates| == ANCHORS
    requires forall i :: 0 <= i < ANCHORS ==> Captured(keys, candidates[i]) == Anchor(keys, plan, i)
    ensures protected == Protected(keys, plan, ANCHORS)
  {
    hide Anchor;
    protected := [];
    for i := 0 to ANCHORS
      invariant protected == Protected(keys, plan, i)
    {
      var candidate := candidates[i];
      if candidate.Some? && candidate.value > 0 && candidate.value in keys && candidate.value !in protected {
        protected := protected + [candidate.value];
      }
    }
  }

  method BudgetBytes(m: Index, positions: seq<Position>, plan: Plan) returns (budget: nat)
    requires Elems(positions) == m.Keys
    ensures budget == Budget(m, plan)
  {
    if plan.budgetBytes.Some? {
      return if plan.budgetBytes.value < 0 then 0 else plan.budgetBytes.value;
    }
    var largest: nat := 1;
    for i := 0 to |positions|
      invariant largest >= 1 && (i == 0 ==> largest == 1)
      invariant forall j :: 0 <= j < i ==> positions[j] in m.Keys && Nbytes(m[positions[j]]) <= largest
      invariant i > 0 ==> exists j :: 0 <= j < i && positions[j] in m.Keys && Nbytes(m[positions[j]]) == largest
    {
      assert positions[i] in Elems(positions);
      if i == 0 || largest < Nbytes(m[positions[i]]) {
        largest := Nbytes(m[positions[i]]);
        assert Nbytes(m[positions[i]]) == largest;
      }
    }
    LargestUnique(m, positions, largest);
    budget := Count(plan) * largest;
  }

  lemma LargestUnique(m: Index, positions: seq<Position>, n: nat)
    requires Elems(positions) == m.Keys
    requires forall j :: 0 <= j < |positions| ==> positions[j] in m.Keys && Nbytes(m[positions[j]]) <= n
    requires if positions == [] then n == 1
             else exists j :: 0 <= j < |positions| && positions[j] in m.Keys && Nbytes(m[positions[j]]) == n
    ensures n == Largest(m, m.Keys)
  {
    hide Nbytes;
    if positions != [] {
      var j :| 0 <= j < |positions| && positions[j] in m.Keys && Nbytes(m[positions[j]]) == n;
      var x :| x in m.Keys && Nbytes(m[x]) == Largest(m, m.Keys);
      assert x in Elems(positions);
    } else {
      assert m.Keys == {};
    }
  }

  method FitWithin(order: seq<Position>, m: Index, budget: nat) returns (kept: seq<Position>)
    requires Elems(order) <= m.Keys
    ensures kept == FirstFit(order, m, budget).kept
  {
    var spent: nat;
    kept, spent := [], 0;
    for i := 0 to |order|
      invariant Elems(order[..i]) <= m.Keys
      invariant FirstFit(order[..i], m, budget) == Fit(kept, spent)
    {
      assert order[..i + 1][..i] == order[..i];
      assert order[i] in Elems(order);
      assert Elems(order[..i + 1]) <= Elems(order);
      var size := Nbytes(m[order[i]]);
      if spent + size <= budget {
        kept, spent := kept + [order[i]], spent + size;
      }
    }
    assert order[..|order|] == order;
  }

  method IndexRecords(records: seq<Record>, plan: Plan) returns (m: Index)
    ensures m == ByPosition(records, plan)
  {
    m := map[];
    for i := 0 to |records|
      invariant m == ByPosition(records[..i], plan)
    {
      assert records[..i + 1][..i] == records[..i];
      var r := records[i];
      if r.position > 0 && Admits(plan, r.position) {
        m := m[r.position := r];
      }
    }
    assert records[..|records|] == records;
  }

  /** `retain_checkpoints`. */
  method RetainCheckpoints(records: seq<Record>, plan: Plan) returns (kept: seq<Record>)
    ensures kept == Retained(records, plan)
  {
    hide Level, Protected, Ascending, Elems, FirstFit, Budget, ByPosition;
    var m := IndexRecords(records, plan);
    if m.Keys == {} {
      return [];
    }
    var positions := SortedKeys(m.Keys);
    forall i, j | 0 <= i < j < |positions|
      ensures positions[i] < positions[j]
    {
      AscendingSorted(m.Keys, i, j);
    }
    var belowLimit, preImage, belowQuery, newest := EdgeAnchors(m.Keys, positions, plan);
    var candidates := [belowLimit, preImage, plan.restorePoint, plan.systemEdge, plan.stablePrefix, belowQuery,
                       Some(newest)];
    var protected := ProtectedAnchors(m.Keys, candidates, plan);
    var levels := AllLevels(positions, plan);
    var rest := SortByKey(levels, m.Keys - Elems(protected), plan);
    ElemsJoin(protected, rest);
    var budget := BudgetBytes(m, positions, plan);
    var fits := FitWithin(protected + rest, m, budget);
    var order := SortedKeys(Elems(fits));
    kept := Collect(m, order);
  }

  /* ---- what is retained, whatever the sizes ---- */

  /** The index holds the last admitted record of every position. */
  lemma {:induction false} IndexIsLast(records: seq<Record>, plan: Plan, i: nat)
    requires i < |records| && records[i].position > 0 && Admits(plan, records[i].position)
    requires forall j :: i < j < |records| ==> records[j].position != records[i].position
    ensures records[i].position in ByPosition(records, plan)
    ensures ByPosition(records, plan)[records[i].position] == records[i]
  {
    var init := records[..|records| - 1];
    if i < |init| {
      assert init[i] == records[i];
      IndexIsLast(init, plan, i);
    }
  }

  /** The byte budget is the plan's, or its count, by default eight, of the largest record present. */
  lemma BudgetIs(m: Index, plan: Plan, largest: nat)
    requires forall x :: x in m.Keys ==> Nbytes(m[x]) <= largest
    requires if m.Keys == {} then largest == 1 else exists x :: x in m.Keys && Nbytes(m[x]) == largest
    ensures plan.budgetBytes.Some? ==>
              Budget(m, plan) == if plan.budgetBytes.value < 0 then 0 else plan.budgetBytes.value
    ensures plan.budgetBytes.None? ==>
              var count := if plan.recordCount.Some? then plan.recordCount.value else 8;
              Budget(m, plan) == if count < 0 then 0 else count * largest
  {
    assert Largest(m, m.Keys) == largest;
  }

  lemma {:induction false} FirstFitKeeps(order: seq<Position>, m: Index, budget: nat, largest: nat, k: nat)
    requires Elems(order) <= m.Keys && (forall x :: x in m.Keys ==> Nbytes(m[x]) <= largest)
    requires k <= |order| && Bytes(k, largest) <= budget
    ensures forall i :: 0 <= i < k ==> order[i] in FirstFit(order, m, budget).kept
    ensures k == |order| ==> FirstFit(order, m, budget).spent <= Bytes(k, largest)
  {
    hide Elems, Nbytes;
    if order != [] {
      var init, x := order[..|order| - 1], order[|order| - 1];
      assert order == init + [x];
      ElemsJoin(init, [x]);
      ElemsOne(x);
      if k == |order| {
        assert Bytes(k, largest) == Bytes(k - 1, largest) + largest by {
          assert largest * k == largest * (k - 1) + largest;
        }
        FirstFitKeeps(init, m, budget, largest, k - 1);
      } else {
        FirstFitKeeps(init, m, budget, largest, k);
      }
    }
  }

  /** With room for `k` records of the largest size, everything that `k` slots would keep is retained. */
  lemma RoomForSlots(records: seq<Record>, plan: Plan, k: nat, largest: nat) returns (r: set<Position>)
    requires ByPosition(records, plan).Keys != {}
    requires forall i :: 0 <= i < |records| ==> Nbytes(records[i]) <= largest
    requires Bytes(k, largest) <= Budget(ByPosition(records, plan), plan)
    ensures IsKept(ByPosition(records, plan).Keys, plan, k, r)
    ensures forall x :: x in r ==>
              exists j :: 0 <= j < |Retained(records, plan)| && Retained(records, plan)[j].position == x
  {
    hide IsKept, Nbytes, Order, FirstFit, Budget, Ascending;
    var m := ByPosition(records, plan);
    forall x | x in m.Keys
      ensures Nbytes(m[x]) <= largest && m[x].position == x
    {
      IndexFrom(records, plan, x);
    }
    var order := Order(m.Keys, plan);
    var l := Min(k, |m.Keys|);
    OrderPrefixIsKept(m.Keys, plan, k);
    r := Elems(order[..l]);
    MulMonotone(largest, l, k);
    FirstFitKeeps(order, m, Budget(m, plan), largest, l);
    var fits := FirstFit(order, m, Budget(m, plan)).kept;
    forall x | x in r
      ensures exists j :: 0 <= j < |Retained(records, plan)| && Retained(records, plan)[j].position == x
    {
      assert x in Elems(Ascending(Elems(fits)));
      var j :| 0 <= j < |Ascending(Elems(fits))| && Ascending(Elems(fits))[j] == x;
      assert Retained(records, plan)[j].position == x;
    }
  }

  /** What is retained ascends, and each of it is the last record of its position that was captured. */
  lemma RetainedAscends(records: seq<Record>, plan: Plan, i: nat)
    requires i < |Retained(records, plan)|
    ensures var kept := Retained(records, plan);
            && (forall j :: i < j < |kept| ==> kept[i].position < kept[j].position)
            && exists n :: 0 <= n < |records| && records[n] == kept[i]
                 && kept[i].position > 0 && Admits(plan, kept[i].position)
                 && forall l :: n < l < |records| ==> records[l].position != kept[i].position
  {
    hide FirstFit, Order, Budget, Ascending, Admits;
    var m, kept := ByPosition(records, plan), Retained(records, plan);
    var u := Elems(FirstFit(Order(m.Keys, plan), m, Budget(m, plan)).kept);
    forall j | 0 <= j < |kept|
      ensures Ascending(u)[j] in m.Keys && kept[j] == m[Ascending(u)[j]] && kept[j].position == Ascending(u)[j]
    {
      assert Ascending(u)[j] in Elems(Ascending(u));
      IndexFrom(records, plan, Ascending(u)[j]);
    }
    forall j | i < j < |kept|
      ensures kept[i].position < kept[j].position
    {
      AscendingSorted(u, i, j);
    }
    var n := IndexIsFound(records, plan, kept[i].position);
  }

  lemma {:induction false} IndexIsFound(records: seq<Record>, plan: Plan, x: Position) returns (n: nat)
    requires x in ByPosition(records, plan)
    ensures n < |records| && records[n] == ByPosition(records, plan)[x] && records[n].position == x && Admits(plan, x)
    ensures forall l :: n < l < |records| ==> records[l].position != x
  {
    hide Admits;
    n := |records| - 1;
    IndexFrom(records, plan, x);
    if records[n].position != x {
      var init := records[..n];
      n := IndexIsFound(init, plan, x);
      assert forall l :: 0 <= l < |init| ==> records[l] == init[l];
    }
  }

  /* ---- records of one size ---- */

  predicate SameSize(records: seq<Record>, n: nat) {
    n > 0 && forall i :: 0 <= i < |records| ==> Nbytes(records[i]) == n
  }

  /** How many records of `n` bytes fit. */
  function Fitting(budget: nat, n: nat): nat
    requires n > 0
  {
    budget / n
  }

  /** How many records of `n` bytes a plan pays for. */
  function Slots(plan: Plan, n: nat): nat
    requires n > 0
  {
    match plan.budgetBytes
    case Some(b) => if b < 0 then 0 else Fitting(b, n)
    case None => Count(plan)
  }

  lemma {:induction false} IndexFrom(records: seq<Record>, plan: Plan, x: Position)
    requires x in ByPosition(records, plan)
    ensures var r := ByPosition(records, plan)[x]; r in records && r.position == x && Admitted(plan, r)
  {
    hide Admitted;
    var r := records[|records| - 1];
    if !(Admitted(plan, r) && r.position == x) {
      IndexFrom(records[..|records| - 1], plan, x);
    }
  }

  lemma TimesDiv(a: nat, n: nat)
    requires n > 0
    ensures a * n / n == a
  {
    var q := a * n / n;
    assert n * q <= n * a < n * (q + 1);
    if q < a {
      MulMonotone(n, q + 1, a);
    } else {
      Spread(n, a, q, q - a);
    }
  }

  function Bytes(count: nat, n: nat): nat {
    n * count
  }

  lemma OneMoreFits(k: nat, n: nat, budget: nat)
    requires n > 0
    ensures Bytes(k, n) + n <= budget <==> k < Fitting(budget, n)
    ensures Bytes(k + 1, n) == Bytes(k, n) + n
  {
    var q := budget / n;
    assert n * q <= budget < n * (q + 1);
    if k < q {
      MulMonotone(n, k + 1, q);
    } else {
      MulMonotone(n, q + 1, k + 1);
    }
    assert n * (k + 1) == n * k + n;
  }

  lemma FirstFitStep(order: seq<Position>, m: Index, budget: nat, n: nat, slots: nat, k: nat, spent: nat)
    requires order != [] && Elems(order) <= m.Keys && Elems(order[..|order| - 1]) <= m.Keys
    requires k == Min(slots, |order| - 1) && FirstFit(order[..|order| - 1], m, budget) == Fit(order[..k], spent)
    requires order[|order| - 1] in m.Keys && Nbytes(m[order[|order| - 1]]) == n && (spent + n <= budget <==> k < slots)
    ensures FirstFit(order, m, budget) == if k < slots then Fit(order[..k + 1], spent + n) else Fit(order[..k], spent)
  {
    hide Nbytes, TotalBytes, Elems;
    if k < slots {
      assert order[..k + 1] == order[..k] + [order[k]];
    }
  }

  lemma {:induction false} FirstFitIsPrefix(order: seq<Position>, m: Index, budget: nat, n: nat)
    requires Elems(order) <= m.Keys && n > 0 && forall x :: x in m.Keys ==> Nbytes(m[x]) == n
    ensures var k := Min(Fitting(budget, n), |order|);
            FirstFit(order, m, budget) == Fit(order[..k], Bytes(k, n))
  {
    hide FirstFit, Bytes, Elems, Fitting;
    var slots := Fitting(budget, n);
    if order == [] {
      FirstFitNone(m, budget, n);
    } else {
      var init := order[..|order| - 1];
      assert order == init + [order[|order| - 1]];
      ElemsJoin(init, [order[|order| - 1]]);
      ElemsOne(order[|order| - 1]);
      FirstFitIsPrefix(init, m, budget, n);
      var k := Min(slots, |init|);
      OneMoreFits(k, n, budget);
      assert init[..k] == order[..k];
      FirstFitStep(order, m, budget, n, slots, k, Bytes(k, n));
    }
  }

  lemma FirstFitNone(m: Index, budget: nat, n: nat)
    ensures Elems([]) <= m.Keys && FirstFit([], m, budget) == Fit([], 0) && Bytes(0, n) == 0
  {
    ElemsNone();
  }

  lemma {:induction false} ElemsCount(o: seq<Position>)
    ensures |Elems(o)| <= |o|
  {
    if o == [] {
      assert Elems(o) == {};
    } else {
      var init := o[..|o| - 1];
      ElemsCount(init);
      assert Elems(o) == Elems(init) + {o[|o| - 1]};
    }
  }

  lemma DistinctPrefix(o: seq<Position>, k: nat)
    requires |Elems(o)| == |o| && k <= |o|
    ensures |Elems(o[..k])| == k
  {
    ElemsJoin(o[..k], o[k..]);
    assert o[..k] + o[k..] == o;
    ElemsCount(o[..k]);
    ElemsCount(o[k..]);
  }

  lemma {:induction false} RankedSorted(s: set<Position>, plan: Plan, u: set<Position>, i: nat, j: nat)
    requires u <= s && i < j < |Ranked(s, plan, u)|
    ensures Ranked(s, plan, u)[i] in u && Ranked(s, plan, u)[j] in u
    ensures Better(s, plan, Ranked(s, plan, u)[i], Ranked(s, plan, u)[j])
  {
    hide Better;
    var x := Top(s, plan, u);
    var o := Ranked(s, plan, u - {x});
    assert o[j - 1] in Elems(o);
    if i > 0 {
      RankedSorted(s, plan, u - {x}, i - 1, j - 1);
    }
  }

  /** The first `k` in order are what `k` slots keep. */
  lemma OrderPrefixIsKept(s: set<Position>, plan: Plan, k: nat)
    requires s != {}
    ensures IsKept(s, plan, k, Elems(Order(s, plan)[..Min(k, |s|)]))
  {
    hide Protected, Better, Ranked;
    var o, l := Order(s, plan), Min(k, |s|);
    var p := Protected(s, plan, ANCHORS);
    var rest := Ranked(s, plan, s - Elems(p));
    DistinctPrefix(o, l);
    assert Elems(o[..l]) <= Elems(o);
    SubsetCard(Elems(p), s);
    if k <= |p| {
      assert o[..l] == p[..k];
    } else {
      assert o[..l] == p + rest[..l - |p|];
      forall x, y | x in Elems(o[..l]) && x !in p && y in s && y !in Elems(o[..l])
        ensures Better(s, plan, x, y)
      {
        assert y in Elems(rest);
        var i :| 0 <= i < l - |p| && rest[i] == x;
        assert forall j :: 0 <= j < l - |p| ==> rest[j] == o[..l][|p| + j];
        var j :| 0 <= j < |rest| && rest[j] == y;
        RankedSorted(s, plan, s - Elems(p), i, j);
      }
    }
  }

  /** Records of one size: what is retained is what the slots keep. */
  lemma RetainedIsKept(records: seq<Record>, plan: Plan, n: nat) returns (r: set<Position>)
    requires SameSize(records, n) && ByPosition(records, plan).Keys != {}
    ensures IsKept(ByPosition(records, plan).Keys, plan, Slots(plan, n), r)
    ensures Retained(records, plan) == Collect(ByPosition(records, plan), Ascending(r))
  {
    hide IsKept, Order, Ascending, Elems;
    var m := ByPosition(records, plan);
    forall x | x in m.Keys
      ensures Nbytes(m[x]) == n
    {
      IndexFrom(records, plan, x);
    }
    var order := Order(m.Keys, plan);
    FirstFitIsPrefix(order, m, Budget(m, plan), n);
    OrderPrefixIsKept(m.Keys, plan, Slots(plan, n));
    TimesDiv(Count(plan), n);
    r := Elems(order[..Min(Slots(plan, n), |order|)]);
  }

  /** Whatever the slots keep is what is retained. */
  lemma KeptIsRetained(records: seq<Record>, plan: Plan, n: nat, r: set<Position>)
    requires SameSize(records, n) && ByPosition(records, plan).Keys != {}
    requires IsKept(ByPosition(records, plan).Keys, plan, Slots(plan, n), r)
    ensures Retained(records, plan) == Collect(ByPosition(records, plan), Ascending(r))
  {
    hide IsKept, Ascending;
    var r0 := RetainedIsKept(records, plan, n);
    KeptUnique(ByPosition(records, plan).Keys, plan, Slots(plan, n), r0, r);
  }

  lemma {:induction false} CollectIndex(m: Index, plan: Plan, o: seq<Position>)
    requires Elems(o) <= m.Keys && forall x :: x in m.Keys ==> m[x].position == x && Admitted(plan, m[x])
    ensures ByPosition(Collect(m, o), plan) == map x | x in Elems(o) :: m[x]
  {
    hide Admitted;
    if o != [] {
      var init := o[..|o| - 1];
      assert o == init + [o[|o| - 1]];
      assert Elems(o) == Elems(init) + {o[|o| - 1]};
      CollectIndex(m, plan, init);
      assert Collect(m, o)[..|o| - 1] == Collect(m, init);
    }
  }

  /* ---- one prefill ---- */

  /** Every admitted record of `before` was captured before `position`. */
  ghost predicate Earlier(before: seq<Record>, plan: Plan, position: int) {
    forall x :: x in ByPosition(before, plan).Keys ==> x < position
  }

  lemma IndexSnoc(records: seq<Record>, c: Record, plan: Plan)
    ensures ByPosition(records + [c], plan) ==
              if Admitted(plan, c) then ByPosition(records, plan)[c.position := c] else ByPosition(records, plan)
  {
    assert (records + [c])[..|records|] == records;
  }

  /** Trimming before a capture changes nothing about the trim after it. */
  lemma ThinOnce(before: seq<Record>, plan: Plan, n: nat, c: Record)
    requires NoMovingTail(plan) && SameSize(before + [c], n) && Admitted(plan, c) && Earlier(before, plan, c.position)
    requires InRange(ByPosition(before + [c], plan).Keys)
    ensures Retained(Retained(before, plan) + [c], plan) == Retained(before + [c], plan)
  {
    hide IsKept, Ascending, Elems, InRange;
    var m, p := ByPosition(before, plan), c.position;
    IndexSnoc(before, c, plan);
    assert SameSize(before, n) by { assert forall i :: 0 <= i < |before| ==> before[i] == (before + [c])[i]; }
    if m.Keys == {} {
      IndexSnoc([], c, plan);
      assert m == map[];
    } else {
      var r := RetainedIsKept(before, plan, n);
      ThinOnceKept(before, plan, n, c, r);
    }
  }

  lemma ThinOnceKept(before: seq<Record>, plan: Plan, n: nat, c: Record, r: set<Position>)
    requires NoMovingTail(plan) && SameSize(before + [c], n) && Admitted(plan, c) && Earlier(before, plan, c.position)
    requires InRange(ByPosition(before + [c], plan).Keys) && ByPosition(before, plan).Keys != {}
    requires IsKept(ByPosition(before, plan).Keys, plan, Slots(plan, n), r)
    requires Retained(before, plan) == Collect(ByPosition(before, plan), Ascending(r))
    ensures Retained(Retained(before, plan) + [c], plan) == Retained(before + [c], plan)
  {
    hide NoMovingTail;
    hide IsKept, Ascending, Retained, Elems, Admitted, InRange, Slots, Earlier;
    var m, p, k := ByPosition(before, plan), c.position, Slots(plan, n);
    var thin := Retained(before, plan) + [c];
    KeptSubset(m.Keys, plan, k, r);
    ThinIndex(before, plan, c, r);
    IndexSnoc(before, c, plan);
    var full, short := ByPosition(before + [c], plan), ByPosition(thin, plan);
    assert full.Keys == m.Keys + {p};
    var r' := RetainedIsKept(before + [c], plan, n);
    KeptAfter(before, plan, k, c, r, r');
    ThinSameSize(before, plan, n, c, r);
    KeptIsRetained(thin, plan, n, r');
    KeptSubset(r + {p}, plan, k, r');
    SameCollect(full, short, r');
  }

  lemma KeptAfter(before: seq<Record>, plan: Plan, k: nat, c: Record, r: set<Position>, r': set<Position>)
    requires NoMovingTail(plan) && Admitted(plan, c) && Earlier(before, plan, c.position)
    requires var s := ByPosition(before, plan).Keys;
             s != {} && InRange(s + {c.position}) && IsKept(s, plan, k, r) && IsKept(s + {c.position}, plan, k, r')
    ensures IsKept(r + {c.position}, plan, k, r')
  {
    var s, p: Position := ByPosition(before, plan).Keys, c.position;
    AdmittedSettled(plan, p);
    EarlierAfter(before, plan, p);
    hide IsKept, Settled, NoMovingTail, Admitted, Earlier;
    InRangeSubset(s, s + {p});
    ThinFirst(s, plan, k, r, p, r');
  }

  lemma EarlierAfter(before: seq<Record>, plan: Plan, p: Position)
    requires Earlier(before, plan, p)
    ensures After(ByPosition(before, plan).Keys, p)
  {
  }

  lemma SameCollect(a: Index, b: Index, r: set<Position>)
    requires r <= a.Keys && r <= b.Keys && forall x :: x in r ==> a[x] == b[x]
    ensures Collect(a, Ascending(r)) == Collect(b, Ascending(r))
  {
    var o := Ascending(r);
    assert forall i :: 0 <= i < |o| ==> o[i] in Elems(o);
  }

  /** The index of the thinned list and the capture. */
  lemma ThinIndex(before: seq<Record>, plan: Plan, c: Record, r: set<Position>)
    requires r <= ByPosition(before, plan).Keys && Admitted(plan, c)
    ensures var m, thin := ByPosition(before, plan), Collect(ByPosition(before, plan), Ascending(r)) + [c];
            && ByPosition(thin, plan).Keys == r + {c.position}
            && forall x :: x in r + {c.position} ==> ByPosition(thin, plan)[x] == if x == c.position then c else m[x]
  {
    hide Ascending, Admitted, Collect;
    var m := ByPosition(before, plan);
    forall x | x in m.Keys
      ensures m[x].position == x && Admitted(plan, m[x])
    {
      IndexFrom(before, plan, x);
    }
    CollectIndex(m, plan, Ascending(r));
    IndexSnoc(Collect(m, Ascending(r)), c, plan);
  }

  lemma ThinSameSize(before: seq<Record>, plan: Plan, n: nat, c: Record, r: set<Position>)
    requires SameSize(before + [c], n) && r <= ByPosition(before, plan).Keys
    ensures SameSize(Collect(ByPosition(before, plan), Ascending(r)) + [c], n)
  {
    var m, o := ByPosition(before, plan), Ascending(r);
    assert Nbytes((before + [c])[|before|]) == n;
    forall i | 0 <= i < |o|
      ensures Nbytes(Collect(m, o)[i]) == n
    {
      assert o[i] in Elems(o);
      IndexFrom(before, plan, o[i]);
      var j :| 0 <= j < |before| && before[j] == m[o[i]];
      assert (before + [c])[j] == before[j];
    }
  }

  /** A prefill's captures, the list trimmed after each. */
  ghost function TrimEach(before: seq<Record>, captures: seq<Record>, plan: Plan): seq<Record> {
    if captures == [] then before
    else
      var t, c := TrimEach(before, captures[..|captures| - 1], plan), captures[|captures| - 1];
      if Admitted(plan, c) then Retained(t + [c], plan) else t
  }

  /** Captures arrive by position, after everything the list started with. */
  ghost predicate InOrder(before: seq<Record>, captures: seq<Record>, plan: Plan) {
    forall i :: 0 <= i < |captures| && Admitted(plan, captures[i]) ==>
      Earlier(before + captures[..i], plan, captures[i].position)
  }

  predicate AnyAdmitted(captures: seq<Record>, plan: Plan) {
    exists i :: 0 <= i < |captures| && Admitted(plan, captures[i])
  }

  /** Trimming after every capture keeps exactly what one trim at the end keeps. */
  lemma {:induction false} TrimEachIsTrimOnce(before: seq<Record>, captures: seq<Record>, plan: Plan, n: nat)
    requires NoMovingTail(plan) && SameSize(before + captures, n) && InOrder(before, captures, plan)
    requires InRange(ByPosition(before + captures, plan).Keys)
    ensures TrimEach(before, captures, plan) ==
              if AnyAdmitted(captures, plan) then Retained(before + captures, plan) else before
  {
    hide Admitted, InRange, Retained, Earlier;
    if captures != [] {
      var init, c := captures[..|captures| - 1], captures[|captures| - 1];
      assert before + captures == before + init + [c];
      IndexSnoc(before + init, c, plan);
      InRangeSubset(ByPosition(before + init, plan).Keys, ByPosition(before + captures, plan).Keys);
      assert forall i :: 0 <= i < |before + init| ==> (before + init)[i] == (before + captures)[i];
      assert forall i :: 0 <= i < |init| ==> init[i] == captures[i] && init[..i] == captures[..i];
      TrimEachIsTrimOnce(before, init, plan, n);
      if Admitted(plan, c) {
        ThinOnce(before + init, plan, n, c);
        if !AnyAdmitted(init, plan) {
          NoneAdmitted(before, init, plan);
          RetainedByIndex(before + [c], before + captures, plan, before, before + init, c);
        }
      } else {
        RetainedSameIndex(before + init, before + captures, plan);
        if AnyAdmitted(captures, plan) {
          var i :| 0 <= i < |captures| && Admitted(plan, captures[i]);
          assert Admitted(plan, init[i]);
        }
      }
    }
  }

  lemma InRangeSubset(a: set<Position>, b: set<Position>)
    requires a <= b && InRange(b)
    ensures InRange(a)
  {
  }

  lemma RetainedSameIndex(a: seq<Record>, b: seq<Record>, plan: Plan)
    requires ByPosition(a, plan) == ByPosition(b, plan)
    ensures Retained(a, plan) == Retained(b, plan)
  {
  }

  lemma RetainedByIndex(a: seq<Record>, b: seq<Record>, plan: Plan, a0: seq<Record>, b0: seq<Record>, c: Record)
    requires a == a0 + [c] && b == b0 + [c] && ByPosition(a0, plan) == ByPosition(b0, plan)
    ensures Retained(a, plan) == Retained(b, plan)
  {
    IndexSnoc(a0, c, plan);
    IndexSnoc(b0, c, plan);
    RetainedSameIndex(a, b, plan);
  }

  lemma {:induction false} NoneAdmitted(before: seq<Record>, captures: seq<Record>, plan: Plan)
    requires !AnyAdmitted(captures, plan)
    ensures ByPosition(before + captures, plan) == ByPosition(before, plan)
  {
    hide Admitted;
    if captures == [] {
      assert before + captures == before;
    } else {
      var init, c := captures[..|captures| - 1], captures[|captures| - 1];
      assert before + captures == before + init + [c];
      assert forall i :: 0 <= i < |init| ==> init[i] == captures[i];
      IndexSnoc(before + init, c, plan);
      NoneAdmitted(before, init, plan);
    }
  }

  class CheckpointSink {
    const plan: Plan
    var records: seq<Record>

    constructor (records: seq<Record>, plan: Plan)
      ensures this.records == records && this.plan == plan
    {
      this.records, this.plan := records, plan;
    }

    method Retain()
      modifies this
      ensures records == Retained(old(records), plan)
    {
      records := RetainCheckpoints(records, plan);
    }

    /** `_capture_gdn_boundary`: append and trim; a position the plan does not admit is not captured. */
    method Capture(r: Record)
      modifies this
      ensures records == TrimEach(old(records), [r], plan)
    {
      assert [r][..0] == [];
      if r.position < 1 {
        return;
      }
      if !Admits(plan, r.position) {
        return;
      }
      records := records + [r];
      Retain();
    }

    /** The captures of one prefill. */
    method CaptureAll(captures: seq<Record>)
      modifies this
      ensures records == TrimEach(old(records), captures, plan)
      ensures forall n: nat ::
                NoMovingTail(plan) && SameSize(old(records) + captures, n) && InOrder(old(records), captures, plan)
                && InRange(ByPosition(old(records) + captures, plan).Keys) && AnyAdmitted(captures, plan)
                ==> records == Retained(old(records) + captures, plan)
    {
      hide Admitted, Retained, SameSize, InOrder, InRange, AnyAdmitted;
      for i := 0 to |captures|
        invariant records == TrimEach(old(records), captures[..i], plan)
      {
        assert captures[..i + 1][..i] == captures[..i];
        assert [captures[i]][..0] == [];
        Capture(captures[i]);
      }
      assert captures[..|captures|] == captures;
      forall n: nat | NoMovingTail(plan) && SameSize(old(records) + captures, n)
        && InOrder(old(records), captures, plan)
                      && InRange(ByPosition(old(records) + captures, plan).Keys)
        ensures AnyAdmitted(captures, plan) ==> records == Retained(old(records) + captures, plan)
      {
        TrimEachIsTrimOnce(old(records), captures, plan, n);
      }
    }
  }
}
