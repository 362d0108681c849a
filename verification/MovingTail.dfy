/** When trimming after every capture is trimming once although the prompt end is not known: the newest
    checkpoint then stands in for it and moves with every capture. */
module MovingTail {
  import opened Wrappers
  import opened GridLevels
  import opened Retention

  /** With `k` slots, trimming before a capture never changes what is kept after it. */
  ghost predicate Confluent(plan: Plan, k: nat) {
    forall s: set<Position>, p: Position, t: set<Position>, r: set<Position> ::
      Captures(s, plan, p) && IsKept(s, plan, k, t) && IsKept(s + {p}, plan, k, r) ==> IsKept(t + {p}, plan, k, r)
  }

  /** `p` is captured after `s`, all of them where the plan admits them. */
  ghost predicate Captures(s: set<Position>, plan: Plan, p: Position) {
    s != {} && After(s, p) && InRange(s + {p}) && forall x :: x in s + {p} ==> Admits(plan, x)
  }

  lemma SettledConfluent(plan: Plan, k: nat)
    requires NoMovingTail(plan)
    ensures Confluent(plan, k)
  {
    hide IsKept;
    forall s: set<Position>, p: Position, t: set<Position>, r: set<Position>
      | Captures(s, plan, p) && IsKept(s, plan, k, t) && IsKept(s + {p}, plan, k, r)
      ensures IsKept(t + {p}, plan, k, r)
    {
      assert p in s + {p};
      AdmittedSettled(plan, p);
      ThinFirst(s, plan, k, t, p, r);
    }
  }

  /* ---- some set is kept ---- */

  lemma BetterTotal(s: set<Position>, plan: Plan, x: Position, y: Position, z: Position)
    requires x in s && y in s && z in s
    ensures x != y ==> Better(s, plan, x, y) || Better(s, plan, y, x)
    ensures Better(s, plan, x, y) && Better(s, plan, y, z) ==> Better(s, plan, x, z)
  {
    hide Level;
  }

  lemma {:induction false} Worst(s: set<Position>, plan: Plan, u: set<Position>) returns (w: Position)
    requires u <= s && u != {}
    ensures w in u && forall x :: x in u && x != w ==> Better(s, plan, x, w)
  {
    hide Better;
    w :| w in u;
    var rest := u - {w};
    if rest != {} {
      var v := Worst(s, plan, rest);
      BetterTotal(s, plan, v, w, w);
      if Better(s, plan, w, v) {
        w := v;
      } else {
        forall x | x in rest && x != v
          ensures Better(s, plan, x, w)
        {
          BetterTotal(s, plan, x, v, w);
        }
      }
    }
  }

  lemma {:induction false} KeptExists(s: set<Position>, plan: Plan, k: nat) returns (r: set<Position>)
    requires s != {}
    ensures IsKept(s, plan, k, r)
    decreases if k < |s| then |s| - k else 0
  {
    hide Protected, Better;
    var p := Protected(s, plan, ANCHORS);
    SubsetCard(Elems(p), s);
    if k <= |p| {
      var j := AnchorsFor(s, plan, k, ANCHORS);
      ProtectedPrefix(s, plan, j, ANCHORS);
      assert p[..k] == Protected(s, plan, j);
      r := Elems(p[..k]);
    } else if |s| <= k {
      r := s;
    } else {
      var more := KeptExists(s, plan, k + 1);
      var free := more - Elems(p);
      SubsetCard(more, free + Elems(p));
      var w := Worst(s, plan, free);
      r := more - {w};
    }
  }

  /* ---- positions that only the tail and the newest checkpoint protect ---- */

  /** Everything the plan knows beforehand lies below `base`. */
  ghost predicate Beyond(plan: Plan, base: nat) {
    && (forall i :: 0 <= i < |plan.imageSpans| ==> plan.imageSpans[i].0 <= base && plan.imageSpans[i].1 <= base)
    && (plan.restorePoint.Some? ==> plan.restorePoint.value <= base)
    && (plan.systemEdge.Some? ==> plan.systemEdge.value <= base)
    && (plan.stablePrefix.Some? ==> plan.stablePrefix.value <= base)
    && (plan.queryEdge.Some? ==> plan.queryEdge.value <= base)
  }

  lemma {:induction false} SecondIsSkipped(s: set<Position>, plan: Plan, n: nat)
    requires s != {} && 1 <= n <= 6 && forall i :: 1 <= i < 6 ==> Anchor(s, plan, i) == None
    ensures Protected(s, plan, n) == Protected(s, plan, 1)
  {
    hide Anchor;
    if n > 1 {
      SecondIsSkipped(s, plan, n - 1);
    }
  }

  lemma AtMostIs(s: set<Position>, bound: int, a: Position)
    requires a in s && a <= bound && forall x :: x in s && x <= bound ==> x <= a
    ensures AtMost(s, bound) == Some(a)
  {
  }

  lemma NoneAtMost(s: set<Position>, bound: int)
    requires forall x :: x in s ==> bound < x
    ensures AtMost(s, bound) == None
  {
  }

  lemma TwoAnchors(s: set<Position>, plan: Plan, base: nat, a: Position, c: Position)
    requires plan.promptEnd.None? && plan.ceiling.None? && plan.tailBackoff >= 1 && Beyond(plan, base)
    requires forall x :: x in s ==> base < x <= c
    requires a in s && c in s && a <= c - plan.tailBackoff && forall x :: x in s && x <= c - plan.tailBackoff ==> x <= a
    ensures Protected(s, plan, ANCHORS) == [a, c]
  {
    assert Newest(s) == c;
    AtMostIs(s, c - plan.tailBackoff, a);
    if plan.queryEdge.Some? {
      NoneAtMost(s, plan.queryEdge.value);
    }
    if plan.imageSpans != [] {
      NoneAtMost(s, plan.imageSpans[0].0);
    }
    hide AtMost, Newest;
    assert Anchor(s, plan, 0) == Some(a);
    assert forall i :: 1 <= i < 6 ==> Anchor(s, plan, i) == None;
    hide Anchor;
    assert Protected(s, plan, 0) == [];
    assert Protected(s, plan, 1) == [a];
    SecondIsSkipped(s, plan, 6);
    assert Anchor(s, plan, 6) == Some(c);
  }

  /** What `k` slots keep where `a` and `c` alone are protected. */
  ghost predicate KeptBeside(s: set<Position>, plan: Plan, k: nat, r: set<Position>, a: Position, c: Position) {
    && r <= s && |r| == Min(k, |s|)
    && if k == 1 then r == {a}
       else {a, c} <= r && forall x, y :: x in r - {a, c} && y in s - r ==> Better(s, plan, x, y)
  }

  lemma KeptWithTwo(s: set<Position>, plan: Plan, k: nat, r: set<Position>, a: Position, c: Position)
    requires s != {} && a != c && Protected(s, plan, ANCHORS) == [a, c] && k >= 1
    ensures IsKept(s, plan, k, r) <==> KeptBeside(s, plan, k, r, a, c)
  {
    hide Better, Protected;
    assert Elems([a, c]) == {a, c} && [a, c][..1] == [a] && Elems([a]) == {a} && [a, c][..2] == [a, c];
    assert Elems(Protected(s, plan, ANCHORS)) <= s;
    assert |{a, c}| == 2 && |{a}| == 1;
    SubsetCard({a, c}, s);
    if {a, c} <= r {
      SubsetCard({a, c}, r);
    }
    assert forall x :: x in r - {a, c} <==> x in r && x !in [a, c];
    assert forall y :: y in s - r <==> y in s && y !in r;
  }

  /* ---- a tail of at least two tokens ---- */

  function Grid(plan: Plan): (g: nat)
    ensures g >= 1
  {
    if plan.gridTokens < 1 then 1 else plan.gridTokens
  }

  /** Where the j-th grid cell of level 1 starts. */
  function Start(plan: Plan, j: nat): nat {
    2 * (Grid(plan) * j)
  }

  lemma StartRises(plan: Plan, i: nat, j: nat)
    requires i < j
    ensures Start(plan, i) + 2 <= Start(plan, j) && i <= Start(plan, i)
  {
    var g := Grid(plan);
    assert g * j == g * i + g * (j - i);
    assert g * (j - i) >= 1 && g * i >= i;
  }

  lemma CellBelow(plan: Plan, j: nat, y: Position)
    requires y < Start(plan, j)
    ensures CellAt(plan, 1, y) < j
  {
    var g := Grid(plan);
    var q := y / g;
    assert g * q <= y;
    assert Start(plan, j) == g * (2 * j);
    if q >= 2 * j {
      MulMonotone(g, 2 * j, q);
    }
    assert Coarse(q, 1) == q / 2 by {
      assert Coarse(q / 2, 0) == q / 2;
    }
  }

  lemma CellFrom(plan: Plan, j: nat, y: Position)
    requires Start(plan, j) <= y
    ensures j <= CellAt(plan, 1, y)
  {
    var g := Grid(plan);
    var q := y / g;
    assert y < g * (q + 1);
    assert Start(plan, j) == g * (2 * j);
    if q + 1 <= 2 * j {
      MulMonotone(g, q + 1, 2 * j);
    }
    assert Coarse(q, 1) == q / 2 by {
      assert Coarse(q / 2, 0) == q / 2;
    }
  }

  /** The starts of `n` cells of level 1, from the m-th on. */
  ghost function Starts(plan: Plan, m: nat, n: nat): (s: set<Position>)
    requires m >= 1
    ensures forall x :: x in s ==> exists j :: m <= j < m + n && x == Start(plan, j)
    decreases n
  {
    if n == 0 then {}
    else
      StartRises(plan, m + n - 1, m + n);
      Starts(plan, m, n - 1) + {Start(plan, m + n - 1)}
  }

  lemma StartsBelow(plan: Plan, m: nat, n: nat, x: Position)
    requires m >= 1 && x in Starts(plan, m, n)
    ensures m <= x < Start(plan, m + n)
  {
    hide Start, Starts;
    var j :| m <= j < m + n && x == Start(plan, j);
    StartRises(plan, j, m + n);
  }

  lemma StartIsNew(plan: Plan, m: nat, n: nat)
    requires m >= 1
    ensures Start(plan, m + n) !in Starts(plan, m, n)
  {
    hide Start, Starts;
    if Start(plan, m + n) in Starts(plan, m, n) {
      StartsBelow(plan, m, n, Start(plan, m + n));
    }
  }

  lemma {:induction false} StartsCount(plan: Plan, m: nat, n: nat)
    requires m >= 1
    ensures |Starts(plan, m, n)| == n
  {
    hide Start;
    if n > 0 {
      StartsCount(plan, m, n - 1);
      StartIsNew(plan, m, n - 1);
    }
  }

  /** A captured cell start ranks at level 1 or above. */
  lemma StartRanks(s: set<Position>, plan: Plan, j: nat, x: Position)
    requires x in s && x == Start(plan, j)
    ensures Level(s, plan, x) >= 1
  {
    hide Level, CellAt;
    forall y | y in s && y < x
      ensures CellAt(plan, 1, y) != CellAt(plan, 1, x)
    {
      CellBelow(plan, j, y);
      CellFrom(plan, j, x);
    }
    LevelIsFirst(s, plan, 1, x);
  }

  /** The position after one does not. */
  lemma NextRanksBelow(s: set<Position>, plan: Plan, j: nat, x: Position)
    requires x in s && x + 1 in s && x == Start(plan, j)
    ensures Level(s, plan, x + 1) < 1
  {
    hide Level, CellAt;
    StartRises(plan, j, j + 1);
    CellFrom(plan, j, x);
    CellBelow(plan, j + 1, x);
    CellFrom(plan, j, x + 1);
    CellBelow(plan, j + 1, x + 1);
    LevelIsFirst(s, plan, 1, x + 1);
  }

  /** How far the captures below reach. */
  function Reach(plan: Plan, k: nat, base: nat): int {
    Start(plan, base + k + 1) + 2 * plan.tailBackoff + 2
  }

  lemma ReachesInRange(s: set<Position>, plan: Plan, k: nat, base: nat)
    requires forall x :: x in s ==> base < x <= Reach(plan, k, base)
    requires Reach(plan, k, base) >= 0 && BitLength(Reach(plan, k, base)) <= FIRST_LEVEL && Beyond(plan, base)
    requires plan.ceiling.None?
    ensures InRange(s) && forall x :: x in s ==> Admits(plan, x)
  {
    forall x | x in s
      ensures BitLength(x) <= FIRST_LEVEL
    {
      BitLengthMonotone(x, Reach(plan, k, base));
    }
  }

  /** One slot: it keeps the checkpoint a tail before the newest, and what that is next was dropped. */
  lemma OneSlotErodes(plan: Plan, base: nat)
    requires plan.promptEnd.None? && plan.ceiling.None? && plan.tailBackoff >= 1 && Beyond(plan, base)
    requires BitLength(Reach(plan, 1, base)) <= FIRST_LEVEL
    ensures !Confluent(plan, 1)
  {
    var b := plan.tailBackoff;
    StartRises(plan, base + 1, base + 2);
    var a: Position := base + 1;
    var c, p := a + b, a + 2 * b;
    var s, t, r: set<Position> := {a, c}, {a}, {c};
    ReachesInRange(s + {p}, plan, 1, base);
    TwoAnchors(s, plan, base, a, c);
    TwoAnchors(s + {p}, plan, base, c, p);
    KeptWithTwo(s, plan, 1, t, a, c);
    KeptWithTwo(s + {p}, plan, 1, r, c, p);
    hide IsKept, Protected;
    NotConfluent(s, plan, 1, p, t, r);
  }

  lemma NotConfluent(s: set<Position>, plan: Plan, k: nat, p: Position, t: set<Position>, r: set<Position>)
    requires Captures(s, plan, p) && IsKept(s, plan, k, t) && IsKept(s + {p}, plan, k, r) && !(r <= t + {p})
    ensures !Confluent(plan, k)
  {
    assert !IsKept(t + {p}, plan, k, r);
  }

  /** More slots: they are taken by cell starts, the tail checkpoint and the newest, and the checkpoint
      next to the tail one is dropped, although the next capture moves the tail to it. */
  lemma SlotsErode(plan: Plan, k: nat, base: nat)
    requires plan.promptEnd.None? && plan.ceiling.None? && plan.tailBackoff >= 2 && Beyond(plan, base) && k >= 2
    requires BitLength(Reach(plan, k, base)) <= FIRST_LEVEL
    ensures !Confluent(plan, k)
  {
    var m, n := base + 1, base + k - 1;
    StartRises(plan, n, n + 1);
    StartRises(plan, n + 1, base + k + 1);
    assert Start(plan, n) + 2 * plan.tailBackoff + 2 <= Reach(plan, k, base);
    hide Start, Reach, Starts, Beyond, Confluent;
    var cells := Starts(plan, m, k - 2);
    var a: Position := Start(plan, n);
    forall x | x in cells
      ensures base < x < a
    {
      StartsBelow(plan, m, k - 2, x);
    }
    NextErodes(plan, k, base, cells, m, n, a);
  }

  lemma NextErodes(plan: Plan, k: nat, base: nat, cells: set<Position>, m: nat, n: nat, a: Position)
    requires plan.promptEnd.None? && plan.ceiling.None? && plan.tailBackoff >= 2 && Beyond(plan, base) && k >= 2
    requires m >= 1 && n == m + k - 2 && cells == Starts(plan, m, k - 2) && base < a == Start(plan, n)
    requires forall x :: x in cells ==> base < x < a
    requires a + 2 * plan.tailBackoff + 2 <= Reach(plan, k, base) && BitLength(Reach(plan, k, base)) <= FIRST_LEVEL
    ensures !Confluent(plan, k)
  {
    hide Start, Reach, Starts, Beyond, IsKept, Protected, Level;
    var d, c, p := a + 1, a + plan.tailBackoff, a + plan.tailBackoff + 1;
    var s: set<Position> := cells + {a, d, c};
    var t: set<Position> := cells + {a, c};
    ReachesInRange(s + {p}, plan, k, base);
    TwoAnchors(s, plan, base, a, c);
    TwoAnchors(s + {p}, plan, base, d, p);
    DropsNext(s, t, cells, plan, k, a, c, m, n);
    var r := KeptExists(s + {p}, plan, k);
    KeptWithTwo(s + {p}, plan, k, r, d, p);
    assert d in r - (t + {p});
    NotConfluent(s, plan, k, p, t, r);
  }

  lemma DropsNext(s: set<Position>, t: set<Position>, cells: set<Position>, plan: Plan, k: nat, a: Position,
                  c: Position, m: nat, n: nat)
    requires k >= 2 && m >= 1 && n == m + k - 2 && cells == Starts(plan, m, k - 2) && a == Start(plan, n) && a + 1 < c
    requires s == cells + {a, a + 1, c} && t == cells + {a, c}
    requires Protected(s, plan, ANCHORS) == [a, c]
    ensures IsKept(s, plan, k, t)
  {
    hide Level, Start, Starts, Protected, IsKept;
    StartsCount(plan, m, k - 2);
    forall x | x in cells
      ensures x < a
    {
      StartsBelow(plan, m, k - 2, x);
    }
    Counted(cells, a, a + 1, c);
    NextRanksBelow(s, plan, n, a);
    forall x | x in cells
      ensures Better(s, plan, x, a + 1)
    {
      var j :| m <= j < m + (k - 2) && x == Start(plan, j);
      StartRanks(s, plan, j, x);
    }
    hide Better;
    assert s - t == {a + 1};
    KeptWithTwo(s, plan, k, t, a, c);
  }

  lemma Counted(cells: set<Position>, a: Position, d: Position, c: Position)
    requires (forall x :: x in cells ==> x < a) && a < d < c
    ensures |cells + {a, c}| == |cells| + 2 && |cells + {a, d, c}| == |cells| + 3
  {
    assert cells + {a, c} == cells + {a} + {c};
    assert cells + {a, d, c} == cells + {a} + {d} + {c};
  }

  /* ---- a tail of one token ---- */

  /** The plan of a list that only its positions describe. */
  predicate Plain(plan: Plan) {
    && plan.promptEnd.None? && plan.ceiling.None? && plan.imageSpans == [] && plan.restorePoint.None?
    && plan.systemEdge.None? && plan.stablePrefix.None? && plan.queryEdge.None?
  }

  /** The tail checkpoint is then the one before the newest, and the capture makes that the newest:
      with two slots it is always among the kept ones. */
  lemma OneTokenTail(s: set<Position>, plan: Plan, k: nat, t: set<Position>, p: Position, r: set<Position>)
    requires Plain(plan) && plan.tailBackoff == 1 && k >= 2 && s != {} && InRange(s) && After(s, p)
    requires IsKept(s, plan, k, t) && IsKept(s + {p}, plan, k, r)
    ensures IsKept(t + {p}, plan, k, r)
  {
    hide IsKept, Protected, Better;
    KeptSubset(s, plan, k, t);
    if |s| <= k {
      SubsetCard(t, s);
    } else {
      var c := Newest(s);
      var a := BeforeNewest(s, c);
      assert c in s + {p};
      TwoAnchors(s, plan, 0, a, c);
      TwoAnchors(s + {p}, plan, 0, c, p);
      KeptWithTwo(s, plan, k, t, a, c);
      KeptWithTwo(s + {p}, plan, k, r, c, p);
      assert c in t + {p};
      hide KeptBeside;
      TwoAnchors(t + {p}, plan, 0, c, p);
      KeptWithTwo(t + {p}, plan, k, r, c, p);
      OneTokenRanks(s, plan, k, t, p, r, a, c);
    }
  }

  lemma BeforeNewest(s: set<Position>, c: Position) returns (a: Position)
    requires |s| >= 2 && c in s && forall x :: x in s ==> x <= c
    ensures a in s && a < c && forall x :: x in s && x != c ==> x <= a
  {
    if AtMost(s, c - 1).None? {
      SubsetCard(s, {c});
    }
    a := AtMost(s, c - 1).value;
  }

  lemma OneTokenRanks(s: set<Position>, plan: Plan, k: nat, t: set<Position>, p: Position, r: set<Position>,
                      a: Position, c: Position)
    requires k >= 2 && k < |s| && InRange(s) && After(s, p)
    requires a in s && c in s && a < c && forall x :: x in s && x != c ==> x <= a
    requires IsKept(s, plan, k, t) && Protected(s, plan, ANCHORS) == [a, c]
    requires KeptBeside(s, plan, k, t, a, c) && KeptBeside(s + {p}, plan, k, r, c, p)
    ensures KeptBeside(t + {p}, plan, k, r, c, p)
  {
    hide Level, Protected, Better, IsKept;
    SubsetCard(s, s + {p});
    forall y | y in r
      ensures y in t + {p}
    {
      Returned(s, plan, k, t, p, r, a, c, y);
    }
    SubsetCard(r, t + {p});
    if k == 2 {
      SubsetCard({c, p}, r);
    } else {
      assert |[a, c]| == 2;
      forall x, y | x in r - {c, p} && y in t + {p} - r
        ensures Better(t + {p}, plan, x, y)
      {
        BetterBefore(s, plan, p, x, y);
        BetterBefore(t, plan, p, x, y);
        assert IsProtected(s, plan, x) <==> x in {a, c};
        assert IsProtected(s, plan, y) <==> y in {a, c};
        if y == a {
          RankAboveNewest(s, plan, k, t, x, a);
        } else {
          StillBetter(s, plan, k, t, x, y);
        }
      }
    }
  }

  /** Something dropped before and kept after the capture would be better and worse than some other. */
  lemma Returned(s: set<Position>, plan: Plan, k: nat, t: set<Position>, p: Position, r: set<Position>, a: Position,
                 c: Position,
                 y: Position)
    requires k >= 2 && k < |s| && After(s, p) && a in s && c in s && a < c && y in r
    requires KeptBeside(s, plan, k, t, a, c) && KeptBeside(s + {p}, plan, k, r, c, p)
    ensures y in t + {p}
  {
    hide Better;
    SubsetCard(s, s + {p});
    assert |t - {a, c}| == k - 2 && |r - {c, p}| == k - 2 by {
      assert t == (t - {a, c}) + {a, c} && r == (r - {c, p}) + {c, p};
    }
    if y !in t + {p} {
      var x := Missing(t - {a, c}, r - {c, p}, y);
      BetterBefore(s, plan, p, y, x);
      Asymmetric(s, plan, x, y);
    }
  }

  lemma Missing(u: set<Position>, v: set<Position>, y: Position) returns (x: Position)
    requires |u| == |v| && y in v && y !in u
    ensures x in u && x !in v
  {
    if u <= v {
      SubsetCard(u, v - {y});
    }
    x :| x in u && x !in v;
  }

  lemma BetterBefore(s: set<Position>, plan: Plan, p: Position, x: Position, y: Position)
    requires After(s, p) && x in s && y in s
    ensures Better(s + {p}, plan, x, y) == Better(s, plan, x, y)
  {
    hide Level;
    LevelBefore(s, plan, p, x);
    LevelBefore(s, plan, p, y);
  }

  lemma StillBetter(s: set<Position>, plan: Plan, k: nat, t: set<Position>, x: Position, y: Position)
    requires s != {} && InRange(s) && IsKept(s, plan, k, t) && k > |Protected(s, plan, ANCHORS)| && x in t && y in t
    requires Better(s, plan, x, y) && !IsProtected(s, plan, y)
    ensures Better(t, plan, x, y)
  {
    hide Level;
    RankStays(s, plan, k, t, x);
    RankStays(s, plan, k, t, y);
  }

  /* ---- the exact conditions ---- */

  /** Without a prompt end and a ceiling: with one slot, or a tail that is not exactly one token,
      trimming each time is trimming once if and only if there is no tail. */
  lemma ConfluentExactly(plan: Plan, k: nat, base: nat)
    requires plan.promptEnd.None? && plan.ceiling.None? && k >= 1 && (k == 1 || plan.tailBackoff != 1)
    requires Beyond(plan, base) && (plan.tailBackoff > 0 ==> BitLength(Reach(plan, k, base)) <= FIRST_LEVEL)
    ensures Confluent(plan, k) <==> plan.tailBackoff <= 0
  {
    hide Confluent;
    if plan.tailBackoff <= 0 {
      SettledConfluent(plan, k);
    } else if k == 1 {
      OneSlotErodes(plan, base);
    } else {
      SlotsErode(plan, k, base);
    }
  }

  /** For a list that only its positions describe, and the two slots or more such a list has: if and
      only if the tail is at most one token. */
  lemma PlainConfluent(plan: Plan, k: nat)
    requires Plain(plan) && k >= 2 && (plan.tailBackoff > 0 ==> BitLength(Reach(plan, k, 0)) <= FIRST_LEVEL)
    ensures Confluent(plan, k) <==> plan.tailBackoff <= 1
  {
    if plan.tailBackoff == 1 {
      hide IsKept;
      forall s: set<Position>, p: Position, t: set<Position>, r: set<Position>
        | Captures(s, plan, p) && IsKept(s, plan, k, t) && IsKept(s + {p}, plan, k, r)
        ensures IsKept(t + {p}, plan, k, r)
      {
        OneTokenTail(s, plan, k, t, p, r);
      }
    } else {
      ConfluentExactly(plan, k, 0);
    }
  }

  /** The default plan of such a list, with two slots: of captures at 100, 150, 170 and 220, trimming
      each time leaves 100 and 220, trimming once 150 and 220. */
  lemma DefaultTailErodes()
    ensures var plan := Plan(None, Some(2), None, 64, None, None, None, None, None, [], 8192);
            var s: set<Position> := {100, 150, 170};
            && IsKept(s, plan, 2, {100, 170}) && IsKept({100, 170} + {220}, plan, 2, {100, 220})
            && IsKept(s + {220}, plan, 2, {150, 220}) && !IsKept({100, 170} + {220}, plan, 2, {150, 220})
  {
    var plan := Plan(None, Some(2), None, 64, None, None, None, None, None, [], 8192);
    DefaultTail({100, 150, 170}, plan, 100, 170);
    DefaultTail({100, 170} + {220}, plan, 100, 220);
    DefaultTail({100, 150, 170} + {220}, plan, 150, 220);
  }

  lemma DefaultTail(s: set<Position>, plan: Plan, a: Position, c: Position)
    requires Plain(plan) && plan.tailBackoff == 64 && a in s && c in s && a <= c - 64
    requires forall x :: x in s ==> x <= c && (x <= c - 64 ==> x <= a)
    ensures IsKept(s, plan, 2, {a, c}) && forall r :: IsKept(s, plan, 2, r) ==> r == {a, c}
  {
    TwoAnchors(s, plan, 0, a, c);
    hide Better, Protected;
    SubsetCard({a, c}, s);
    forall r: set<Position>
      ensures IsKept(s, plan, 2, r) <==> r == {a, c}
    {
      KeptWithTwo(s, plan, 2, r, a, c);
      if {a, c} <= r && |r| == 2 {
        SubsetCard({a, c}, r);
      }
    }
  }
}
