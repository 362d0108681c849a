/** Which recurrent checkpoints a conversation keeps: protected anchors first, then grid rank. */
module Retention {
  import opened Wrappers
  import opened GridLevels

  const FIRST_LEVEL: nat := 1073741824

  datatype Plan = Plan(budgetBytes: Option<int>, recordCount: Option<int>, promptEnd: Option<int>, tailBackoff: int,
                       restorePoint: Option<int>, systemEdge: Option<int>, stablePrefix: Option<int>,
                       queryEdge: Option<int>, ceiling: Option<int>, imageSpans: seq<(int, int)>, gridTokens: int)

  predicate Admits(plan: Plan, position: int) {
    && (plan.ceiling.Some? ==> position <= plan.ceiling.value)
    && !exists i :: 0 <= i < |plan.imageSpans| && plan.imageSpans[i].0 < position < plan.imageSpans[i].1
  }

  function Min(a: int, b: int): int {
    if a < b then a else b
  }

  /** A checkpoint is taken after at least one token. */
  type Position = x: int | x > 0 witness 1

  function Elems(s: seq<Position>): set<Position> {
    set x | x in s
  }

  /* ---- positions ---- */

  /** The newest position at or below `bound`. */
  function AtMost(s: set<Position>, bound: int): (r: Option<Position>)
    ensures r.Some? ==> r.value in s && r.value <= bound && forall x :: x in s && x <= bound ==> x <= r.value
    ensures r.None? ==> forall x :: x in s ==> bound < x
    decreases if bound > 0 then bound else 0
  {
    if bound <= 0 then None else if bound in s then Some(bound) else AtMost(s, bound - 1)
  }

  ghost function Newest(s: set<Position>): (r: Position)
    requires s != {}
    ensures r in s && forall x :: x in s ==> x <= r
  {
    var x :| x in s;
    var rest := s - {x};
    assert forall y :: y in s ==> y == x || y in rest;
    if rest == {} then x
    else
      var y := Newest(rest);
      if x < y then y else x
  }

  function CellOf(plan: Plan, x: Position): nat
  {
    x / (if plan.gridTokens < 1 then 1 else plan.gridTokens)
  }

  /** `_grid_levels` at one position: relative to the captured position before it. */
  function Level(s: set<Position>, plan: Plan, x: Position): int
    requires x in s
  {
    match AtMost(s, x - 1)
    case None => FIRST_LEVEL
    case Some(p) => if CellOf(plan, x) == CellOf(plan, p) then -1
                    else BitLength(Xor(CellOf(plan, x), CellOf(plan, p))) - 1
  }

  /** The order in which unprotected checkpoints are kept: coarser grid rank first, newer first. */
  predicate Better(s: set<Position>, plan: Plan, x: Position, y: Position)
    requires x in s && y in s
  {
    Level(s, plan, x) > Level(s, plan, y) || (Level(s, plan, x) == Level(s, plan, y) && x > y)
  }

  /* ---- protected anchors ---- */

  const ANCHORS: nat := 7

  ghost function Limit(s: set<Position>, plan: Plan): int
    requires s != {}
  {
    var end := if plan.promptEnd.Some? then plan.promptEnd.value else Newest(s);
    var limit := end - if plan.tailBackoff < 0 then 0 else plan.tailBackoff;
    if plan.ceiling.Some? then Min(limit, plan.ceiling.value) else limit
  }

  function Captured(s: set<Position>, x: Option<int>): Option<Position> {
    if x.Some? && x.value > 0 && x.value in s then Some(x.value) else None
  }

  /** The anchors in their order of protection, each only if it was captured. */
  ghost function Anchor(s: set<Position>, plan: Plan, i: nat): (r: Option<Position>)
    requires s != {}
    ensures r.Some? ==> r.value in s
  {
    match i
    case 0 => AtMost(s, Limit(s, plan))
    case 1 => if plan.imageSpans != [] then AtMost(s, plan.imageSpans[0].0) else None
    case 2 => Captured(s, plan.restorePoint)
    case 3 => Captured(s, plan.systemEdge)
    case 4 => Captured(s, plan.stablePrefix)
    case 5 => if plan.queryEdge.Some? then AtMost(s, plan.queryEdge.value) else None
    case _ => Some(Newest(s))
  }

  /** The first `n` anchors, each once. */
  ghost function Protected(s: set<Position>, plan: Plan, n: nat): (r: seq<Position>)
    requires s != {}
    ensures Elems(r) <= s && |Elems(r)| == |r| <= n
  {
    if n == 0 then []
    else
      var r := Protected(s, plan, n - 1);
      match Anchor(s, plan, n - 1)
      case None => r
      case Some(x) =>
        if x in r then r
        else
          assert Elems(r + [x]) == Elems(r) + {x};
          r + [x]
  }

  ghost predicate IsProtected(s: set<Position>, plan: Plan, x: Position)
    requires s != {}
  {
    x in Protected(s, plan, ANCHORS)
  }

  /* ---- what is kept ---- */

  /** What `k` slots keep of the captured positions `s`. */
  ghost predicate IsKept(s: set<Position>, plan: Plan, k: nat, r: set<Position>)
    requires s != {}
  {
    var p := Protected(s, plan, ANCHORS);
    && r <= s
    && |r| == Min(k, |s|)
    && if k <= |p| then r == Elems(p[..k])
       else Elems(p) <= r && forall x, y :: x in r && x !in p && y in s && y !in r ==> Better(s, plan, x, y)
  }

  lemma SubsetCard(a: set<Position>, b: set<Position>)
    requires a <= b
    ensures |a| <= |b|
    ensures |a| == |b| ==> a == b
  {
    assert b == a + (b - a);
    assert |b| == |a| + |b - a|;
    if |a| == |b| {
      assert b - a == {};
    }
  }

  lemma Asymmetric(s: set<Position>, plan: Plan, x: Position, y: Position)
    requires x in s && y in s
    ensures !Better(s, plan, x, y) || !Better(s, plan, y, x)
  {
  }

  /** The slots determine what is kept. */
  lemma KeptUnique(s: set<Position>, plan: Plan, k: nat, a: set<Position>, b: set<Position>)
    requires s != {} && IsKept(s, plan, k, a) && IsKept(s, plan, k, b)
    ensures a == b
  {
    if a != b && k > |Protected(s, plan, ANCHORS)| {
      if a <= b {
        SubsetCard(a, b);
      } else if b <= a {
        SubsetCard(b, a);
      } else {
        var x :| x in a && x !in b;
        var y :| y in b && y !in a;
        Asymmetric(s, plan, x, y);
      }
    }
  }

  /* ---- thinning does not change the ranks of what is left ---- */

  /** No position lies so far out that its cell index outgrows the level of a first checkpoint. */
  ghost predicate InRange(s: set<Position>) {
    forall x :: x in s ==> BitLength(x) <= FIRST_LEVEL
  }

  /** The level reached over the gap from `q` to `z`. */
  function Gap(plan: Plan, q: Position, z: Position): int
    requires q < z
  {
    Apart(CellOf(plan, q), CellOf(plan, z)) - 1
  }

  lemma LevelIsGap(s: set<Position>, plan: Plan, z: Position)
    requires z in s
    ensures AtMost(s, z - 1).Some? ==> Level(s, plan, z) == Gap(plan, AtMost(s, z - 1).value, z)
  {
    if AtMost(s, z - 1).Some? {
      var q := AtMost(s, z - 1).value;
      XorIsApart(CellOf(plan, z), CellOf(plan, q));
      ApartSym(CellOf(plan, z), CellOf(plan, q));
    }
  }

  lemma {:induction false} ApartSym(a: nat, b: nat)
    ensures Apart(a, b) == Apart(b, a)
    decreases a + b
  {
    if a != b {
      ApartSym(a / 2, b / 2);
    }
  }

  lemma DivMonotone(x: nat, y: nat, g: nat)
    requires x <= y && g > 0
    ensures x / g <= y / g
  {
    var a, b := x / g, y / g;
    assert g * a <= x && y < g * (b + 1);
    if b + 1 <= a {
      MulMonotone(g, b + 1, a);
    }
  }

  lemma MulMonotone(g: nat, x: nat, y: nat)
    requires x <= y
    ensures g * x <= g * y
  {
    assert g * y == g * x + g * (y - x);
  }

  lemma CellMonotone(plan: Plan, x: Position, y: Position)
    requires x <= y
    ensures CellOf(plan, x) <= CellOf(plan, y) <= y
  {
    var g := if plan.gridTokens < 1 then 1 else plan.gridTokens;
    DivMonotone(x, y, g);
    var c := y / g;
    assert y >= g * c;
    MulMonotone(c, 1, g);
  }

  /** A gap reaches the level of some checkpoint inside it, and at least that of its last one. */
  lemma {:induction false} GapIsMax(s: set<Position>, plan: Plan, q: Position, z: Position) returns (w: Position)
    requires q in s && z in s && q < z
    ensures w in s && q < w <= z && Level(s, plan, w) == Gap(plan, q, z)
    ensures Gap(plan, q, z) >= Level(s, plan, z)
    decreases z
  {
    LevelIsGap(s, plan, z);
    var u := AtMost(s, z - 1).value;
    if u == q {
      w := z;
    } else {
      CellMonotone(plan, q, u);
      CellMonotone(plan, u, z);
      ChainIsMax(CellOf(plan, q), CellOf(plan, u), CellOf(plan, z));
      w := GapIsMax(s, plan, q, u);
      if Gap(plan, q, u) < Gap(plan, u, z) {
        w := z;
      }
    }
  }

  lemma LevelBelowFirst(s: set<Position>, plan: Plan, z: Position)
    requires InRange(s) && z in s
    ensures Level(s, plan, z) <= FIRST_LEVEL
    ensures AtMost(s, z - 1).Some? ==> Level(s, plan, z) < FIRST_LEVEL
  {
    if AtMost(s, z - 1).Some? {
      var q := AtMost(s, z - 1).value;
      LevelIsGap(s, plan, z);
      CellMonotone(plan, q, z);
      ApartBelowBits(CellOf(plan, q), CellOf(plan, z));
      BitLengthMonotone(CellOf(plan, z), z);
    }
  }

  /** After thinning `s` to `t`, a remaining checkpoint ranks as before, or as a dropped one did that
      lay between it and the checkpoint now before it. */
  lemma ThinnedLevel(s: set<Position>, t: set<Position>, plan: Plan, z: Position) returns (w: Position)
    requires InRange(s) && t <= s && z in t
    ensures w in s && w <= z && Level(t, plan, z) == Level(s, plan, w) && Level(t, plan, z) >= Level(s, plan, z)
    ensures w == z || (w !in t && forall x :: x in t && x < z ==> x < w)
  {
    LevelIsGap(t, plan, z);
    if AtMost(t, z - 1).Some? {
      w := GapIsMax(s, plan, AtMost(t, z - 1).value, z);
    } else {
      LevelBelowFirst(s, plan, z);
      w := Oldest(s);
      assert AtMost(s, w - 1).None?;
    }
  }

  lemma Oldest(s: set<Position>) returns (w: Position)
    requires s != {}
    ensures w in s && forall x :: x in s ==> w <= x
  {
    w :| w in s;
    var rest := s - {w};
    assert forall x :: x in s ==> x == w || x in rest;
    if rest != {} {
      var v := Oldest(rest);
      w := if v < w then v else w;
    }
  }

  /* ---- one more capture ---- */

  /** `p` was captured after everything in `s`. */
  predicate After(s: set<Position>, p: Position) {
    forall x :: x in s ==> x < p
  }

  lemma AtMostGrown(s: set<Position>, t: set<Position>, p: Position, bound: int)
    requires t <= s && After(s, p) && (AtMost(s, bound).Some? ==> AtMost(s, bound).value in t)
    ensures AtMost(t + {p}, bound) == AtMost(s + {p}, bound) == if p <= bound then Some(p) else AtMost(s, bound)
  {
    var a, b, c := AtMost(s, bound), AtMost(t + {p}, bound), AtMost(s + {p}, bound);
    assert p in t + {p} && p in s + {p};
    assert a.Some? ==> a.value in t + {p} && a.value in s + {p};
    assert b.Some? ==> b.value in s + {p};
  }

  lemma NewestGrown(s: set<Position>, p: Position)
    requires After(s, p)
    ensures Newest(s + {p}) == p
  {
    assert p in s + {p};
  }

  /** One more capture at `p` does not move the limit off a checkpoint: the prompt end is known, or no
      tail is kept and the limit is the newest checkpoint. */
  predicate Settled(plan: Plan, p: Position) {
    plan.promptEnd.Some? || (plan.tailBackoff <= 0 && (plan.ceiling.Some? ==> p <= plan.ceiling.value))
  }

  /** The prompt end is known, or no tail is kept before it. */
  predicate NoMovingTail(plan: Plan) {
    plan.promptEnd.Some? || plan.tailBackoff <= 0
  }

  lemma AdmittedSettled(plan: Plan, p: Position)
    requires NoMovingTail(plan) && Admits(plan, p)
    ensures Settled(plan, p)
  {
  }

  lemma LimitFixed(s: set<Position>, t: set<Position>, plan: Plan)
    requires s != {} && t != {} && plan.promptEnd.Some?
    ensures Limit(s, plan) == Limit(t, plan)
  {
  }

  lemma LimitIsNewest(s: set<Position>, plan: Plan, p: Position)
    requires s != {} && plan.promptEnd.None? && Settled(plan, p) && forall x :: x in s ==> x <= p
    ensures Anchor(s, plan, 0) == Some(Newest(s))
  {
    assert Limit(s, plan) == Newest(s);
  }

  /** Where the limit is settled, a capture moves an anchor only onto itself, and only an anchor at the
      newest checkpoint or one not captured before; thinning that kept the anchor does not show. */
  lemma AnchorGrown(s: set<Position>, t: set<Position>, plan: Plan, p: Position, i: nat)
    requires s != {} && t <= s && After(s, p) && Settled(plan, p)
    ensures var a, b := Anchor(s, plan, i), Anchor(s + {p}, plan, i);
            b == a || (b == Some(p) && (a == None || a == Some(Newest(s))))
    ensures (Anchor(s, plan, i).Some? ==> Anchor(s, plan, i).value in t) ==>
              Anchor(t + {p}, plan, i) == Anchor(s + {p}, plan, i)
  {
    hide Limit, AtMost, Newest;
    NewestGrown(s, p);
    NewestGrown(t, p);
    if i == 0 && plan.promptEnd.None? {
      LimitIsNewest(s, plan, p);
      LimitIsNewest(s + {p}, plan, p);
      LimitIsNewest(t + {p}, plan, p);
    } else if i == 0 {
      LimitFixed(s, s + {p}, plan);
      LimitFixed(s, t + {p}, plan);
      AnchorBoundGrown(s, t, plan, p, i, Limit(s, plan));
    } else if i == 1 && plan.imageSpans != [] {
      AnchorBoundGrown(s, t, plan, p, i, plan.imageSpans[0].0);
    } else if i == 5 && plan.queryEdge.Some? {
      AnchorBoundGrown(s, t, plan, p, i, plan.queryEdge.value);
    }
  }

  lemma AnchorBoundGrown(s: set<Position>, t: set<Position>, plan: Plan, p: Position, i: nat, bound: int)
    requires s != {} && t <= s && After(s, p)
    requires Anchor(s, plan, i) == AtMost(s, bound) && Anchor(s + {p}, plan, i) == AtMost(s + {p}, bound)
    requires Anchor(t + {p}, plan, i) == AtMost(t + {p}, bound)
    ensures var a, b := Anchor(s, plan, i), Anchor(s + {p}, plan, i);
            b == a || (b == Some(p) && (a == None || a == Some(Newest(s))))
    ensures (Anchor(s, plan, i).Some? ==> Anchor(s, plan, i).value in t) ==>
              Anchor(t + {p}, plan, i) == Anchor(s + {p}, plan, i)
  {
    hide Anchor;
    AtMostGrown(s, s, p, bound);
    if AtMost(s, bound).Some? ==> AtMost(s, bound).value in t {
      AtMostGrown(s, t, p, bound);
    }
  }

  lemma {:induction false} AnchorsAreProtected(s: set<Position>, plan: Plan, n: nat, i: nat)
    requires s != {} && i < n && Anchor(s, plan, i).Some?
    ensures Anchor(s, plan, i).value in Protected(s, plan, n)
  {
    hide Anchor;
    if i < n - 1 {
      AnchorsAreProtected(s, plan, n - 1, i);
    }
  }

  lemma {:induction false} ProtectedPrefix(s: set<Position>, plan: Plan, j: nat, n: nat)
    requires s != {} && j <= n
    ensures Protected(s, plan, j) <= Protected(s, plan, n)
  {
    hide Anchor;
    if j < n {
      ProtectedPrefix(s, plan, j, n - 1);
    }
  }

  /** Any number of protected positions is reached by some number of anchors. */
  lemma {:induction false} AnchorsFor(s: set<Position>, plan: Plan, k: nat, n: nat) returns (j: nat)
    requires s != {} && k <= |Protected(s, plan, n)|
    ensures j <= n && |Protected(s, plan, j)| == k
  {
    hide Anchor;
    j := n;
    if k < |Protected(s, plan, n)| {
      j := AnchorsFor(s, plan, k, n - 1);
    }
  }

  lemma {:induction false} ProtectedGrown(s: set<Position>, t: set<Position>, plan: Plan, p: Position, n: nat)
    requires s != {} && t <= s && After(s, p) && Settled(plan, p) && Elems(Protected(s, plan, n)) <= t
    ensures Protected(t + {p}, plan, n) == Protected(s + {p}, plan, n)
  {
    hide Anchor, Newest, Settled;
    if n > 0 {
      ProtectedPrefix(s, plan, n - 1, n);
      ProtectedGrown(s, t, plan, p, n - 1);
      AnchorGrown(s, t, plan, p, n - 1);
      if Anchor(s, plan, n - 1).Some? {
        AnchorsAreProtected(s, plan, n, n - 1);
      }
    }
  }

  /** Only the newest checkpoint can lose its protection, and then to the new capture. */
  lemma ProtectedMoves(s: set<Position>, plan: Plan, p: Position, n: nat)
    requires s != {} && After(s, p) && Settled(plan, p)
    ensures var a, b := Protected(s, plan, n), Protected(s + {p}, plan, n);
            && (forall x :: x in b && x != p ==> x in a)
            && (forall x :: x in a && x != Newest(s) ==> x in b)
            && (Newest(s) in a ==> Newest(s) in b || p in b)
  {
    hide Anchor, Newest, Protected;
    forall x: Position
      ensures x in Protected(s + {p}, plan, n) && x != p ==> x in Protected(s, plan, n)
      ensures x in Protected(s, plan, n) ==>
                x in Protected(s + {p}, plan, n) || (x == Newest(s) && p in Protected(s + {p}, plan, n))
    {
      if x in Protected(s + {p}, plan, n) && x != p {
        var i := AnchorAt(s + {p}, plan, n, x);
        AnchorGrown(s, s, plan, p, i);
        AnchorsAreProtected(s, plan, n, i);
      }
      if x in Protected(s, plan, n) {
        var i := AnchorAt(s, plan, n, x);
        AnchorGrown(s, s, plan, p, i);
        AnchorsAreProtected(s + {p}, plan, n, i);
      }
    }
  }

  lemma {:induction false} AnchorAt(s: set<Position>, plan: Plan, n: nat, x: Position) returns (i: nat)
    requires s != {} && x in Protected(s, plan, n)
    ensures i < n && Anchor(s, plan, i) == Some(x)
  {
    hide Anchor;
    i := n - 1;
    if Anchor(s, plan, i) != Some(x) {
      i := AnchorAt(s, plan, n - 1, x);
    }
  }

  lemma ProtectedCount(s: set<Position>, plan: Plan, p: Position, n: nat)
    requires s != {} && After(s, p) && Settled(plan, p)
    ensures |Protected(s, plan, n)| <= |Protected(s + {p}, plan, n)|
  {
    ProtectedMoves(s, plan, p, n);
    var a, b, c := Elems(Protected(s, plan, n)), Elems(Protected(s + {p}, plan, n)), Newest(s);
    if c in a && c !in b {
      assert |a - {c} + {p}| == |a|;
      SubsetCard(a - {c} + {p}, b);
    } else {
      SubsetCard(a, b);
    }
  }

  /** The ranks among the positions before a capture do not depend on it. */
  lemma LevelBefore(s: set<Position>, plan: Plan, p: Position, x: Position)
    requires After(s, p) && x in s
    ensures Level(s + {p}, plan, x) == Level(s, plan, x)
  {
    var a, b := AtMost(s, x - 1), AtMost(s + {p}, x - 1);
    assert a.Some? ==> a.value in s + {p};
    assert a == b;
  }

  /** Thinning leaves the rank of every unprotected checkpoint it keeps. */
  lemma RankStays(s: set<Position>, plan: Plan, k: nat, t: set<Position>, z: Position)
    requires s != {} && InRange(s) && IsKept(s, plan, k, t) && k > |Protected(s, plan, ANCHORS)| && z in t
    ensures !IsProtected(s, plan, z) ==> Level(t, plan, z) == Level(s, plan, z)
    ensures Level(t, plan, z) >= Level(s, plan, z)
  {
    var w := ThinnedLevel(s, t, plan, z);
    if !IsProtected(s, plan, z) && w != z {
      assert Better(s, plan, z, w);
    }
  }

  /** An unprotected checkpoint that outranks a later one, the newest, still does after thinning. */
  lemma RankAboveNewest(s: set<Position>, plan: Plan, k: nat, t: set<Position>, x: Position, c: Position)
    requires s != {} && InRange(s) && IsKept(s, plan, k, t) && k > |Protected(s, plan, ANCHORS)| && x in t && c in t
    requires x < c
    requires !IsProtected(s, plan, x) && Better(s, plan, x, c)
    ensures Better(t, plan, x, c)
  {
    RankStays(s, plan, k, t, x);
    var w := ThinnedLevel(s, t, plan, c);
    if w != c {
      assert x < w && Better(s, plan, x, w);
    }
  }

  /** The order of two kept checkpoints, the better one unprotected before and after the capture. */
  lemma OrderStays(s: set<Position>, plan: Plan, k: nat, t: set<Position>, p: Position, x: Position, y: Position)
    requires s != {} && InRange(s) && IsKept(s, plan, k, t) && k > |Protected(s, plan, ANCHORS)|
    requires After(s, p) && Settled(plan, p) && x in t && y in t && x != y
    requires !IsProtected(s + {p}, plan, x) && !IsProtected(s + {p}, plan, y)
    requires Better(s + {p}, plan, x, y)
    ensures Better(t + {p}, plan, x, y)
  {
    hide IsKept;
    hide Protected, Level;
    ProtectedMoves(s, plan, p, ANCHORS);
    KeptSubset(s, plan, k, t);
    LevelBefore(s, plan, p, x);
    LevelBefore(s, plan, p, y);
    LevelBefore(t, plan, p, x);
    LevelBefore(t, plan, p, y);
    RankStays(s, plan, k, t, x);
    RankStays(s, plan, k, t, y);
    if IsProtected(s, plan, y) {
      assert y == Newest(s);
      assert !IsProtected(s, plan, x);
      RankAboveNewest(s, plan, k, t, x, y);
    }
  }

  lemma KeptSubset(s: set<Position>, plan: Plan, k: nat, t: set<Position>)
    requires s != {} && IsKept(s, plan, k, t)
    ensures t <= s && |t| == Min(k, |s|)
  {
  }

  /** If something dropped earlier were kept now, only the then newest could have made room for it. */
  lemma OnlyNewestGoes(s: set<Position>, plan: Plan, k: nat, t: set<Position>, p: Position, r: set<Position>,
                       y: Position, x: Position)
    requires s != {} && IsKept(s, plan, k, t) && k > |Protected(s, plan, ANCHORS)|
    requires After(s, p) && Settled(plan, p) && IsKept(s + {p}, plan, k, r) && k > |Protected(s + {p}, plan, ANCHORS)|
    requires y in r && y != p && y !in t && x in t && x !in r
    ensures x == Newest(s)
  {
    hide Protected, Level;
    ProtectedMoves(s, plan, p, ANCHORS);
    LevelBefore(s, plan, p, y);
    LevelBefore(s, plan, p, x);
    Asymmetric(s, plan, x, y);
    assert Better(s + {p}, plan, y, x) == Better(s, plan, y, x);
  }

  lemma Swapped(s: set<Position>, t: set<Position>, r: set<Position>, p: Position, y: Position, c: Position)
    requires t <= s && r <= s + {p} && p !in s && p in r && y in r && y !in t && y != p && |t| == |r|
    ensures exists x :: x in t && x !in r && x != c
  {
    assert |r - {p, y}| == |r| - 2;
    if forall x :: x in t && x !in r ==> x == c {
      SubsetCard(t, r - {p, y} + {c});
    }
  }

  /** What is kept after the capture was kept before it. */
  lemma NothingReturns(s: set<Position>, plan: Plan, k: nat, t: set<Position>, p: Position, r: set<Position>,
                       y: Position)
    requires s != {} && IsKept(s, plan, k, t) && k > |Protected(s, plan, ANCHORS)|
    requires After(s, p) && Settled(plan, p) && IsKept(s + {p}, plan, k, r) && k > |Protected(s + {p}, plan, ANCHORS)|
    requires y in r && y != p
    ensures y in t
  {
    hide Protected, Better, Newest;
    NewestIsKept(s, plan, p, r);
    if |s| <= k {
      SubsetCard(t, s);
    } else if y !in t {
      SubsetCard(s, s + {p});
      Swapped(s, t, r, p, y, Newest(s));
      var x :| x in t && x !in r && x != Newest(s);
      OnlyNewestGoes(s, plan, k, t, p, r, y, x);
    }
  }

  lemma NewestIsKept(s: set<Position>, plan: Plan, p: Position, r: set<Position>)
    requires s != {} && After(s, p) && Elems(Protected(s + {p}, plan, ANCHORS)) <= r
    ensures p in r
  {
    NewestGrown(s, p);
    AnchorsAreProtected(s + {p}, plan, ANCHORS, 6);
  }

  /** Thinning before a capture does not change what is kept after it. */
  lemma ThinFirst(s: set<Position>, plan: Plan, k: nat, t: set<Position>, p: Position, r: set<Position>)
    requires s != {} && InRange(s) && After(s, p) && Settled(plan, p)
    requires IsKept(s, plan, k, t) && IsKept(s + {p}, plan, k, r)
    ensures IsKept(t + {p}, plan, k, r)
  {
    if k <= |Protected(s, plan, ANCHORS)| {
      ThinToAnchors(s, plan, k, t, p, r);
    } else {
      ThinToRanks(s, plan, k, t, p, r);
    }
  }

  lemma ThinToAnchors(s: set<Position>, plan: Plan, k: nat, t: set<Position>, p: Position, r: set<Position>)
    requires s != {} && After(s, p) && Settled(plan, p) && k <= |Protected(s, plan, ANCHORS)|
    requires IsKept(s, plan, k, t) && IsKept(s + {p}, plan, k, r)
    ensures IsKept(t + {p}, plan, k, r)
  {
    hide Anchor, Protected;
    var j := AnchorsFor(s, plan, k, ANCHORS);
    ProtectedPrefix(s, plan, j, ANCHORS);
    assert Protected(s, plan, ANCHORS)[..k] == Protected(s, plan, j);
    ProtectedGrown(s, t, plan, p, j);
    ProtectedCount(s, plan, p, j);
    ProtectedPrefix(s + {p}, plan, j, ANCHORS);
    ProtectedPrefix(t + {p}, plan, j, ANCHORS);
    var a, b := Protected(s + {p}, plan, ANCHORS), Protected(t + {p}, plan, ANCHORS);
    assert a[..k] == Protected(s + {p}, plan, j)[..k] == b[..k];
    SubsetCard(r, t + {p});
  }

  lemma ThinToRanks(s: set<Position>, plan: Plan, k: nat, t: set<Position>, p: Position, r: set<Position>)
    requires s != {} && InRange(s) && After(s, p) && Settled(plan, p) && k > |Protected(s, plan, ANCHORS)|
    requires IsKept(s, plan, k, t) && IsKept(s + {p}, plan, k, r)
    ensures IsKept(t + {p}, plan, k, r)
  {
    hide Anchor, Protected, Better;
    ProtectedGrown(s, t, plan, p, ANCHORS);
    var a := Protected(s + {p}, plan, ANCHORS);
    assert Protected(t + {p}, plan, ANCHORS) == a;
    if k <= |a| {
      assert r <= t + {p};
      SubsetCard(r, t + {p});
    } else {
      forall y | y in r
        ensures y in t + {p}
      {
        if y != p {
          NothingReturns(s, plan, k, t, p, r, y);
        }
      }
      SubsetCard(r, t + {p});
      forall x, y | x in r && x !in a && y in t + {p} && y !in r
        ensures Better(t + {p}, plan, x, y)
      {
        NewestIsKept(s, plan, p, r);
        ProtectedHasNewest(s, plan, p);
        OrderStays(s, plan, k, t, p, x, y);
      }
    }
  }

  lemma ProtectedHasNewest(s: set<Position>, plan: Plan, p: Position)
    requires s != {} && After(s, p)
    ensures p in Protected(s + {p}, plan, ANCHORS)
  {
    NewestGrown(s, p);
    AnchorsAreProtected(s + {p}, plan, ANCHORS, 6);
  }

  /* ---- what the slots are for ---- */

  lemma InPrefix(p: seq<Position>, q: seq<Position>, k: nat, x: Position)
    requires q <= p && x in q && |q| <= k <= |p|
    ensures x in p[..k]
  {
    var i :| 0 <= i < |q| && q[i] == x;
    assert p[..k][i] == x;
  }

  /** What comes before an element left out by a prefix holds all of that prefix. */
  lemma PrefixBefore(p: seq<Position>, before: seq<Position>, after: seq<Position>, k: nat, x: Position, y: Position)
    requires before <= p && after <= p && |after| <= |before| + 1 && k <= |p|
    requires x in after && x !in p[..k] && y in p[..k]
    ensures y in before
  {
    if |after| <= k {
      InPrefix(p, after, k, x);
    }
    var i :| 0 <= i < k && p[..k][i] == y;
    assert before[i] == p[i] == y;
  }

  lemma AddsOne(s: set<Position>, plan: Plan, i: nat)
    requires s != {}
    ensures |Protected(s, plan, i + 1)| <= |Protected(s, plan, i)| + 1
  {
    hide Anchor;
  }

  /** A protected position and the anchors before its own. */
  lemma ProtectedBy(s: set<Position>, plan: Plan, k: nat, i: nat, x: Position, y: Position)
    requires s != {} && i < ANCHORS && Anchor(s, plan, i) == Some(x) && k <= |Protected(s, plan, ANCHORS)|
    requires x !in Protected(s, plan, ANCHORS)[..k] && y in Protected(s, plan, ANCHORS)[..k]
    ensures exists j :: 0 <= j < i && Anchor(s, plan, j) == Some(y)
  {
    hide Anchor, Protected;
    AddsOne(s, plan, i);
    ProtectedPrefix(s, plan, i, ANCHORS);
    ProtectedPrefix(s, plan, i + 1, ANCHORS);
    AnchorsAreProtected(s, plan, i + 1, i);
    PrefixBefore(Protected(s, plan, ANCHORS), Protected(s, plan, i), Protected(s, plan, i + 1), k, x, y);
    var j := AnchorAt(s, plan, i, y);
  }

  /** The newest checkpoint at or below an edge, and the one at a place, as sets. */
  lemma EdgeSet(s: set<Position>, edge: Option<int>, u: set<Position>)
    requires u == set x | x in s && edge.Some? && x <= edge.value && forall y :: y in s && y <= edge.value ==> y <= x
    ensures forall x :: x in u <==> edge.Some? && AtMost(s, edge.value) == Some(x)
  {
  }

  lemma PlaceSet(s: set<Position>, at: Option<int>, u: set<Position>)
    requires u == set x | x in s && at.Some? && x == at.value
    ensures forall x :: x in u <==> Captured(s, at) == Some(x)
  {
  }

  /** The seven positions that go first, if they were captured, in their order: the newest checkpoint at or
      below the tail limit, the newest at or below the first image, the restore point, the system edge,
      the stable prefix, the newest at or below the query edge, and the newest of all. Seven slots keep
      every one of them; fewer keep nothing in place of one but those before it. */
  lemma AnchorsFirst(s: set<Position>, plan: Plan, k: nat, r: set<Position>, newest: Position, limit: int,
                     first: seq<set<Position>>)
    requires newest in s && (forall x :: x in s ==> x <= newest) && IsKept(s, plan, k, r)
    requires var end := if plan.promptEnd.Some? then plan.promptEnd.value else newest;
             var tail := end - if plan.tailBackoff < 0 then 0 else plan.tailBackoff;
             limit == if plan.ceiling.Some? && plan.ceiling.value < tail then plan.ceiling.value else tail
    requires first ==
             [set x | x in s && x <= limit && forall y :: y in s && y <= limit ==> y <= x,
              set x | x in s && plan.imageSpans != [] && x <= plan.imageSpans[0].0
                      && forall y :: y in s && y <= plan.imageSpans[0].0 ==> y <= x,
              set x | x in s && plan.restorePoint.Some? && x == plan.restorePoint.value,
              set x | x in s && plan.systemEdge.Some? && x == plan.systemEdge.value,
              set x | x in s && plan.stablePrefix.Some? && x == plan.stablePrefix.value,
              set x | x in s && plan.queryEdge.Some? && x <= plan.queryEdge.value
                      && forall y :: y in s && y <= plan.queryEdge.value ==> y <= x,
              {newest}]
    ensures k >= 7 ==> forall i, x :: 0 <= i < 7 && x in first[i] ==> x in r
    ensures forall i, x, y :: 0 <= i < 7 && x in first[i] && x !in r && y in r ==>
              exists j :: 0 <= j < i && y in first[j]
  {
    FirstAreAnchors(s, plan, newest, limit, first);
    AnchorsInOrder(s, plan, k, r, first);
  }

  lemma AnchorsInOrder(s: set<Position>, plan: Plan, k: nat, r: set<Position>, first: seq<set<Position>>)
    requires s != {} && IsKept(s, plan, k, r) && |first| == 7
    requires forall i :: 0 <= i < 7 ==> forall x :: x in first[i] <==> Anchor(s, plan, i) == Some(x)
    ensures k >= 7 ==> forall i, x :: 0 <= i < 7 && x in first[i] ==> x in r
    ensures forall i, x, y :: 0 <= i < 7 && x in first[i] && x !in r && y in r ==>
              exists j :: 0 <= j < i && y in first[j]
  {
    hide Anchor, Protected, Better;
    forall i, x | 0 <= i < 7 && x in first[i]
      ensures x in Protected(s, plan, ANCHORS) && (k >= 7 ==> x in r)
    {
      AnchorsAreProtected(s, plan, ANCHORS, i);
      assert k >= 7 ==> Elems(Protected(s, plan, ANCHORS)) <= r by {
        var p := Protected(s, plan, ANCHORS);
        assert k == |p| ==> p[..k] == p;
      }
    }
    forall i, x, y | 0 <= i < 7 && x in first[i] && x !in r && y in r
      ensures exists j :: 0 <= j < i && y in first[j]
    {
      ProtectedBy(s, plan, k, i, x, y);
    }
  }

  lemma FirstAreAnchors(s: set<Position>, plan: Plan, newest: Position, limit: int, first: seq<set<Position>>)
    requires newest in s && (forall x :: x in s ==> x <= newest)
    requires var end := if plan.promptEnd.Some? then plan.promptEnd.value else newest;
             var tail := end - if plan.tailBackoff < 0 then 0 else plan.tailBackoff;
             limit == if plan.ceiling.Some? && plan.ceiling.value < tail then plan.ceiling.value else tail
    requires first ==
             [set x | x in s && x <= limit && forall y :: y in s && y <= limit ==> y <= x,
              set x | x in s && plan.imageSpans != [] && x <= plan.imageSpans[0].0
                      && forall y :: y in s && y <= plan.imageSpans[0].0 ==> y <= x,
              set x | x in s && plan.restorePoint.Some? && x == plan.restorePoint.value,
              set x | x in s && plan.systemEdge.Some? && x == plan.systemEdge.value,
              set x | x in s && plan.stablePrefix.Some? && x == plan.stablePrefix.value,
              set x | x in s && plan.queryEdge.Some? && x <= plan.queryEdge.value
                      && forall y :: y in s && y <= plan.queryEdge.value ==> y <= x,
              {newest}]
    ensures forall i :: 0 <= i < 7 ==> forall x :: x in first[i] <==> Anchor(s, plan, i) == Some(x)
  {
    assert Newest(s) == newest && Limit(s, plan) == limit;
    hide AtMost, Limit, Newest, Captured;
    EdgeSet(s, Some(limit), first[0]);
    EdgeSet(s, if plan.imageSpans != [] then Some(plan.imageSpans[0].0) else None, first[1]);
    PlaceSet(s, plan.restorePoint, first[2]);
    PlaceSet(s, plan.systemEdge, first[3]);
    PlaceSet(s, plan.stablePrefix, first[4]);
    EdgeSet(s, plan.queryEdge, first[5]);
  }

  /* ---- coverage at the resolution the budget affords ---- */

  /** The level-`level` cell a position lies in. */
  function CellAt(plan: Plan, level: nat, x: Position): nat {
    Coarse(CellOf(plan, x), level)
  }

  function CellWidth(plan: Plan, level: nat): nat {
    (if plan.gridTokens < 1 then 1 else plan.gridTokens) * Pow2(level)
  }

  /** A level is reached exactly by the first captured position of a cell of that level. */
  lemma LevelIsFirst(s: set<Position>, plan: Plan, level: nat, x: Position)
    requires x in s && level <= FIRST_LEVEL
    ensures Level(s, plan, x) >= level <==> forall y :: y in s && y < x ==>
              CellAt(plan, level, y) != CellAt(plan, level, x)
  {
    LevelIsGap(s, plan, x);
    if AtMost(s, x - 1).Some? {
      var u := AtMost(s, x - 1).value;
      ApartIsCoarse(CellOf(plan, u), CellOf(plan, x), level);
      forall y | y in s && y < x
        ensures CellAt(plan, level, y) <= CellAt(plan, level, u) <= CellAt(plan, level, x)
      {
        CellMonotone(plan, y, u);
        CellMonotone(plan, u, x);
        CoarseMonotone(CellOf(plan, y), CellOf(plan, u), level);
        CoarseMonotone(CellOf(plan, u), CellOf(plan, x), level);
      }
    }
  }

  /** The first captured position of its cell of a level. */
  ghost predicate OpensCell(s: set<Position>, plan: Plan, level: nat, x: Position) {
    forall y :: y in s && y < x ==> Coarse(CellOf(plan, y), level) != Coarse(CellOf(plan, x), level)
  }

  /** An unprotected checkpoint is kept before one that is dropped because it opens a cell at a level at
      which the other does not, or because both open cells at the same levels and it is newer. */
  lemma RankDecides(s: set<Position>, plan: Plan, k: nat, r: set<Position>, x: Position, y: Position)
    requires s != {} && InRange(s) && IsKept(s, plan, k, r) && k > |Protected(s, plan, ANCHORS)|
    requires x in r && !IsProtected(s, plan, x) && y in s && y !in r
    ensures || (exists level: nat ::
                  level <= FIRST_LEVEL && OpensCell(s, plan, level, x) && !OpensCell(s, plan, level, y))
            || (x > y && forall level: nat :: level <= FIRST_LEVEL ==>
                  (OpensCell(s, plan, level, x) <==> OpensCell(s, plan, level, y)))
  {
    hide Protected;
    assert Better(s, plan, x, y);
    LevelBelowFirst(s, plan, x);
    LevelBelowFirst(s, plan, y);
    hide Level;
    forall level: nat | level <= FIRST_LEVEL
      ensures OpensCell(s, plan, level, x) <==> Level(s, plan, x) >= level
      ensures OpensCell(s, plan, level, y) <==> Level(s, plan, y) >= level
    {
      LevelIsFirst(s, plan, level, x);
      LevelIsFirst(s, plan, level, y);
    }
    hide OpensCell;
    if Level(s, plan, x) > Level(s, plan, y) {
      var level: nat := Level(s, plan, x);
      assert OpensCell(s, plan, level, x) && !OpensCell(s, plan, level, y);
    }
  }

  ghost function Firsts(s: set<Position>, plan: Plan, level: nat): set<Position> {
    set x | x in s && Level(s, plan, x) >= level
  }

  function Cells(s: set<Position>, plan: Plan, level: nat): set<nat> {
    set x | x in s :: CellAt(plan, level, x)
  }

  lemma {:induction false} OnePerCell(f: set<Position>, plan: Plan, level: nat, cells: set<nat>)
    requires forall x :: x in f ==> CellAt(plan, level, x) in cells
    requires forall x, y :: x in f && y in f && CellAt(plan, level, x) == CellAt(plan, level, y) ==> x == y
    ensures |f| <= |cells|
  {
    hide CellAt;
    if f != {} {
      var x :| x in f;
      OnePerCell(f - {x}, plan, level, cells - {CellAt(plan, level, x)});
    }
  }

  lemma FirstsPerCell(s: set<Position>, plan: Plan, level: nat)
    requires level <= FIRST_LEVEL
    ensures |Firsts(s, plan, level)| <= |Cells(s, plan, level)|
  {
    hide CellAt, Level;
    var f := Firsts(s, plan, level);
    forall x, y | x in f && y in f && CellAt(plan, level, x) == CellAt(plan, level, y)
      ensures x == y
    {
      LevelIsFirst(s, plan, level, x);
      LevelIsFirst(s, plan, level, y);
    }
    OnePerCell(f, plan, level, Cells(s, plan, level));
  }

  /** With a slot beyond the protected ones for every cell of a level, the first captured position of
      each of those cells is kept. */
  lemma FirstsAreKept(s: set<Position>, plan: Plan, k: nat, r: set<Position>, level: nat)
    requires s != {} && IsKept(s, plan, k, r) && level <= FIRST_LEVEL
    requires |Protected(s, plan, ANCHORS)| + |Cells(s, plan, level)| <= k
    ensures Firsts(s, plan, level) <= r
  {
    hide Level, Protected, Cells;
    var f, p := Firsts(s, plan, level), Elems(Protected(s, plan, ANCHORS));
    FirstsPerCell(s, plan, level);
    if k == |Protected(s, plan, ANCHORS)| {
      SubsetCard(f, {});
    }
    if z :| z in f && z !in r {
      DroppedOutranked(s, plan, k, r, level, z);
      assert r == (r - p) + p;
      SubsetCard(r - p, f - {z});
    }
  }

  lemma DroppedOutranked(s: set<Position>, plan: Plan, k: nat, r: set<Position>, level: nat, z: Position)
    requires s != {} && IsKept(s, plan, k, r) && k > |Protected(s, plan, ANCHORS)|
    requires z in s && z !in r && Level(s, plan, z) >= level
    ensures r - Elems(Protected(s, plan, ANCHORS)) <= Firsts(s, plan, level) - {z}
    ensures Elems(Protected(s, plan, ANCHORS)) <= r && |r| == k
  {
    hide Level, Protected;
    forall x | x in r && x !in Protected(s, plan, ANCHORS)
      ensures x in Firsts(s, plan, level)
    {
      assert Better(s, plan, x, z);
    }
    if |s| <= k {
      SubsetCard(r, s);
    }
  }

  /** So every captured position is less than a cell above some kept one. */
  lemma Covered(s: set<Position>, plan: Plan, k: nat, r: set<Position>, level: nat, y: Position) returns (x: Position)
    requires s != {} && IsKept(s, plan, k, r) && level <= FIRST_LEVEL && y in s
    requires |Protected(s, plan, ANCHORS)| + |Cells(s, plan, level)| <= k
    ensures x in r && x <= y && y - x < CellWidth(plan, level)
  {
    hide IsKept, Cells, Level, CellAt;
    var cell := set z | z in s && CellAt(plan, level, z) == CellAt(plan, level, y);
    assert y in cell;
    x := Oldest(cell);
    assert forall z :: z in s && z < x ==> z !in cell;
    LevelIsFirst(s, plan, level, x);
    FirstsAreKept(s, plan, k, r, level);
    assert x in Firsts(s, plan, level);
    SameCellClose(plan, level, x, y);
  }

  lemma SameCellClose(plan: Plan, level: nat, x: Position, y: Position)
    requires x <= y && CellAt(plan, level, x) == CellAt(plan, level, y)
    ensures y - x < CellWidth(plan, level)
  {
    CellMonotone(plan, x, y);
    CoarseWidth(CellOf(plan, x), CellOf(plan, y), level);
    CloseBy(if plan.gridTokens < 1 then 1 else plan.gridTokens, x, y, Pow2(level));
  }

  lemma CloseBy(g: nat, x: nat, y: nat, w: nat)
    requires g > 0 && y / g - x / g < w
    ensures y - x < g * w
  {
    var a, b := x / g, y / g;
    assert g * a <= x && y < g * (b + 1);
    Spread(g, a, b + 1, w);
  }

  lemma Spread(g: nat, a: nat, b: nat, w: nat)
    requires b - a <= w
    ensures g * b - g * a <= g * w
  {
    assert g * w - (g * b - g * a) == g * (w - (b - a));
  }
}
