/** The compiled target-prefix route: fixed two- and three-row verifies whose mid-window states let the
    next verify start after the accepted rows only. */
module TargetPrefix {
  import opened Wrappers
  import opened TargetModel
  import opened TargetLayers

  const LAYERS: nat := 40
  const STATE_LEAVES: nat := 90
  const CACHE_STEP: nat := 256

  /* ---- the logical state ---- */

  function Embeds(net: Net, toks: seq<Token>): (xs: seq<Act>)
    ensures |xs| == |toks| && forall i :: 0 <= i < |toks| ==> xs[i] == net.embed(toks[i])
  {
    seq(|toks|, i requires 0 <= i < |toks| => net.embed(toks[i]))
  }

  /** The state one-row forwards of `ts` lead to; a row without room is not run. */
  function Fold(net: Net, base: seq<LayerState>, ts: seq<Token>): seq<LayerState> {
    if ts == [] then base
    else
      var s := Fold(net, base, ts[..|ts| - 1]);
      if Room(s, 1) then OneRow(net, 0, net.embed(ts[|ts| - 1]), s).1 else s
  }

  lemma {:induction false} FoldRoom(net: Net, base: seq<LayerState>, ts: seq<Token>, k: nat)
    requires Room(base, |ts| + k)
    ensures Room(Fold(net, base, ts), k)
  {
    if ts != [] {
      var s := Fold(net, base, ts[..|ts| - 1]);
      FoldRoom(net, base, ts[..|ts| - 1], k + 1);
      assert Room(s, 1) by { assert forall i :: 0 <= i < |s| ==> LayerRoom(s[i], k + 1); }
      OneRowRoom(net, 0, net.embed(ts[|ts| - 1]), s, k);
    }
  }

  /** The output row of `t` after `ts`. */
  function OutAt(net: Net, base: seq<LayerState>, ts: seq<Token>, t: Token): Act
    requires Room(base, |ts| + 1)
  {
    FoldRoom(net, base, ts, 1);
    OneRow(net, 0, net.embed(t), Fold(net, base, ts)).0
  }

  lemma FoldSnoc(net: Net, base: seq<LayerState>, ts: seq<Token>, t: Token)
    requires Room(base, |ts| + 1)
    ensures Room(Fold(net, base, ts), 1)
    ensures Fold(net, base, ts + [t]) == OneRow(net, 0, net.embed(t), Fold(net, base, ts)).1
  {
    FoldRoom(net, base, ts, 1);
    assert (ts + [t])[..|ts|] == ts;
  }

  /** `ls` is the state after `ts`, stale rows aside. */
  ghost predicate Stands(net: Net, base: seq<LayerState>, ts: seq<Token>, ls: seq<LayerState>) {
    Room(base, |ts|) && Like(ls, Fold(net, base, ts))
  }

  lemma StandsRoom(net: Net, base: seq<LayerState>, ts: seq<Token>, ls: seq<LayerState>, k: nat)
    requires Stands(net, base, ts, ls) && Room(base, |ts| + k)
    ensures Room(ls, k)
  {
    FoldRoom(net, base, ts, k);
    var f := Fold(net, base, ts);
    assert forall i :: 0 <= i < |ls| ==> LayerLike(ls[i], f[i]) && LayerRoom(f[i], k);
  }

  /** A captured forward of `toks` from the state after `ts`: every row, and the state after every
      row, is that of one-row forwards. */
  lemma {:induction false} RunStands(net: Net, base: seq<LayerState>, ts: seq<Token>, toks: seq<Token>,
                                     ls: seq<LayerState>, k: nat)
    requires k < |toks| && Stands(net, base, ts, ls) && Room(base, |ts| + |toks|)
    ensures Room(ls, |toks|)
    ensures var r := Rows(net, 0, Embeds(net, toks), ls);
            && r.ys[k] == OutAt(net, base, ts + toks[..k], toks[k])
            && Stands(net, base, ts + toks[..k + 1], After(r, k))
            && Stands(net, base, ts + toks, r.last)
    decreases |toks|
  {
    hide Rows, OneRow, Fold, Like, Room;
    StandsRoom(net, base, ts, ls, |toks|);
    RoomLess(ls, |toks|, 1);
    RoomLess(base, |ts| + |toks|, |ts| + 1);
    var xs := Embeds(net, toks);
    var one := OneRow(net, 0, xs[0], ls);
    FoldSnoc(net, base, ts, toks[0]);
    LikeStep(net, xs[0], ls, Fold(net, base, ts));
    assert Stands(net, base, ts + [toks[0]], one.1);
    RowsPeel(net, 0, xs, ls);
    RowsFirst(net, 0, xs, ls);
    assert xs[1..] == Embeds(net, toks[1..]);
    var r, rest := Rows(net, 0, xs, ls), Rows(net, 0, xs[1..], one.1);
    assert ts + toks[..0] == ts && toks[..1] == [toks[0]];
    LikeTrans(After(r, 0), one.1, Fold(net, base, ts + [toks[0]]));
    if |toks| == 1 {
      assert rest.last == one.1 by { NoRows(net, 0, one.1); }
      assert toks == [toks[0]];
    } else {
      var k1 := if k == 0 then 0 else k - 1;
      RunStands(net, base, ts + [toks[0]], toks[1..], one.1, k1);
      assert ts + [toks[0]] + toks[1..] == ts + toks;
      if k > 0 {
        assert ts + [toks[0]] + toks[1..][..k1] == ts + toks[..k];
        assert ts + [toks[0]] + toks[1..][..k1 + 1] == ts + toks[..k + 1];
        assert After(r, k) == After(rest, k1);
      }
    }
  }

  lemma RoomLess(ls: seq<LayerState>, a: nat, b: nat)
    requires b <= a && Room(ls, a)
    ensures Room(ls, b)
  {
    assert forall i :: 0 <= i < |ls| ==> LayerRoom(ls[i], a);
  }

  lemma LikeStep(net: Net, x: Act, a: seq<LayerState>, b: seq<LayerState>)
    requires Like(a, b) && Room(a, 1)
    ensures Room(b, 1) && OneRow(net, 0, x, a).0 == OneRow(net, 0, x, b).0
    ensures Like(OneRow(net, 0, x, a).1, OneRow(net, 0, x, b).1)
  {
    OneRowLike(net, 0, x, a, b);
  }

  lemma LikeTrans(a: seq<LayerState>, b: seq<LayerState>, c: seq<LayerState>)
    requires Like(a, b) && Like(b, c)
    ensures Like(a, c)
  {
    assert forall i :: 0 <= i < |a| ==> LayerLike(a[i], b[i]) && LayerLike(b[i], c[i]);
  }

  lemma {:induction false} NoRows(net: Net, i: nat, ls: seq<LayerState>)
    requires Room(ls, 0)
    ensures Rows(net, i, [], ls).last == ls
    decreases |ls|
  {
    if ls != [] {
      assert forall j :: 0 <= j < |ls| ==> LayerRoom(ls[j], 0);
      var l := ls[0];
      if l.Full? {
        assert Written(l.keys, l.off, []) == l.keys && Written(l.values, l.off, []) == l.values;
        assert KeyRows(net, i, [], l.off) == [] && ValueRows(net, i, [], l.off) == [];
      }
      assert LayerRows(net, i, [], l).ys == [] && LayerRows(net, i, [], l).last == l;
      NoRows(net, i + 1, ls[1..]);
    }
  }

  /* ---- the flat layout of the compiled graphs ---- */

  /** A graph's inputs and outputs: two leaves of a recurrent layer, three of an attention layer, and
      the logits and hidden rows, both read off the last layer. */
  datatype Leaf =
    | ConvLeaf(conv: Conv)
    | DeltaLeaf(delta: Delta)
    | KeysLeaf(keys: seq<Key>)
    | ValuesLeaf(values: seq<Val>)
    | OffsetLeaf(off: nat)
                | LogitsLeaf(rows: seq<Act>) | HiddenLeaf(rows: seq<Act>)

  predicate IsGdn(i: nat) {
    i % 4 != 3
  }

  /** Leaves of the layers below `i`. */
  function Start(i: nat): nat {
    if i == 0 then 0 else Start(i - 1) + if IsGdn(i - 1) then 2 else 3
  }

  predicate Kinds(ls: seq<LayerState>) {
    |ls| == LAYERS && forall i :: 0 <= i < LAYERS ==> ls[i].Gdn? == IsGdn(i)
  }

  function Leaves(l: LayerState): seq<Leaf> {
    match l
    case Gdn(conv, delta) => [ConvLeaf(conv), DeltaLeaf(delta)]
    case Full(keys, values, off) => [KeysLeaf(keys), ValuesLeaf(values), OffsetLeaf(off)]
  }

  /** The leaves of the first `n` layers. */
  function Pack(ls: seq<LayerState>, n: nat): (r: seq<Leaf>)
    requires Kinds(ls) && n <= LAYERS
    ensures |r| == Start(n)
  {
    if n == 0 then [] else Pack(ls, n - 1) + Leaves(ls[n - 1])
  }

  lemma {:induction false} StartIs(i: nat)
    ensures Start(i) == 2 * i + i / 4
  {
    if i > 0 {
      StartIs(i - 1);
    }
  }

  function PackAll(ls: seq<LayerState>): (r: seq<Leaf>)
    requires Kinds(ls)
    ensures |r| == STATE_LEAVES
  {
    StartIs(LAYERS);
    Pack(ls, LAYERS)
  }

  lemma PackStep(ls: seq<LayerState>, n: nat)
    requires Kinds(ls) && n < LAYERS
    ensures Pack(ls, n + 1) == Pack(ls, n) + Leaves(ls[n]) && Start(n + 1) == Start(n) + |Leaves(ls[n])|
  {
  }

  /** The leaves of layer `i`. */
  lemma {:induction false} PackAt(ls: seq<LayerState>, n: nat, i: nat)
    requires Kinds(ls) && i < n <= LAYERS && |ls| == LAYERS
    ensures Start(i) + |Leaves(ls[i])| <= Start(n)
    ensures forall j :: 0 <= j < |Leaves(ls[i])| ==> Pack(ls, n)[Start(i) + j] == Leaves(ls[i])[j]
  {
    hide Leaves, IsGdn, Pack, Start, Kinds;
    PackStep(ls, n - 1);
    if i < n - 1 {
      PackAt(ls, n - 1, i);
    }
  }

  /** Loading the shadow caches, `position` running over the leaves. */
  method LoadShadow(stateIn: seq<Leaf>, ghost ls: seq<LayerState>) returns (shadow: seq<LayerState>)
    requires Kinds(ls) && stateIn == PackAll(ls)
    ensures shadow == ls
  {
    hide Pack;
    shadow := [];
    var position := 0;
    for index := 0 to LAYERS
      invariant shadow == ls[..index] && position == Start(index)
    {
      PackAt(ls, LAYERS, index);
      ghost var l := Leaves(ls[index]);
      assert stateIn[position + 0] == l[0] && stateIn[position + 1] == l[1];
      if IsGdn(index) {
        shadow := shadow + [Gdn(stateIn[position].conv, stateIn[position + 1].delta)];
        position := position + 2;
      } else {
        assert stateIn[position + 2] == l[2];
        shadow := shadow + [Full(stateIn[position].keys, stateIn[position + 1].values, stateIn[position + 2].off)];
        position := position + 3;
      }
    }
  }

  /** Appending the leaves of the state after row `k`: captured rows of the recurrent layers, and the
      attention slabs with the offset taken back past the later rows. */
  method Rebase(net: Net, xs: seq<Act>, ls: seq<LayerState>, k: nat) returns (state: seq<Leaf>)
    requires Kinds(ls) && Room(ls, |xs|) && k < |xs|
    ensures Kinds(After(Rows(net, 0, xs, ls), k)) && state == PackAll(After(Rows(net, 0, xs, ls), k))
  {
    hide Rows, Room, Leaves, Start;
    var run := Rows(net, 0, xs, ls);
    ghost var mid := After(run, k);
    state := [];
    for index := 0 to LAYERS
      invariant Kinds(mid) && state == Pack(mid, index)
    {
      RebasedOffset(net, 0, xs, ls, index, k);
      var leaves := RebaseLayer(IsGdn(index), run.mids[index][k], run.last[index], |xs| - 1 - k);
      state := state + leaves;
    }
  }

  method RebaseLayer(gdn: bool, mid: LayerState, last: LayerState, later: nat) returns (leaves: seq<Leaf>)
    requires gdn == mid.Gdn? == last.Gdn?
    requires (!gdn ==> last.off >= later && mid == Full(last.keys, last.values, last.off - later))
    ensures leaves == Leaves(mid)
  {
    if gdn {
      leaves := [ConvLeaf(mid.conv), DeltaLeaf(mid.delta)];
    } else {
      leaves := [KeysLeaf(last.keys), ValuesLeaf(last.values), OffsetLeaf(last.off - later)];
    }
  }

  lemma {:induction false} RebasedOffset(net: Net, i: nat, xs: seq<Act>, ls: seq<LayerState>, j: nat, k: nat)
    requires Room(ls, |xs|) && k < |xs| && j < |ls|
    ensures var run := Rows(net, i, xs, ls);
            run.last[j].Full? ==>
              var last := run.last[j];
              last.off >= |xs| - 1 - k && run.mids[j][k] == Full(last.keys, last.values, last.off - (|xs| - 1 - k))
    decreases |ls|
  {
    assert forall j :: 0 <= j < |ls| ==> LayerRoom(ls[j], |xs|);
    if j > 0 {
      RebasedOffset(net, i + 1, LayerRows(net, i, xs, ls[0]).ys, ls[1..], j - 1, k);
    }
  }

  method PackFinal(net: Net, xs: seq<Act>, ls: seq<LayerState>) returns (state: seq<Leaf>)
    requires Kinds(ls) && Room(ls, |xs|)
    ensures Kinds(Rows(net, 0, xs, ls).last) && state == PackAll(Rows(net, 0, xs, ls).last)
  {
    hide Rows;
    var last := Rows(net, 0, xs, ls).last;
    state := [];
    for index := 0 to LAYERS
      invariant Kinds(last) && state == Pack(last, index)
    {
      state := state + Leaves(last[index]);
    }
  }

  /** The `k`-th state among a step's outputs. */
  function StateAt(outputs: seq<Leaf>, k: nat): (r: seq<Leaf>)
    requires 2 + (k + 1) * STATE_LEAVES <= |outputs|
  {
    outputs[2 + k * STATE_LEAVES..2 + (k + 1) * STATE_LEAVES]
  }

  /** The rows and states a step gives: rows, the states after the rows `0 .. rebases`, the last. */
  ghost predicate StepOutputs(net: Net, toks: seq<Token>, ls: seq<LayerState>, rebases: nat, outputs: seq<Leaf>)
    requires Kinds(ls) && Room(ls, |toks|) && rebases <= 2 && rebases < |toks|
  {
    var run := Rows(net, 0, Embeds(net, toks), ls);
    && |outputs| == 2 + (rebases + 1) * STATE_LEAVES
    && outputs[0] == LogitsLeaf(run.ys) && outputs[1] == HiddenLeaf(run.ys)
    && (forall k :: 0 <= k < rebases ==>
          Kinds(After(run, k)) && StateAt(outputs, k) == PackAll(After(run, k)))
    && Kinds(run.last) && StateAt(outputs, rebases) == PackAll(run.last)
  }

  /** The M1, M2 and M3 step bodies: `rebases` is the number of mid-window states they return. */
  method CompiledStep(net: Net, toks: seq<Token>, stateIn: seq<Leaf>, rebases: nat, ghost ls: seq<LayerState>)
    returns (outputs: seq<Leaf>)
    requires Kinds(ls) && stateIn == PackAll(ls) && Room(ls, |toks|) && rebases <= 2 && |toks| == rebases + 1
    ensures StepOutputs(net, toks, ls, rebases, outputs)
  {
    hide Rows, Room, Pack, PackAll, Kinds, After, StateAt;
    var shadow := LoadShadow(stateIn, ls);
    var xs := Embeds(net, toks);
    var ys := Rows(net, 0, xs, shadow).ys;
    outputs := [LogitsLeaf(ys), HiddenLeaf(ys)];
    ghost var run := Rows(net, 0, xs, ls);
    for k := 0 to rebases
      invariant |outputs| == 2 + k * STATE_LEAVES && outputs[0] == LogitsLeaf(ys) && outputs[1] == HiddenLeaf(ys)
      invariant forall j :: 0 <= j < k ==> Kinds(After(run, j)) && StateAt(outputs, j) == PackAll(After(run, j))
    {
      var state := Rebase(net, xs, shadow, k);
      StateAppended(outputs, state, k);
      outputs := outputs + state;
    }
    var final := PackFinal(net, xs, shadow);
    StateAppended(outputs, final, rebases);
    outputs := outputs + final;
  }

  lemma StateAppended(outputs: seq<Leaf>, state: seq<Leaf>, k: nat)
    requires |outputs| == 2 + k * STATE_LEAVES && |state| == STATE_LEAVES
    ensures StateAt(outputs + state, k) == state
    ensures forall j :: 0 <= j < k ==> StateAt(outputs + state, j) == StateAt(outputs, j)
  {
  }

  /** A flat state that stands after `ts`. */
  ghost predicate Holds(net: Net, base: seq<LayerState>, ts: seq<Token>, state: seq<Leaf>) {
    exists ls :: Kinds(ls) && state == PackAll(ls) && Stands(net, base, ts, ls)
  }

  /** The rows a verify reports are those of one-row forwards. */
  ghost predicate RowsRight(net: Net, base: seq<LayerState>, ts: seq<Token>, toks: seq<Token>, ys: seq<Act>)
    requires Room(base, |ts| + |toks|)
  {
    && |ys| == |toks|
    && forall k :: 0 <= k < |toks| ==> Room(base, |ts| + k + 1) && ys[k] == OutAt(net, base, ts + toks[..k], toks[k])
  }

  /** What a step from a state that stands after `ts` reports and returns. */
  lemma StepStands(net: Net, base: seq<LayerState>, ts: seq<Token>, toks: seq<Token>, ls: seq<LayerState>, rebases: nat,
                   outputs: seq<Leaf>)
    requires Kinds(ls) && Stands(net, base, ts, ls) && Room(base, |ts| + |toks|) && Room(ls, |toks|)
    requires rebases <= 2 && |toks| == rebases + 1 && StepOutputs(net, toks, ls, rebases, outputs)
    ensures RowsRight(net, base, ts, toks, outputs[0].rows)
    ensures forall k :: 0 <= k < rebases ==> Holds(net, base, ts + toks[..k + 1], StateAt(outputs, k))
    ensures Holds(net, base, ts + toks, StateAt(outputs, rebases))
  {
    hide Rows, Stands, Room, Pack, Kinds;
    var run := Rows(net, 0, Embeds(net, toks), ls);
    forall k | 0 <= k < |toks|
      ensures Room(base, |ts| + k + 1) && run.ys[k] == OutAt(net, base, ts + toks[..k], toks[k])
    {
      RoomLess(base, |ts| + |toks|, |ts| + k + 1);
      RunStands(net, base, ts, toks, ls, k);
    }
    forall k | 0 <= k < rebases
      ensures Holds(net, base, ts + toks[..k + 1], StateAt(outputs, k))
    {
      RunStands(net, base, ts, toks, ls, k);
      assert Kinds(After(run, k));
    }
    RunStands(net, base, ts, toks, ls, 0);
  }

  /** `A3BK1TargetPrefixRoute`: the live state slots and the compiled steps over them. */
  class Route {
    const net: Net
    var live: seq<Leaf>

    constructor (net: Net, state: seq<Leaf>)
      ensures this.net == net && live == state
    {
      this.net, live := net, state;
    }

    /** `_forward_m2`, `_forward_m3` and `_forward_m1`: a step from the live state or a stashed one; the
        live slots take its final state. */
    method Forward(toks: seq<Token>, stateIn: Option<seq<Leaf>>, rebases: nat, ghost base: seq<LayerState>,
                   ghost ts: seq<Token>)
      returns (ys: seq<Act>, states: seq<seq<Leaf>>)
      requires rebases <= 2 && |toks| == rebases + 1 && Room(base, |ts| + |toks|)
      requires Holds(net, base, ts, if stateIn.Some? then stateIn.value else live)
      modifies this
      ensures RowsRight(net, base, ts, toks, ys) && Holds(net, base, ts + toks, live)
      ensures |states| == rebases && forall k :: 0 <= k < rebases ==> Holds(net, base, ts + toks[..k + 1], states[k])
    {
      hide Stands, Room, Kinds, RowsRight, Pack, Rows;
      var state := if stateIn.Some? then stateIn.value else live;
      ghost var ls :| Kinds(ls) && state == PackAll(ls) && Stands(net, base, ts, ls);
      StandsRoom(net, base, ts, ls, |toks|);
      var outputs := CompiledStep(net, toks, state, rebases, ls);
      StepStands(net, base, ts, toks, ls, rebases, outputs);
      assert outputs[2 + rebases * STATE_LEAVES..] == StateAt(outputs, rebases);
      live := outputs[2 + rebases * STATE_LEAVES..];
      ys := outputs[0].rows;
      states := if rebases == 0 then []
                else if rebases == 1 then [StateAt(outputs, 0)]
                else [StateAt(outputs, 0), StateAt(outputs, 1)];
    }

    method VerifyM2(toks: seq<Token>, ghost base: seq<LayerState>, ghost ts: seq<Token>)
      returns (ys: seq<Act>, primary: seq<Leaf>)
      requires |toks| == 2 && Room(base, |ts| + 2) && Holds(net, base, ts, live)
      modifies this
      ensures RowsRight(net, base, ts, toks, ys) && Holds(net, base, ts + toks[..1], primary)
      ensures Holds(net, base, ts + toks, live)
    {
      var states;
      ys, states := Forward(toks, None, 1, base, ts);
      primary := states[0];
    }

    /** The next verify from the state a rejecting one stashed, whatever the live slots hold. */
    method VerifyM2Rebased(toks: seq<Token>, state: seq<Leaf>, ghost base: seq<LayerState>, ghost ts: seq<Token>)
      returns (ys: seq<Act>, primary: seq<Leaf>)
      requires |toks| == 2 && Room(base, |ts| + 2) && Holds(net, base, ts, state)
      modifies this
      ensures RowsRight(net, base, ts, toks, ys) && Holds(net, base, ts + toks[..1], primary)
      ensures Holds(net, base, ts + toks, live)
    {
      var states;
      ys, states := Forward(toks, Some(state), 1, base, ts);
      primary := states[0];
    }

    /** The forward a rebased verify replaces. */
    method RepairM1(toks: seq<Token>, state: seq<Leaf>, ghost base: seq<LayerState>, ghost ts: seq<Token>)
      returns (ys: seq<Act>)
      requires |toks| == 1 && Room(base, |ts| + 1) && Holds(net, base, ts, state)
      modifies this
      ensures RowsRight(net, base, ts, toks, ys) && Holds(net, base, ts + toks, live)
    {
      var states;
      ys, states := Forward(toks, Some(state), 0, base, ts);
    }

    /** The three-row verify from the live state or a stashed one. */
    method VerifyM3(toks: seq<Token>, state: Option<seq<Leaf>>, ghost base: seq<LayerState>, ghost ts: seq<Token>)
      returns (ys: seq<Act>, rebase0: seq<Leaf>, rebase1: seq<Leaf>)
      requires |toks| == 3 && Room(base, |ts| + 3) && Holds(net, base, ts, if state.Some? then state.value else live)
      modifies this
      ensures RowsRight(net, base, ts, toks, ys) && Holds(net, base, ts + toks, live)
      ensures Holds(net, base, ts + toks[..1], rebase0) && Holds(net, base, ts + toks[..2], rebase1)
    {
      var states;
      ys, states := Forward(toks, state, 2, base, ts);
      rebase0, rebase1 := states[0], states[1];
    }
  }

  /* ---- rebase is repair ---- */

  lemma LikeSym(a: seq<LayerState>, b: seq<LayerState>)
    requires Like(a, b)
    ensures Like(b, a)
  {
    assert forall i :: 0 <= i < |a| ==> LayerLike(a[i], b[i]);
  }

  /** Whatever follows the correction in a rebased verify, its first row and the state it returns after
      it are the repair's. */
  lemma RebaseIsRepair(net: Net, ls: seq<LayerState>, c: Token, later: seq<Token>)
    requires later != [] && Room(ls, 1 + |later|) && forall i :: 0 <= i < |ls| ==> LayerLike(ls[i], ls[i])
    ensures Room(ls, 1)
    ensures var verify, repair := Rows(net, 0, Embeds(net, [c] + later), ls), Rows(net, 0, Embeds(net, [c]), ls);
            verify.ys[0] == repair.ys[0] && Like(After(verify, 0), repair.last)
  {
    hide Rows, Fold;
    assert Stands(net, ls, [], ls) by { assert Fold(net, ls, []) == ls by { FoldNone(net, ls); } }
    RoomLess(ls, 1 + |later|, 1);
    RunStands(net, ls, [], [c] + later, ls, 0);
    RunStands(net, ls, [], [c], ls, 0);
    assert ([c] + later)[..1] == [c] && ([c] + later)[..0] == [] == [c][..0] && [] + [c] == [c];
    LikeSym(Rows(net, 0, Embeds(net, [c]), ls).last, Fold(net, ls, [c]));
    LikeTrans(After(Rows(net, 0, Embeds(net, [c] + later), ls), 0), Fold(net, ls, [c]),
              Rows(net, 0, Embeds(net, [c]), ls).last);
  }

  lemma FoldNone(net: Net, ls: seq<LayerState>)
    ensures Fold(net, ls, []) == ls
  {
  }

  /* ---- a whole decode ---- */

  /** A verify cycle: its primary, its drafts, and how many of them were accepted. */
  datatype Cycle = Cycle(primary: Token, drafts: seq<Token>, accepted: nat)

  function Inputs(c: Cycle): seq<Token> {
    [c.primary] + c.drafts
  }

  /** The decode loop of depth one or two; `upto[n]` are the tokens consumed before cycle `n`, each
      primary and the drafts accepted after it. A fully accepted cycle goes on from the live slots, a
      rejecting one stashes the state after its accepted rows and the next verify runs from there:
      every row is the one-row forward of the consumed tokens, the cycle's primary and the drafts
      before it, and the state the next cycle starts from stands after exactly the consumed tokens. */
  method Decode(route: Route, base: seq<LayerState>, depth: nat, cycles: seq<Cycle>, maxTokens: nat,
                ghost upto: seq<seq<Token>>)
    returns (rows: seq<seq<Act>>, stash: Option<seq<Leaf>>)
    requires 1 <= depth <= 2
    requires forall i :: 0 <= i < |cycles| ==> |cycles[i].drafts| == depth && cycles[i].accepted <= depth
    requires Room(base, maxTokens + 2) && Holds(route.net, base, [], route.live)
    requires |upto| == |cycles| + 1 && upto[0] == []
    requires forall i :: 0 <= i < |cycles| ==>
               upto[i + 1] == upto[i] + [cycles[i].primary] + cycles[i].drafts[..cycles[i].accepted]
    requires forall i :: 0 <= i < |cycles| ==> |upto[i]| < maxTokens
    modifies route
    ensures |rows| == |cycles|
    ensures forall n :: 0 <= n < |cycles| ==>
              |rows[n]| == depth + 1 && OneRowAfter(route.net, base, upto[n], cycles[n].primary, rows[n][0])
    ensures forall n, k :: 0 <= n < |cycles| && 0 <= k < depth ==>
              OneRowAfter(route.net, base, upto[n] + [cycles[n].primary] + cycles[n].drafts[..k], cycles[n].drafts[k],
                          rows[n][1..][k])
    ensures Holds(route.net, base, upto[|cycles|], if stash.Some? then stash.value else route.live)
  {
    hide Holds, Room, OutAt, Right;
    rows, stash := [], None;
    for n := 0 to |cycles|
      invariant |rows| == n
      invariant Holds(route.net, base, upto[n], if stash.Some? then stash.value else route.live)
      invariant forall i :: 0 <= i < n ==> Right(route.net, base, upto[i], cycles[i], rows[i])
    {
      RoomLess(base, maxTokens + 2, |upto[n]| + depth + 1);
      var ys;
      ys, stash := VerifyCycle(route, base, cycles[n], stash, upto[n]);
      rows := rows + [ys];
      assert upto[n] + ([cycles[n].primary] + cycles[n].drafts[..cycles[n].accepted]) == upto[n + 1];
    }
    RowsOf(route.net, base, depth, cycles, upto, rows);
  }

  /** One cycle, from the stashed state or the live slots. */
  method VerifyCycle(route: Route, base: seq<LayerState>, c: Cycle, stash: Option<seq<Leaf>>, ghost ts: seq<Token>)
    returns (ys: seq<Act>, stash': Option<seq<Leaf>>)
    requires 1 <= |c.drafts| <= 2 && c.accepted <= |c.drafts| && Room(base, |ts| + |c.drafts| + 1)
    requires Holds(route.net, base, ts, if stash.Some? then stash.value else route.live)
    modifies route
    ensures Right(route.net, base, ts, c, ys)
    ensures Holds(route.net, base, ts + ([c.primary] + c.drafts[..c.accepted]),
                  if stash'.Some? then stash'.value else route.live)
  {
    hide Holds, Room, RowsRight;
    var states;
    if |c.drafts| == 2 {
      var rebase0, rebase1;
      ys, rebase0, rebase1 := route.VerifyM3(Inputs(c), stash, base, ts);
      states := [rebase0, rebase1];
    } else {
      var primary;
      if stash.Some? {
        ys, primary := route.VerifyM2Rebased(Inputs(c), stash.value, base, ts);
      } else {
        ys, primary := route.VerifyM2(Inputs(c), base, ts);
      }
      states := [primary];
    }
    stash' := if c.accepted == |c.drafts| then None else Some(states[c.accepted]);
    assert Inputs(c)[..c.accepted + 1] == [c.primary] + c.drafts[..c.accepted];
    assert c.accepted == |c.drafts| ==> c.drafts[..c.accepted] == c.drafts;
  }

  /** The rows of one cycle are one-row forwards. */
  ghost predicate Right(net: Net, base: seq<LayerState>, ts: seq<Token>, c: Cycle, ys: seq<Act>) {
    Room(base, |ts| + |Inputs(c)|) && RowsRight(net, base, ts, Inputs(c), ys)
  }

  /** `y` is what a one-row forward of `t` after the tokens `ts` reports. */
  ghost predicate OneRowAfter(net: Net, base: seq<LayerState>, ts: seq<Token>, t: Token, y: Act) {
    Room(base, |ts| + 1) && y == OutAt(net, base, ts, t)
  }

  lemma RowOf(net: Net, base: seq<LayerState>, ts: seq<Token>, c: Cycle, ys: seq<Act>)
    requires Right(net, base, ts, c, ys)
    ensures |ys| == |c.drafts| + 1 && OneRowAfter(net, base, ts, c.primary, ys[0])
    ensures forall k :: 0 <= k < |c.drafts| ==>
              OneRowAfter(net, base, ts + [c.primary] + c.drafts[..k], c.drafts[k], ys[1..][k])
  {
    hide Room, OutAt;
    var toks := Inputs(c);
    assert ts + toks[..0] == ts && toks[0] == c.primary;
    forall k | 0 <= k < |c.drafts|
      ensures OneRowAfter(net, base, ts + [c.primary] + c.drafts[..k], c.drafts[k], ys[1..][k])
    {
      assert ts + toks[..k + 1] == ts + [c.primary] + c.drafts[..k] && toks[k + 1] == c.drafts[k];
    }
  }

  lemma RowsOf(net: Net, base: seq<LayerState>, depth: nat, cycles: seq<Cycle>, upto: seq<seq<Token>>,
               rows: seq<seq<Act>>)
    requires depth >= 1 && |upto| == |cycles| + 1 && |rows| == |cycles|
    requires forall i :: 0 <= i < |cycles| ==>
               |cycles[i].drafts| == depth && Right(net, base, upto[i], cycles[i], rows[i])
    ensures forall n :: 0 <= n < |cycles| ==>
              |rows[n]| == depth + 1 && OneRowAfter(net, base, upto[n], cycles[n].primary, rows[n][0])
    ensures forall n, k :: 0 <= n < |cycles| && 0 <= k < depth ==>
              OneRowAfter(net, base, upto[n] + [cycles[n].primary] + cycles[n].drafts[..k], cycles[n].drafts[k],
                          rows[n][1..][k])
  {
    hide Room, Right, OneRowAfter;
    forall n | 0 <= n < |cycles|
      ensures |rows[n]| == depth + 1 && OneRowAfter(net, base, upto[n], cycles[n].primary, rows[n][0])
      ensures forall k :: 0 <= k < depth ==>
                OneRowAfter(net, base, upto[n] + [cycles[n].primary] + cycles[n].drafts[..k], cycles[n].drafts[k],
                            rows[n][1..][k])
    {
      RowOf(net, base, upto[n], cycles[n], rows[n]);
    }
  }

  /** `_request_cache_capacity`. */
  function RequestCapacity(promptTokens: nat, maxTokens: nat): nat {
    (promptTokens + maxTokens + 2 + CACHE_STEP - 1) / CACHE_STEP * CACHE_STEP
  }

  /** A slab of the request's capacity, filled with the prompt, has room for the whole decode at either
      depth, and no whole step could be saved. */
  lemma CapacityIsEnough(promptTokens: nat, maxTokens: nat, ls: seq<LayerState>)
    requires forall i :: 0 <= i < |ls| && ls[i].Full? ==>
               ls[i].off == promptTokens && |ls[i].keys| == |ls[i].values| == RequestCapacity(promptTokens, maxTokens)
    ensures Room(ls, maxTokens + 2)
    ensures RequestCapacity(promptTokens, maxTokens) < promptTokens + maxTokens + 2 + CACHE_STEP
    ensures RequestCapacity(promptTokens, maxTokens) % CACHE_STEP == 0
  {
    var n := (promptTokens + maxTokens + 2 + CACHE_STEP - 1) / CACHE_STEP;
    assert n * CACHE_STEP <= promptTokens + maxTokens + 2 + CACHE_STEP - 1 < n * CACHE_STEP + CACHE_STEP;
  }
}
