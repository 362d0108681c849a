/** The compiled target: 40 layers, most of them recurrent, every fourth with full attention over a
    slab that may hold stale rows past its offset. */
module TargetLayers {
  import opened TargetModel

  type Act(!new)
  type Conv(!new)
  type Delta(!new)
  type Key(!new)
  type Val(!new)

  /** One row through one layer. Attention sees the keys and values of its own position and below. */
  datatype Net = Net(embed: Token -> Act,
                     gdn: (nat, Act, Conv, Delta) -> (Act, Conv, Delta),
                     key: (nat, Act, nat) -> Key, value: (nat, Act, nat) -> Val,
                     attend: (nat, Act, seq<Key>, seq<Val>) -> Act)

  datatype LayerState = Gdn(conv: Conv, delta: Delta) | Full(keys: seq<Key>, values: seq<Val>, off: nat)

  predicate LayerRoom(l: LayerState, rows: nat) {
    l.Full? ==> l.off + rows <= |l.keys| == |l.values|
  }

  predicate Room(ls: seq<LayerState>, rows: nat) {
    forall i :: 0 <= i < |ls| ==> LayerRoom(ls[i], rows)
  }

  /* ---- one row at a time ---- */

  function LayerOne(net: Net, i: nat, x: Act, l: LayerState): (r: (Act, LayerState))
    requires LayerRoom(l, 1)
    ensures r.1.Full? == l.Full? && (l.Full? ==> r.1.off == l.off + 1 && |r.1.keys| == |r.1.values| == |l.keys|)
  {
    match l
    case Gdn(conv, delta) =>
      var g := net.gdn(i, x, conv, delta);
      (g.0, Gdn(g.1, g.2))
    case Full(keys, values, off) =>
      var ks, vs := keys[off := net.key(i, x, off)], values[off := net.value(i, x, off)];
      (net.attend(i, x, ks[..off + 1], vs[..off + 1]), Full(ks, vs, off + 1))
  }

  /** One row through the layers `i`, `i + 1`, ... whose states are `ls`. */
  function OneRow(net: Net, i: nat, x: Act, ls: seq<LayerState>): (r: (Act, seq<LayerState>))
    requires Room(ls, 1)
    ensures |r.1| == |ls|
    decreases |ls|
  {
    if ls == [] then (x, [])
    else
      var one := LayerOne(net, i, x, ls[0]);
      var rest := OneRow(net, i + 1, one.0, ls[1..]);
      (rest.0, [one.1] + rest.1)
  }

  lemma {:induction false} OneRowRoom(net: Net, i: nat, x: Act, ls: seq<LayerState>, k: nat)
    requires Room(ls, k + 1) && Room(ls, 1)
    ensures Room(OneRow(net, i, x, ls).1, k)
    decreases |ls|
  {
    if ls != [] {
      assert forall j :: 0 <= j < |ls| - 1 ==> LayerRoom(ls[1..][j], k + 1);
      OneRowRoom(net, i + 1, LayerOne(net, i, x, ls[0]).0, ls[1..], k);
    }
  }

  /* ---- several rows at once, layer by layer ---- */

  /** The recurrent states after each row. */
  function GdnScan(net: Net, i: nat, xs: seq<Act>, conv: Conv, delta: Delta): (r: seq<(Act, Conv, Delta)>)
    ensures |r| == |xs|
  {
    if xs == [] then []
    else
      var g := net.gdn(i, xs[0], conv, delta);
      [g] + GdnScan(net, i, xs[1..], g.1, g.2)
  }

  function Written<T>(slab: seq<T>, off: nat, rows: seq<T>): (r: seq<T>)
    requires off + |rows| <= |slab|
    ensures |r| == |slab|
  {
    slab[..off] + rows + slab[off + |rows|..]
  }

  function KeyRows(net: Net, i: nat, xs: seq<Act>, off: nat): (r: seq<Key>)
    ensures |r| == |xs|
  {
    seq(|xs|, j requires 0 <= j < |xs| => net.key(i, xs[j], off + j))
  }

  function ValueRows(net: Net, i: nat, xs: seq<Act>, off: nat): (r: seq<Val>)
    ensures |r| == |xs|
  {
    seq(|xs|, j requires 0 <= j < |xs| => net.value(i, xs[j], off + j))
  }

  /** Causal attention of the rows written from `off` on. */
  function AttendRows(net: Net, i: nat, xs: seq<Act>, ks: seq<Key>, vs: seq<Val>, off: nat): (r: seq<Act>)
    requires off + |xs| <= |ks| == |vs|
    ensures |r| == |xs|
  {
    seq(|xs|, j requires 0 <= j < |xs| => net.attend(i, xs[j], ks[..off + j + 1], vs[..off + j + 1]))
  }

  /** What a captured forward returns for a layer: the rows, the state after each of them as far as
      the capture knows it, and the final state. */
  datatype LayerRun = LayerRun(ys: seq<Act>, mids: seq<LayerState>, last: LayerState)

  function LayerRows(net: Net, i: nat, xs: seq<Act>, l: LayerState): (r: LayerRun)
    requires LayerRoom(l, |xs|)
    ensures |r.ys| == |r.mids| == |xs| && r.last.Full? == l.Full?
    ensures forall j :: 0 <= j < |xs| ==> r.mids[j].Full? == l.Full?
  {
    var n := |xs|;
    match l
    case Gdn(conv, delta) =>
      var s := GdnScan(net, i, xs, conv, delta);
      LayerRun(seq(n, j requires 0 <= j < n => s[j].0), seq(n, j requires 0 <= j < n => Gdn(s[j].1, s[j].2)),
               if n == 0 then l else Gdn(s[n - 1].1, s[n - 1].2))
    case Full(keys, values, off) =>
      var ks := Written(keys, off, KeyRows(net, i, xs, off));
      var vs := Written(values, off, ValueRows(net, i, xs, off));
      LayerRun(AttendRows(net, i, xs, ks, vs, off),
               seq(n, j requires 0 <= j < n => Full(ks, vs, off + j + 1)), Full(ks, vs, off + n))
  }

  /** The rows, and per layer the state after each row and the final one. */
  datatype Run = Run(ys: seq<Act>, mids: seq<seq<LayerState>>, last: seq<LayerState>)

  function Rows(net: Net, i: nat, xs: seq<Act>, ls: seq<LayerState>): (r: Run)
    requires Room(ls, |xs|)
    ensures |r.ys| == |xs| && |r.mids| == |r.last| == |ls|
    ensures forall j :: 0 <= j < |ls| ==> |r.mids[j]| == |xs| && r.last[j].Full? == ls[j].Full?
    ensures forall j, k :: 0 <= j < |ls| && 0 <= k < |xs| ==> r.mids[j][k].Full? == ls[j].Full?
    decreases |ls|
  {
    if ls == [] then Run(xs, [], [])
    else
      var one := LayerRows(net, i, xs, ls[0]);
      var rest := Rows(net, i + 1, one.ys, ls[1..]);
      Run(rest.ys, [one.mids] + rest.mids, [one.last] + rest.last)
  }

  /** The states of all layers after row `k`. */
  function After(r: Run, k: nat): (ls: seq<LayerState>)
    requires forall j :: 0 <= j < |r.mids| ==> k < |r.mids[j]|
    ensures |ls| == |r.mids| && forall j :: 0 <= j < |ls| ==> ls[j] == r.mids[j][k]
  {
    seq(|r.mids|, j requires 0 <= j < |r.mids| => r.mids[j][k])
  }

  /* ---- states that agree below their offsets ---- */

  ghost predicate LayerLike(a: LayerState, b: LayerState) {
    match a
    case Gdn(_, _) => a == b
    case Full(keys, values, off) =>
      && b.Full? && b.off == off
      && |keys| == |values| == |b.keys| == |b.values| && off <= |keys|
      && keys[..off] == b.keys[..off] && values[..off] == b.values[..off]
  }

  ghost predicate Like(a: seq<LayerState>, b: seq<LayerState>) {
    |a| == |b| && forall i :: 0 <= i < |a| ==> LayerLike(a[i], b[i])
  }

  lemma LayerOneLike(net: Net, i: nat, x: Act, a: LayerState, b: LayerState)
    requires LayerLike(a, b) && LayerRoom(a, 1)
    ensures LayerRoom(b, 1) && LayerOne(net, i, x, a).0 == LayerOne(net, i, x, b).0
    ensures LayerLike(LayerOne(net, i, x, a).1, LayerOne(net, i, x, b).1)
  {
    if a.Full? {
      var ra, rb := LayerOne(net, i, x, a).1, LayerOne(net, i, x, b).1;
      assert ra.keys[..a.off + 1] == a.keys[..a.off] + [net.key(i, x, a.off)] == rb.keys[..a.off + 1];
      assert ra.values[..a.off + 1] == a.values[..a.off] + [net.value(i, x, a.off)] == rb.values[..a.off + 1];
    }
  }

  /** Stale rows past the offset do not show. */
  lemma {:induction false} OneRowLike(net: Net, i: nat, x: Act, a: seq<LayerState>, b: seq<LayerState>)
    requires Like(a, b) && Room(a, 1)
    ensures Room(b, 1) && OneRow(net, i, x, a).0 == OneRow(net, i, x, b).0
    ensures Like(OneRow(net, i, x, a).1, OneRow(net, i, x, b).1)
    decreases |a|
  {
    assert forall j :: 0 <= j < |a| ==> LayerLike(a[j], b[j]) && LayerRoom(b[j], 1);
    if a != [] {
      LayerOneLike(net, i, x, a[0], b[0]);
      OneRowLike(net, i + 1, LayerOne(net, i, x, a[0]).0, a[1..], b[1..]);
    }
  }

  /* ---- a captured forward is its rows one by one ---- */

  /** The first row of a layer, then the others over the state it leaves. */
  lemma LayerPeel(net: Net, i: nat, xs: seq<Act>, l: LayerState)
    requires xs != [] && LayerRoom(l, |xs|)
    ensures var one, all := LayerOne(net, i, xs[0], l), LayerRows(net, i, xs, l);
            && LayerRoom(one.1, |xs| - 1)
            && var rest := LayerRows(net, i, xs[1..], one.1);
               all.ys == [one.0] + rest.ys && all.last == rest.last && all.mids[1..] == rest.mids
  {
    if l.Full? {
      FullPeel(net, i, xs, l);
    }
  }

  lemma WrittenPeel<T>(slab: seq<T>, off: nat, rows: seq<T>)
    requires rows != [] && off + |rows| <= |slab|
    ensures Written(slab, off, rows) == Written(slab[off := rows[0]], off + 1, rows[1..])
    ensures Written(slab, off, rows)[..off + 1] == slab[off := rows[0]][..off + 1]
  {
  }

  lemma FullPeel(net: Net, i: nat, xs: seq<Act>, l: LayerState)
    requires xs != [] && l.Full? && LayerRoom(l, |xs|)
    ensures var one, all := LayerOne(net, i, xs[0], l), LayerRows(net, i, xs, l);
            && LayerRoom(one.1, |xs| - 1)
            && var rest := LayerRows(net, i, xs[1..], one.1);
               all.ys == [one.0] + rest.ys && all.last == rest.last && all.mids[1..] == rest.mids
  {
    var off := l.off;
    var ks, vs := KeyRows(net, i, xs, off), ValueRows(net, i, xs, off);
    assert KeyRows(net, i, xs[1..], off + 1) == ks[1..] && ValueRows(net, i, xs[1..], off + 1) == vs[1..];
    WrittenPeel(l.keys, off, ks);
    WrittenPeel(l.values, off, vs);
    AttendPeel(net, i, xs, Written(l.keys, off, ks), Written(l.values, off, vs), off);
  }

  lemma AttendPeel(net: Net, i: nat, xs: seq<Act>, ks: seq<Key>, vs: seq<Val>, off: nat)
    requires xs != [] && off + |xs| <= |ks| == |vs|
    ensures AttendRows(net, i, xs, ks, vs, off) ==
            [net.attend(i, xs[0], ks[..off + 1], vs[..off + 1])] + AttendRows(net, i, xs[1..], ks, vs, off + 1)
  {
  }

  /** Running rows layer by layer is running the first one through every layer and then the others. */
  lemma {:induction false} RowsPeel(net: Net, i: nat, xs: seq<Act>, ls: seq<LayerState>)
    requires xs != [] && Room(ls, |xs|)
    ensures var all := Rows(net, i, xs, ls);
            && Room(ls, 1)
            && var one := OneRow(net, i, xs[0], ls);
               && Room(one.1, |xs| - 1)
               && var rest := Rows(net, i, xs[1..], one.1);
                  && all.ys == [one.0] + rest.ys && all.last == rest.last
                  && forall j :: 0 <= j < |ls| ==> all.mids[j][1..] == rest.mids[j]
    decreases |ls|
  {
    assert forall j :: 0 <= j < |ls| ==> LayerRoom(ls[j], |xs|) && LayerRoom(ls[j], 1);
    if ls != [] {
      LayerPeel(net, i, xs, ls[0]);
      var one, all := LayerOne(net, i, xs[0], ls[0]), LayerRows(net, i, xs, ls[0]);
      assert all.ys[1..] == LayerRows(net, i, xs[1..], one.1).ys;
      RowsPeel(net, i + 1, all.ys, ls[1..]);
      var o := OneRow(net, i, xs[0], ls);
      assert o.1[0] == one.1 && o.1[1..] == OneRow(net, i + 1, one.0, ls[1..]).1;
    }
  }

  /** The state captured after the first row is, below its offsets, the one-row state. */
  lemma LayerFirst(net: Net, i: nat, xs: seq<Act>, l: LayerState)
    requires xs != [] && LayerRoom(l, |xs|)
    ensures LayerLike(LayerRows(net, i, xs, l).mids[0], LayerOne(net, i, xs[0], l).1)
  {
    if l.Full? {
      WrittenPeel(l.keys, l.off, KeyRows(net, i, xs, l.off));
      WrittenPeel(l.values, l.off, ValueRows(net, i, xs, l.off));
    }
  }

  lemma {:induction false} RowsFirst(net: Net, i: nat, xs: seq<Act>, ls: seq<LayerState>)
    requires xs != [] && Room(ls, |xs|)
    ensures Room(ls, 1) && Like(After(Rows(net, i, xs, ls), 0), OneRow(net, i, xs[0], ls).1)
    decreases |ls|
  {
    assert forall j :: 0 <= j < |ls| ==> LayerRoom(ls[j], |xs|) && LayerRoom(ls[j], 1);
    if ls != [] {
      LayerFirst(net, i, xs, ls[0]);
      LayerPeel(net, i, xs, ls[0]);
      RowsFirst(net, i + 1, LayerRows(net, i, xs, ls[0]).ys, ls[1..]);
    }
  }
}
