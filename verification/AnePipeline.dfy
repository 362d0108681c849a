/** The decoder stack over one prefill chunk as two halves, pipelined across the GPU and the ANE. */
module AnePipeline {
  import opened Wrappers
  import opened AneDevice

  /** One decoder stack: a layer's mixer with its residual, the program's share of its FFN, that share
      joined with the GPU's, and the FFN computed by the GPU alone. */
  datatype Stack<!H, !B, !S> = Stack(mix: (nat, H, S) -> (H, S), share: (nat, H) -> B, join: (nat, H, B) -> H,
                                     whole: (nat, H) -> H)

  /** The FFN split between GPU and ANE is the whole FFN. */
  ghost predicate Splits<H(!new), B(!new), S(!new)>(s: Stack<H, B, S>) {
    forall layer: nat, h: H :: s.join(layer, h, s.share(layer, h)) == s.whole(layer, h)
  }

  /** `n` layers over one half, one after the other; layer `i` touches only cache `i`. */
  function Layers<H, B, S>(s: Stack<H, B, S>, n: nat, h: H, st: seq<S>): (r: (H, seq<S>))
    requires n <= |st|
    ensures |r.1| == |st| && r.1[n..] == st[n..]
  {
    if n == 0 then (h, st)
    else
      var r := Layers(s, n - 1, h, st);
      var x := s.mix(n - 1, r.0, r.1[n - 1]);
      (s.whole(n - 1, x.0), r.1[n - 1 := x.1])
  }

  /** What the mixer of layer `n` hands to the FFN. */
  function Mixed<H, B, S>(s: Stack<H, B, S>, n: nat, h: H, st: seq<S>): (H, S)
    requires n < |st|
  {
    var r := Layers(s, n, h, st);
    s.mix(n, r.0, r.1[n])
  }

  lemma {:induction false} LayersLocal<H, B, S>(s: Stack<H, B, S>, n: nat, h: H, a: seq<S>, b: seq<S>)
    requires n <= |a| && |a| == |b| && a[..n] == b[..n]
    ensures Layers(s, n, h, a).0 == Layers(s, n, h, b).0 && Layers(s, n, h, a).1[..n] == Layers(s, n, h, b).1[..n]
  {
    if n > 0 {
      assert a[..n - 1] == a[..n][..n - 1] && b[..n - 1] == b[..n][..n - 1];
      LayersLocal(s, n - 1, h, a, b);
      assert a[n - 1] == a[..n][n - 1] && b[n - 1] == b[..n][n - 1];
      assert Layers(s, n - 1, h, a).1[n - 1] == a[n - 1];
      assert Layers(s, n - 1, h, b).1[n - 1] == b[n - 1];
    }
  }

  /** Later layers leave the caches of earlier ones. */
  lemma {:induction false} LayersPrefix<H, B, S>(s: Stack<H, B, S>, n: nat, k: nat, h: H, st: seq<S>)
    requires n <= k <= |st|
    ensures Layers(s, k, h, st).1[..n] == Layers(s, n, h, st).1[..n]
  {
    if n < k {
      LayersPrefix(s, n, k - 1, h, st);
      var r := Layers(s, k - 1, h, st).1;
      assert Layers(s, k, h, st).1[..n] == r[..n];
    }
  }

  /** Half A through every layer, then half B over the caches A left. */
  function Sequential<H, B, S>(s: Stack<H, B, S>, a: H, b: H, st: seq<S>): (H, H, seq<S>) {
    var ra := Layers(s, |st|, a, st);
    var rb := Layers(s, |st|, b, ra.1);
    (ra.0, rb.0, rb.1)
  }

  /** The hidden states between the layers: each is the FFN of what the mixer makes of the one before it
      and of the layer's own cache, which keeps what the mixer leaves. */
  lemma {:induction false} LayersTrace<H, B, S>(s: Stack<H, B, S>, n: nat, h: H, st: seq<S>) returns (hs: seq<H>)
    requires n <= |st|
    ensures |hs| == n + 1 && hs[0] == h && hs[n] == Layers(s, n, h, st).0
    ensures forall k :: 0 <= k < n ==> hs[k + 1] == s.whole(k, s.mix(k, hs[k], st[k]).0)
    ensures forall k :: 0 <= k < n ==> Layers(s, n, h, st).1[k] == s.mix(k, hs[k], st[k]).1
    ensures forall k :: n <= k < |st| ==> Layers(s, n, h, st).1[k] == st[k]
  {
    hs := [h];
    if n > 0 {
      var before := LayersTrace(s, n - 1, h, st);
      hs := before + [Layers(s, n, h, st).0];
    }
  }

  /** Half A's states over the caches as they were, and half B's over those A left. */
  lemma SequentialTrace<H, B, S>(s: Stack<H, B, S>, a: H, b: H, st: seq<S>)
    returns (as_: seq<H>, bs: seq<H>, mid: seq<S>)
    ensures |mid| == |st| && |as_| == |bs| == |st| + 1 && as_[0] == a && bs[0] == b
    ensures forall k :: 0 <= k < |st| ==> as_[k + 1] == s.whole(k, s.mix(k, as_[k], st[k]).0)
    ensures forall k :: 0 <= k < |st| ==> mid[k] == s.mix(k, as_[k], st[k]).1
    ensures forall k :: 0 <= k < |st| ==> bs[k + 1] == s.whole(k, s.mix(k, bs[k], mid[k]).0)
    ensures var r := Sequential(s, a, b, st);
            && (r.0, r.1) == (as_[|st|], bs[|st|]) && |r.2| == |st|
            && forall k :: 0 <= k < |st| ==> r.2[k] == s.mix(k, bs[k], mid[k]).1
  {
    as_ := LayersTrace(s, |st|, a, st);
    mid := Layers(s, |st|, a, st).1;
    bs := LayersTrace(s, |st|, b, mid);
  }

  /** A hidden state, or one that waits for a read of a program's output. */
  datatype Lazy<H> = Ready(h: H) | Share(layer: nat, h2: H, read: nat)

  ghost predicate Known<H, B>(v: Buffers<B>, x: Lazy<H>) {
    x.Share? ==> x.read < |v.owner|
  }

  /** The hidden state if it is evaluated now. */
  ghost function Value<H, B, S>(s: Stack<H, B, S>, v: Buffers<B>, x: Lazy<H>): H
    requires Sane(v) && Known(v, x)
  {
    match x
    case Ready(h) => h
    case Share(layer, h2, read) => s.join(layer, h2, ReadValue(v, read))
  }

  datatype Handle<H> = Handle(program: nat, layer: nat, h2: H)

  /** Evaluated reads and reads of other programs than `p` keep their values. */
  ghost predicate KeepsAllBut<B>(v: Buffers<B>, v': Buffers<B>, p: nat)
    requires Sane(v) && Sane(v')
  {
    && v.owner <= v'.owner && v.forced.Keys <= v'.forced.Keys
    && forall id :: 0 <= id < |v.owner| && (id in v'.forced || v.owner[id] != p) ==>
      ReadValue(v', id) == ReadValue(v, id)
  }

  const FFA: nat := 0
  const FFB: nat := 1

  method Force<H, B, S>(s: Stack<H, B, S>, dev: Device<H, B>, x: Lazy<H>) returns (h: H)
    requires dev.Valid() && Known(dev.Now(), x)
    modifies dev`forced
    ensures dev.Valid() && SameReads(old(dev.Now()), dev.Now())
    ensures h == old(Value(s, dev.Now(), x))
    ensures dev.forced.Keys == old(dev.forced).Keys + (if x.Share? then {x.read} else {})
  {
    match x
    case Ready(h0) => h := h0;
    case Share(layer, h2, read) =>
      dev.Eval(read);
      h := s.join(layer, h2, dev.forced[read]);
  }

  /** `_ffn_begin` on a layer's mixer: staging evaluates the half that enters the layer before the
      program's next run overwrites its output. */
  method Begin<H, B, S>(s: Stack<H, B, S>, dev: Device<H, B>, p: nat, layer: nat, x: Lazy<H>, store: S, noise: B)
    returns (handle: Handle<H>, store': S)
    requires dev.Valid() && Known(dev.Now(), x) && p < |dev.outputs| && !dev.running[p]
    modifies dev`forced, dev`outputs, dev`running, dev`staged
    ensures dev.Valid() && (handle.h2, store') == s.mix(layer, old(Value(s, dev.Now(), x)), store)
    ensures handle.program == p && handle.layer == layer
    ensures dev.running == old(dev.running)[p := true] && dev.staged == old(dev.staged)[p := Some((layer, handle.h2))]
    ensures dev.outputs == old(dev.outputs)[p := noise]
    ensures dev.forced.Keys == old(dev.forced).Keys + (if x.Share? then {x.read} else {})
    ensures KeepsAllBut(old(dev.Now()), dev.Now(), p) && dev.owner == old(dev.owner)
  {
    var h := Force(s, dev, x);
    label staged:
    var r := s.mix(layer, h, store);
    handle, store' := Handle(p, layer, r.0), r.1;
    dev.Start(p, layer, r.0, noise);
  }

  /** `_ffn_end`: join the run; if it failed the GPU computes the program's share too. */
  method End<H(!new), B(!new), S(!new)>(s: Stack<H, B, S>, dev: Device<H, B>, handle: Handle<H>, failed: bool)
    returns (x: Lazy<H>)
    requires Splits(s) && dev.Valid() && handle.program < |dev.outputs| && dev.running[handle.program]
    requires dev.staged[handle.program] == Some((handle.layer, handle.h2))
    modifies dev`outputs, dev`running, dev`owner
    ensures dev.Valid() && dev.running == old(dev.running)[handle.program := false]
    ensures dev.outputs == old(dev.outputs)[handle.program := if failed then old(dev.outputs)[handle.program]
                                                              else s.share(handle.layer, handle.h2)]
    ensures dev.owner == old(dev.owner) + (if failed then [] else [handle.program])
    ensures x == if failed then Ready(s.whole(handle.layer, handle.h2))
                 else Share(handle.layer, handle.h2, |old(dev.owner)|)
    ensures Known(dev.Now(), x) && Value(s, dev.Now(), x) == s.whole(handle.layer, handle.h2)
    ensures KeepsAllBut(old(dev.Now()), dev.Now(), handle.program)
  {
    dev.Join(handle.program, s.share, failed);
    if failed {
      return Ready(s.whole(handle.layer, handle.h2));
    }
    var read := dev.Read(handle.program);
    x := Share(handle.layer, handle.h2, read);
  }

  /** Reads of other programs, and reads evaluated before, keep their values. */
  ghost predicate Undisturbed<B>(v: Buffers<B>, v': Buffers<B>)
    requires Sane(v) && Sane(v')
  {
    && v.owner <= v'.owner && v.forced.Keys <= v'.forced.Keys
    && forall id :: 0 <= id < |v.owner| && (id in v.forced || v.owner[id] > FFB) ==>
      ReadValue(v', id) == ReadValue(v, id)
  }

  /** Every read since `start` has been evaluated, except the one `x` and `y` may wait for. */
  ghost predicate AllForcedBut<H, B>(v: Buffers<B>, start: nat, x: Lazy<H>, y: Lazy<H>) {
    forall id :: start <= id < |v.owner| && id !in v.forced ==> (x.Share? && x.read == id) || (y.Share? && y.read == id)
  }

  /** No read from before `start` has been evaluated. */
  ghost predicate NotForced<B>(v: Buffers<B>, v': Buffers<B>, start: nat) {
    forall id :: 0 <= id < start && id in v'.forced ==> id in v.forced
  }

  ghost predicate ReadsFrom<H, B>(v: Buffers<B>, start: nat, x: Lazy<H>, p: nat) {
    x.Share? ==> start <= x.read < |v.owner| && v.owner[x.read] == p
  }

  ghost predicate Paired<H, B>(dev: Device<H, B>)
    reads dev
  {
    dev.Valid() && |dev.outputs| > FFB
  }

  /** `x` is FFN input `h2` of a layer, still to be joined with its program's share. */
  ghost predicate Waits<H, B>(dev: Device<H, B>, x: Lazy<H>, layer: nat, h2: H)
    reads dev
  {
    x.Share? && x.layer == layer && x.h2 == h2 && x.read < |dev.owner| && x.read !in dev.forced
  }

  /** Half B of a layer: its previous run is joined, its next one starts. */
  method HalfB<H(!new), B(!new), S(!new)>(s: Stack<H, B, S>, dev: Device<H, B>, layer: nat, pendB: Option<Handle<H>>,
                                          b: H, store: S,
                                          failed: bool, noise: B)
    returns (pendB': Handle<H>, store': S)
    requires Splits(s) && Paired(dev) && dev.running[FFB] == pendB.Some?
    requires pendB.Some? ==> pendB.value.program == FFB && dev.staged[FFB] == Some((pendB.value.layer, pendB.value.h2))
    modifies dev
    ensures Paired(dev) && dev.running == old(dev.running)[FFB := true]
    ensures dev.staged == old(dev.staged)[FFB := Some((layer, pendB'.h2))]
    ensures |dev.outputs| == |old(dev.outputs)| && dev.outputs[FFA] == old(dev.outputs[FFA])
    ensures var hb := if pendB.Some? then s.whole(pendB.value.layer, pendB.value.h2) else b;
            pendB' == Handle(FFB, layer, s.mix(layer, hb, store).0) && store' == s.mix(layer, hb, store).1
    ensures KeepsAllBut(old(dev.Now()), dev.Now(), FFB) && NotForced(old(dev.Now()), dev.Now(), |old(dev.owner)|)
    ensures forall id :: |old(dev.owner)| <= id < |dev.owner| ==> id in dev.forced
  {
    hide Splits;
    var hb := Ready(b);
    if pendB.Some? {
      hb := End(s, dev, pendB.value, failed);
    }
    pendB', store' := Begin(s, dev, FFB, layer, hb, store, noise);
  }

  /** One layer of the pipeline: A's run starts, B's previous run is joined, B's next run starts over
      the cache A left, A's run is joined. */
  method LayerStep<H(!new), B(!new), S(!new)>(s: Stack<H, B, S>, dev: Device<H, B>, layer: nat, ha: Lazy<H>,
                                              pendB: Option<Handle<H>>,
                                              b: H, store: S, fails: (nat, nat) -> bool, noise: (nat, nat) -> B,
                                              ghost start: nat)
    returns (ha': Lazy<H>, pendB': Handle<H>, store': S)
    requires Splits(s) && Paired(dev) && !dev.running[FFA] && dev.running[FFB] == pendB.Some? && start <= |dev.owner|
    requires pendB.Some? ==> pendB.value.program == FFB && dev.staged[FFB] == Some((pendB.value.layer, pendB.value.h2))
    requires ReadsFrom(dev.Now(), start, ha, FFA) && AllForcedBut(dev.Now(), start, ha, ha)
    modifies dev
    ensures Paired(dev) && |dev.outputs| == |old(dev.outputs)| && !dev.running[FFA] && dev.running[FFB]
    ensures Undisturbed(old(dev.Now()), dev.Now()) && NotForced(old(dev.Now()), dev.Now(), start)
    ensures AllForcedBut(dev.Now(), start, ha', ha') && ReadsFrom(dev.Now(), start, ha', FFA)
    ensures var xa := s.mix(layer, old(Value(s, dev.Now(), ha)), store);
            var hb := if pendB.Some? then s.whole(pendB.value.layer, pendB.value.h2) else b;
            var xb := s.mix(layer, hb, xa.1);
            && Value(s, dev.Now(), ha') == s.whole(layer, xa.0)
            && pendB' == Handle(FFB, layer, xb.0) && store' == xb.1
            && dev.staged[FFB] == Some((layer, xb.0))
            && (!fails(FFA, layer) ==> Waits(dev, ha', layer, xa.0) && dev.outputs[FFA] == s.share(layer, xa.0))
  {
    hide Splits;
    var ra, st;
    ra, st := Begin(s, dev, FFA, layer, ha, store, noise(FFA, layer));
    var failedB := pendB.Some? && fails(FFB, pendB.value.layer);
    pendB', store' := HalfB(s, dev, layer, pendB, b, st, failedB, noise(FFB, layer));
    ha' := End(s, dev, ra, fails(FFA, layer));
  }

  /** The caches after `k` pipelined layers: both halves have gone through the first `k`. */
  ghost predicate StoresAt<H, B, S>(s: Stack<H, B, S>, k: nat, a: H, b: H, st0: seq<S>, st: seq<S>)
    requires k <= |st0|
  {
    && |st| == |st0| && st[k..] == st0[k..]
    && st[..k] == Layers(s, k, b, Layers(s, |st0|, a, st0).1).1[..k]
  }

  /** One more layer: A and then B through cache `k`. */
  lemma StoresStep<H, B, S>(s: Stack<H, B, S>, k: nat, a: H, b: H, st0: seq<S>, st: seq<S>)
    requires k < |st0| && StoresAt(s, k, a, b, st0, st)
    ensures var xa := s.mix(k, Layers(s, k, a, st0).0, st[k]);
            var stA := Layers(s, |st0|, a, st0).1;
            var xb := s.mix(k, Layers(s, k, b, stA).0, xa.1);
            && Layers(s, k + 1, a, st0).0 == s.whole(k, xa.0)
            && Layers(s, k + 1, b, stA).0 == s.whole(k, xb.0)
            && xb.0 == Mixed(s, k, b, stA).0
            && StoresAt(s, k + 1, a, b, st0, st[k := xb.1])
  {
    var n, stA := |st0|, Layers(s, |st0|, a, st0).1;
    assert st[k] == st[k..][0] == st0[k..][0] == st0[k];
    assert Layers(s, k, a, st0).1[k] == Layers(s, k, a, st0).1[k..][0] == st0[k];
    LayersPrefix(s, k + 1, n, a, st0);
    assert stA[k] == stA[..k + 1][k] == Layers(s, k + 1, a, st0).1[..k + 1][k];
    var rb := Layers(s, k, b, stA);
    assert rb.1[k] == rb.1[k..][0] == stA[k..][0] == stA[k];
    var xb := s.mix(k, rb.0, stA[k]);
    var st' := st[k := xb.1];
    assert st'[k + 1..] == st[k..][1..] == st0[k + 1..];
    assert st'[..k + 1] == st[..k] + [xb.1];
    assert Layers(s, k + 1, b, stA).1[..k + 1] == rb.1[..k] + [xb.1];
  }

  lemma CoreStart<H, B, S>(s: Stack<H, B, S>, a: H, b: H, st: seq<S>)
    ensures Layers(s, 0, a, st).0 == a && Layers(s, 0, b, Layers(s, |st|, a, st).1).0 == b
    ensures StoresAt(s, 0, a, b, st, st)
  {
  }

  lemma CoreEnd<H, B, S>(s: Stack<H, B, S>, a: H, b: H, st0: seq<S>, st: seq<S>)
    requires StoresAt(s, |st0|, a, b, st0, st)
    ensures st == Layers(s, |st0|, b, Layers(s, |st0|, a, st0).1).1
  {
    var r := Layers(s, |st0|, b, Layers(s, |st0|, a, st0).1).1;
    assert st[..|st0|] == st && r[..|st0|] == r;
  }

  /** What the mixer adds to a half in layer `k` of the pipeline. */
  lemma MixedIs<H, B, S>(s: Stack<H, B, S>, k: nat, a: H, b: H, st0: seq<S>, st: seq<S>)
    requires k < |st0| && StoresAt(s, k, a, b, st0, st)
    ensures s.mix(k, Layers(s, k, a, st0).0, st[k]).0 == Mixed(s, k, a, st0).0
  {
    assert st[k] == st[k..][0] == st0[k..][0] == st0[k];
    assert Layers(s, k, a, st0).1[k] == Layers(s, k, a, st0).1[k..][0] == st0[k];
  }

  /** `_pipeline_core`: the interleaved schedule gives the outputs and the caches of half A followed by
      half B, whichever runs fail; what was read before the call and evaluated stays, and every read
      made in it but the two returned is evaluated before its program runs again. */
  method PipelineCore<H(!new), B(!new), S(!new)>(s: Stack<H, B, S>, dev: Device<H, B>, a: H, b: H, stores: seq<S>,
                                                 fails: (nat, nat) -> bool, noise: (nat, nat) -> B)
    returns (ha: Lazy<H>, hb: Lazy<H>, stores': seq<S>)
    requires Splits(s) && stores != [] && Paired(dev) && !dev.running[FFA] && !dev.running[FFB]
    modifies dev
    ensures Paired(dev) && !dev.running[FFA] && !dev.running[FFB]
    ensures Known(dev.Now(), ha) && Known(dev.Now(), hb)
    ensures (Value(s, dev.Now(), ha), Value(s, dev.Now(), hb), stores') == Sequential(s, a, b, stores)
    ensures Undisturbed(old(dev.Now()), dev.Now()) && AllForcedBut(dev.Now(), |old(dev.owner)|, ha, hb)
    ensures var n, x := |stores| - 1, Mixed(s, |stores| - 1, a, stores).0;
            !fails(FFA, n) ==> Waits(dev, ha, n, x) && dev.outputs[FFA] == s.share(n, x)
    ensures var n, x := |stores| - 1, Mixed(s, |stores| - 1, b, Layers(s, |stores|, a, stores).1).0;
            !fails(FFB, n) ==> Waits(dev, hb, n, x) && dev.outputs[FFB] == s.share(n, x)
    ensures ReadsFrom(dev.Now(), |old(dev.owner)|, ha, FFA) && ReadsFrom(dev.Now(), |old(dev.owner)|, hb, FFB)
    ensures NotForced(old(dev.Now()), dev.Now(), |old(dev.owner)|)
  {
    hide Splits, Layers, StoresAt, Mixed;
    ghost var stA, start := Layers(s, |stores|, a, stores).1, |dev.owner|;
    ha, hb, stores' := Ready(a), Ready(b), stores;
    var pendB: Option<Handle<H>> := None;
    CoreStart(s, a, b, stores);
    var k := 0;
    while k < |stores|
      invariant k <= |stores| && Paired(dev) && !dev.running[FFA] && dev.running[FFB] == (k > 0) == pendB.Some?
      invariant pendB.Some? ==>
                && pendB.value.program == FFB && pendB.value.layer == k - 1
                && dev.staged[FFB] == Some((k - 1, pendB.value.h2))
      invariant pendB.Some? ==> pendB.value.h2 == Mixed(s, k - 1, b, stA).0
      invariant (if pendB.Some? then s.whole(k - 1, pendB.value.h2) else b) == Layers(s, k, b, stA).0
      invariant start <= |dev.owner| && ReadsFrom(dev.Now(), start, ha, FFA)
      invariant Value(s, dev.Now(), ha) == Layers(s, k, a, stores).0
      invariant |stores'| == |stores| && StoresAt(s, k, a, b, stores, stores')
      invariant k > 0 && !fails(FFA, k - 1) ==>
                  var x := Mixed(s, k - 1, a, stores).0;
                  Waits(dev, ha, k - 1, x) && dev.outputs[FFA] == s.share(k - 1, x)
      invariant Undisturbed(old(dev.Now()), dev.Now()) && AllForcedBut(dev.Now(), start, ha, ha)
      invariant NotForced(old(dev.Now()), dev.Now(), start)
    {
      StoresStep(s, k, a, b, stores, stores');
      MixedIs(s, k, a, b, stores, stores');
      var pend, store;
      ha, pend, store := LayerStep(s, dev, k, ha, pendB, b, stores'[k], fails, noise, start);
      pendB, stores' := Some(pend), stores'[k := store];
      k := k + 1;
    }
    CoreEnd(s, a, b, stores, stores');
    hb := End(s, dev, pendB.value, fails(FFB, |stores| - 1));
  }

  /** What the long-context split joins the rows of the first piece with in the last layer: the ANE
      share of the second piece's rows, half by half. */
  ghost function LateJoin<H, B, S>(s: Stack<H, B, S>, a1: H, b1: H, a2: H, b2: H, st: seq<S>): (r: (H, H))
    requires st != []
  {
    var n, between := |st| - 1, Sequential(s, a1, b1, st).2;
    var xa, xb := Mixed(s, n, a1, st).0, Mixed(s, n, b1, Layers(s, |st|, a1, st).1).0;
    var ya, yb := Mixed(s, n, a2, between).0, Mixed(s, n, b2, Layers(s, |st|, a2, between).1).0;
    (s.join(n, xa, s.share(n, ya)), s.join(n, xb, s.share(n, yb)))
  }

  /** The long-context split: two pieces, each pipelined as two halves, the second started before the
      first is evaluated. The second piece and the caches are right; both halves of the first piece join
      their own rows with the ANE share of the second piece's rows, so that the first piece is right
      exactly when that makes no difference. */
  method LongSplit<H(!new), B(!new), S(!new)>(s: Stack<H, B, S>, dev: Device<H, B>, a1: H, b1: H, a2: H, b2: H,
                                              stores: seq<S>,
                                              noise: (nat, nat) -> B)
    returns (ha1: Lazy<H>, hb1: Lazy<H>, ha2: Lazy<H>, hb2: Lazy<H>, stores': seq<S>)
    requires Splits(s) && stores != [] && Paired(dev) && !dev.running[FFA] && !dev.running[FFB]
    modifies dev
    ensures Paired(dev) && Known(dev.Now(), ha1) && Known(dev.Now(), hb1) && Known(dev.Now(), ha2)
    ensures Known(dev.Now(), hb2)
    ensures (Value(s, dev.Now(), ha2), Value(s, dev.Now(), hb2), stores')
              == Sequential(s, a2, b2, Sequential(s, a1, b1, stores).2)
    ensures (Value(s, dev.Now(), ha1), Value(s, dev.Now(), hb1)) == LateJoin(s, a1, b1, a2, b2, stores)
  {
    hide Splits, Mixed, Sequential, AllForcedBut, Layers;
    var between;
    ha1, hb1, between := PipelineCore(s, dev, a1, b1, stores, (p, k) => false, noise);
    SameCaches(s, a1, b1, stores);
    ha2, hb2, stores' := PipelineCore(s, dev, a2, b2, between, (p, k) => false, noise);
    assert ha1.read !in dev.forced && hb1.read !in dev.forced;
  }

  /** The schedule that is right: evaluate the first piece before the second one starts. */
  method LongSplitForced<H(!new), B(!new), S(!new)>(s: Stack<H, B, S>, dev: Device<H, B>, a1: H, b1: H, a2: H, b2: H,
                                                    stores: seq<S>,
                                                    fails: (nat, nat) -> bool, noise: (nat, nat) -> B)
    returns (ha1: H, hb1: H, ha2: Lazy<H>, hb2: Lazy<H>, stores': seq<S>)
    requires Splits(s) && stores != [] && Paired(dev) && !dev.running[FFA] && !dev.running[FFB]
    modifies dev
    ensures Paired(dev) && Known(dev.Now(), ha2) && Known(dev.Now(), hb2)
    ensures var first := Sequential(s, a1, b1, stores);
            && (ha1, hb1) == (first.0, first.1)
            && (Value(s, dev.Now(), ha2), Value(s, dev.Now(), hb2), stores') == Sequential(s, a2, b2, first.2)
  {
    hide Splits, Mixed, Sequential, AllForcedBut, Layers;
    var x, y, between := PipelineCore(s, dev, a1, b1, stores, fails, noise);
    SameCaches(s, a1, b1, stores);
    ha1 := Force(s, dev, x);
    hb1 := Force(s, dev, y);
    ha2, hb2, stores' := PipelineCore(s, dev, a2, b2, between, fails, noise);
  }

  /** A join from which the share can be told, as a sum is, makes the split right exactly when the two
      pieces have the same shares in the last layer. */
  lemma LongSplitRight<H(!new), B(!new), S(!new)>(s: Stack<H, B, S>, a1: H, b1: H, a2: H, b2: H, st: seq<S>)
    requires Splits(s) && st != []
    requires forall layer: nat, h: H, o: B, o': B :: s.join(layer, h, o) == s.join(layer, h, o') ==> o == o'
    ensures var n, first := |st| - 1, Sequential(s, a1, b1, st);
            LateJoin(s, a1, b1, a2, b2, st) == (first.0, first.1) <==>
              && s.share(n, Mixed(s, n, a1, st).0) == s.share(n, Mixed(s, n, a2, first.2).0)
              && s.share(n, Mixed(s, n, b1, Layers(s, |st|, a1, st).1).0)
                   == s.share(n, Mixed(s, n, b2, Layers(s, |st|, a2, first.2).1).0)
  {
    SameCaches(s, a1, b1, st);
    LastLayer(s, a1, st);
    LastLayer(s, b1, Layers(s, |st|, a1, st).1);
    hide Layers, Mixed;
  }

  lemma LastLayer<H(!new), B(!new), S(!new)>(s: Stack<H, B, S>, h: H, st: seq<S>)
    requires Splits(s) && st != []
    ensures var n := |st| - 1; var x := Mixed(s, n, h, st).0; Layers(s, |st|, h, st).0 == s.join(n, x, s.share(n, x))
  {
  }

  lemma SameCaches<H, B, S>(s: Stack<H, B, S>, a: H, b: H, st: seq<S>)
    ensures |Sequential(s, a, b, st).2| == |st|
  {
  }

  /** One layer whose FFN doubles: both halves of the first piece should be 2, and are 6. */
  lemma LongSplitIsWrong()
    ensures var s := Stack((l: nat, h: int, c: int) => (h, c), (l: nat, h: int) => h, (l: nat, h: int, o: int) => h + o,
                           (l: nat, h: int) => 2 * h);
            && Splits(s) && Sequential(s, 1, 1, [0]).0 == Sequential(s, 1, 1, [0]).1 == 2
            && LateJoin(s, 1, 1, 5, 5, [0]) == (6, 6)
  {
    var s := Stack((l: nat, h: int, c: int) => (h, c), (l: nat, h: int) => h, (l: nat, h: int, o: int) => h + o,
                   (l: nat, h: int) => 2 * h);
    forall h: int, st: seq<int> | |st| == 1
      ensures Layers(s, 1, h, st) == (2 * h, st) && Mixed(s, 0, h, st).0 == h
    {
      assert Layers(s, 0, h, st) == (h, st);
      assert st[0 := st[0]] == st;
    }
  }

  /* ---- one wide call as row blocks ---- */

  function MapRows<R, T>(f: R -> T, xs: seq<R>): (ys: seq<T>)
    ensures |ys| == |xs| && forall i :: 0 <= i < |xs| ==> ys[i] == f(xs[i])
  {
    seq(|xs|, i requires 0 <= i < |xs| => f(xs[i]))
  }

  function JoinRows<R, O>(join: (R, O) -> R, xs: seq<R>, os: seq<O>): (ys: seq<R>)
    ensures |ys| == |xs| && forall i :: 0 <= i < |xs| && i < |os| ==> ys[i] == join(xs[i], os[i])
  {
    seq(|xs|, i requires 0 <= i < |xs| => if i < |os| then join(xs[i], os[i]) else xs[i])
  }

  /** A row-wise FFN as a stack of one layer without a mixer. */
  function RowStack<R, O>(share: R -> O, join: (R, O) -> R, whole: R -> R): Stack<seq<R>, seq<O>, ()> {
    Stack((l: nat, xs: seq<R>, c: ()) => (xs, c), (l: nat, xs: seq<R>) => MapRows(share, xs),
      (l: nat, xs: seq<R>, os: seq<O>) => JoinRows(join, xs, os), (l: nat, xs: seq<R>) => MapRows(whole, xs))
  }

  lemma RowsSplit<R(!new), O(!new)>(share: R -> O, join: (R, O) -> R, whole: R -> R)
    requires forall x :: join(x, share(x)) == whole(x)
    ensures Splits(RowStack(share, join, whole))
  {
    var s := RowStack(share, join, whole);
    forall layer: nat, xs: seq<R>
      ensures s.join(layer, xs, s.share(layer, xs)) == s.whole(layer, xs)
    {
      assert JoinRows(join, xs, MapRows(share, xs)) == MapRows(whole, xs);
    }
  }

  /** One call on rows the program holds, run and joined at once. */
  method FfnCall<H(!new), B(!new), S(!new)>(s: Stack<H, B, S>, dev: Device<H, B>, x: H, failed: bool, noise: B)
    returns (y: Lazy<H>)
    requires Splits(s) && dev.Valid() && FFA < |dev.outputs| && !dev.running[FFA]
    modifies dev
    ensures dev.Valid() && |dev.outputs| == |old(dev.outputs)| && !dev.running[FFA]
    ensures Known(dev.Now(), y) && Value(s, dev.Now(), y) == s.whole(0, x)
  {
    dev.Start(FFA, 0, x, noise);
    y := End(s, dev, Handle(FFA, 0, x), failed);
  }

  /** The row-block split: each block is evaluated before the next one runs, so every row gets its own
      FFN. After a failed run the remaining blocks are computed by the GPU. */
  method RowBlocks<R(!new), O(!new)>(share: R -> O, join: (R, O) -> R, whole: R -> R, dev: Device<seq<R>, seq<O>>,
                                     x: seq<R>,
                                     step: nat, fails: nat -> bool, noise: nat -> seq<O>) returns (y: seq<R>)
    requires step >= 1 && forall r :: join(r, share(r)) == whole(r)
    requires dev.Valid() && FFA < |dev.outputs| && !dev.running[FFA]
    modifies dev
    ensures y == MapRows(whole, x)
  {
    hide Splits;
    RowsSplit(share, join, whole);
    var s, disabled, a := RowStack(share, join, whole), false, 0;
    y := [];
    while a < |x|
      invariant a <= |x| && y == MapRows(whole, x[..a])
      invariant dev.Valid() && FFA < |dev.outputs| && !dev.running[FFA]
    {
      var end := if a + step < |x| then a + step else |x|;
      var part := Ready(MapRows(whole, x[a..end]));
      if !disabled {
        part := FfnCall(s, dev, x[a..end], fails(a), noise(a));
        disabled := fails(a);
      }
      assert Value(s, dev.Now(), part) == MapRows(whole, x[a..end]);
      var block := Force(s, dev, part);
      assert MapRows(whole, x[..end]) == MapRows(whole, x[..a]) + MapRows(whole, x[a..end]);
      y, a := y + block, end;
    }
    assert x[..|x|] == x;
  }
}
