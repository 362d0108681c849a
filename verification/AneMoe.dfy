/** The GDN and attention projections of a prefill chunk on the ANE, two halves pipelined. */
module AneMoe {
  import opened Wrappers
  import opened AneDevice
  import opened AnePipeline

  /** A decoder layer split at its projection, and the layer computed by the GPU alone. */
  datatype Blocks<!H, !B, !S> = Blocks(project: (nat, H) -> B, rest: (nat, H, B, S) -> (H, S),
                                       whole: (nat, H, S) -> (H, S))

  ghost predicate Agrees<H(!new), B(!new), S(!new)>(bl: Blocks<H, B, S>) {
    forall layer: nat, h: H, c: S :: bl.rest(layer, h, bl.project(layer, h), c) == bl.whole(layer, h, c)
  }

  /** The same layers as a stack whose mixer is the whole layer. */
  function AsStack<H, B, S>(bl: Blocks<H, B, S>): Stack<H, B, S> {
    Stack(bl.whole, bl.project, (l: nat, h: H, o: B) => h, (l: nat, h: H) => h)
  }

  /** A half of the chunk as the graph that would compute it: a layer over copied program output, or a
      layer on the GPU, each over the half and the cache before it. */
  datatype Node<H, S> =
    | Entry(h: H)
    | Projected(layer: nat, prev: Node<H, S>, read: nat, cell: Cell<H, S>)
    | OnGpu(layer: nat, prev: Node<H, S>, cell: Cell<H, S>)

  /** A layer's cache: as it was, or as the layer over one more half leaves it. */
  datatype Cell<H, S> = Kept(c: S) | Left(from: Node<H, S>)

  ghost predicate KnownNode<H, S>(n: nat, x: Node<H, S>) {
    match x
    case Entry(_) => true
    case Projected(_, prev, read, cell) => read < n && KnownNode(n, prev) && KnownCell(n, cell)
    case OnGpu(_, prev, cell) => KnownNode(n, prev) && KnownCell(n, cell)
  }

  ghost predicate KnownCell<H, S>(n: nat, c: Cell<H, S>) {
    c.Left? ==> !c.from.Entry? && KnownNode(n, c.from)
  }

  /** Evaluating a node now. */
  ghost function Out<H, B, S>(bl: Blocks<H, B, S>, v: Buffers<B>, x: Node<H, S>): H
    requires Sane(v) && KnownNode(|v.owner|, x)
  {
    if x.Entry? then x.h else Both(bl, v, x).0
  }

  ghost function Both<H, B, S>(bl: Blocks<H, B, S>, v: Buffers<B>, x: Node<H, S>): (H, S)
    requires Sane(v) && KnownNode(|v.owner|, x) && !x.Entry?
  {
    match x
    case Projected(layer, prev, read, cell) =>
      bl.rest(layer, if prev.Entry? then prev.h else Both(bl, v, prev).0, ReadValue(v, read), Cache(bl, v, cell))
    case OnGpu(layer, prev, cell) =>
      bl.whole(layer, if prev.Entry? then prev.h else Both(bl, v, prev).0, Cache(bl, v, cell))
  }

  ghost function Cache<H, B, S>(bl: Blocks<H, B, S>, v: Buffers<B>, c: Cell<H, S>): S
    requires Sane(v) && KnownCell(|v.owner|, c)
  {
    match c
    case Kept(s) => s
    case Left(x) => Both(bl, v, x).1
  }

  /** If no read changes its value, no node does. */
  lemma {:induction false} NodesStay<H, B, S>(bl: Blocks<H, B, S>, v: Buffers<B>, v': Buffers<B>, x: Node<H, S>)
    requires Sane(v) && Sane(v') && SameReads(v, v') && KnownNode(|v.owner|, x)
    ensures KnownNode(|v'.owner|, x) && Out(bl, v', x) == Out(bl, v, x)
    ensures !x.Entry? ==> Both(bl, v', x) == Both(bl, v, x)
    decreases x
  {
    if !x.Entry? {
      NodesStay(bl, v, v', x.prev);
      CellsStay(bl, v, v', x.cell);
    }
  }

  lemma {:induction false} CellsStay<H, B, S>(bl: Blocks<H, B, S>, v: Buffers<B>, v': Buffers<B>, c: Cell<H, S>)
    requires Sane(v) && Sane(v') && SameReads(v, v') && KnownCell(|v.owner|, c)
    ensures KnownCell(|v'.owner|, c) && Cache(bl, v', c) == Cache(bl, v, c)
    decreases c
  {
    if c.Left? {
      NodesStay(bl, v, v', c.from);
    }
  }

  /** Only `copied` is still to be evaluated. */
  ghost predicate AllBut<B>(v: Buffers<B>, copied: Option<nat>) {
    forall id :: 0 <= id < |v.owner| && id !in v.forced ==> copied == Some(id)
  }

  /** Evaluate a half: every read in its graph is evaluated with it. */
  method EvalNode<H, B, S>(bl: Blocks<H, B, S>, dev: Device<H, B>, x: Node<H, S>) returns (h: H, c: Option<S>)
    requires dev.Valid() && KnownNode(|dev.owner|, x)
    modifies dev`forced
    ensures dev.Valid() && SameReads(old(dev.Now()), dev.Now()) && old(dev.forced).Keys <= dev.forced.Keys
    ensures h == old(Out(bl, dev.Now(), x)) && (x.Entry? <==> c.None?)
    ensures (c.Some? ==> (h, c.value) == old(Both(bl, dev.Now(), x)))
    decreases x
  {
    ghost var v0 := dev.Now();
    match x
    case Entry(h0) => h, c := h0, None;
    case Projected(layer, prev, read, cell) =>
      var p, _ := EvalNode(bl, dev, prev);
      CellsStay(bl, v0, dev.Now(), cell);
      var s := EvalCell(bl, dev, cell);
      dev.Eval(read);
      var r := bl.rest(layer, p, dev.forced[read], s);
      h, c := r.0, Some(r.1);
    case OnGpu(layer, prev, cell) =>
      var p, _ := EvalNode(bl, dev, prev);
      CellsStay(bl, v0, dev.Now(), cell);
      var s := EvalCell(bl, dev, cell);
      var r := bl.whole(layer, p, s);
      h, c := r.0, Some(r.1);
  }

  method EvalCell<H, B, S>(bl: Blocks<H, B, S>, dev: Device<H, B>, cell: Cell<H, S>) returns (s: S)
    requires dev.Valid() && KnownCell(|dev.owner|, cell)
    modifies dev`forced
    ensures dev.Valid() && SameReads(old(dev.Now()), dev.Now()) && old(dev.forced).Keys <= dev.forced.Keys
    ensures s == old(Cache(bl, dev.Now(), cell))
    decreases cell
  {
    match cell
    case Kept(s0) => s := s0;
    case Left(x) =>
      var _, c := EvalNode(bl, dev, x);
      s := c.value;
  }

  const LIN: nat := 0
  const ATTN: nat := 1

  ghost predicate Idle<H, B>(dev: Device<H, B>)
    reads dev
  {
    dev.Valid() && |dev.outputs| > ATTN && !dev.running[LIN] && !dev.running[ATTN]
  }

  /** Stage a half's projection, evaluating it and the last copied output, then run the program. */
  method RunProjection<H, B, S>(bl: Blocks<H, B, S>, dev: Device<H, B>, p: nat, layer: nat, x: Node<H, S>,
                                copied: Option<nat>, noise: B)
    returns (read: nat)
    requires Idle(dev) && p <= ATTN && KnownNode(|dev.owner|, x)
    requires AllBut(dev.Now(), copied) && (copied.Some? ==> copied.value < |dev.owner|)
    modifies dev
    ensures Idle(dev) && SameReads(old(dev.Now()), dev.Now())
    ensures read < |dev.owner| && AllBut(dev.Now(), Some(read))
    ensures ReadValue(dev.Now(), read) == bl.project(layer, old(Out(bl, dev.Now(), x)))
  {
    var h, _ := EvalNode(bl, dev, x);
    if copied.Some? {
      dev.Eval(copied.value);
    }
    assert NonePending(dev.Now(), p);
    dev.Start(p, layer, h, noise);
    dev.Join(p, bl.project, false);
    read := dev.Read(p);
  }

  /** A layer whose projection is on program `p`: A's run, then B's over the cache A leaves. */
  method ProjectedLayer<H(!new), B(!new), S(!new)>(bl: Blocks<H, B, S>, dev: Device<H, B>, p: nat, layer: nat,
                                                   ha: Node<H, S>, hb: Node<H, S>,
                                                   cell: Cell<H, S>, copied: Option<nat>, noise: (nat, nat) -> B)
    returns (ha': Node<H, S>, hb': Node<H, S>, copied': Option<nat>)
    requires Agrees(bl) && Idle(dev) && p <= ATTN
    requires KnownNode(|dev.owner|, ha) && KnownNode(|dev.owner|, hb) && KnownCell(|dev.owner|, cell)
    requires AllBut(dev.Now(), copied) && (copied.Some? ==> copied.value < |dev.owner|)
    modifies dev
    ensures Idle(dev) && SameReads(old(dev.Now()), dev.Now())
    ensures AllBut(dev.Now(), copied') && (copied'.Some? ==> copied'.value < |dev.owner|)
    ensures KnownNode(|dev.owner|, ha') && KnownNode(|dev.owner|, hb') && !ha'.Entry? && !hb'.Entry?
    ensures var v := old(dev.Now());
            && Both(bl, dev.Now(), ha') == bl.whole(layer, Out(bl, v, ha), Cache(bl, v, cell))
            && Both(bl, dev.Now(), hb') == bl.whole(layer, Out(bl, v, hb), Both(bl, dev.Now(), ha').1)
  {
    ghost var v := dev.Now();
    var ra := RunProjection(bl, dev, p, layer, ha, copied, noise(layer, 0));
    ghost var v1 := dev.Now();
    NodesStay(bl, v, v1, ha);
    NodesStay(bl, v, v1, hb);
    CellsStay(bl, v, v1, cell);
    ha' := Projected(layer, ha, ra, cell);
    assert Both(bl, v1, ha') == bl.rest(layer, Out(bl, v, ha), bl.project(layer, Out(bl, v, ha)), Cache(bl, v, cell));
    var rb := RunProjection(bl, dev, p, layer, hb, Some(ra), noise(layer, 1));
    NodesStay(bl, v1, dev.Now(), ha');
    NodesStay(bl, v1, dev.Now(), hb);
    hb' := Projected(layer, hb, rb, Left(ha'));
    copied' := Some(rb);
    assert Both(bl, dev.Now(), hb') == bl.rest(layer, Out(bl, v, hb), bl.project(layer, Out(bl, v, hb)),
                                               Both(bl, dev.Now(), ha').1);
  }

  /** Where a layer's projection runs. */
  datatype Place = OnLin | OnAttn | OnTheGpu

  ghost predicate CellsKnown<H, S>(n: nat, cells: seq<Cell<H, S>>) {
    forall i :: 0 <= i < |cells| ==> KnownCell(n, cells[i])
  }

  ghost function Caches<H, B, S>(bl: Blocks<H, B, S>, v: Buffers<B>, cells: seq<Cell<H, S>>): (r: seq<S>)
    requires Sane(v) && CellsKnown(|v.owner|, cells)
  {
    seq(|cells|, i requires 0 <= i < |cells| => Cache(bl, v, cells[i]))
  }

  lemma CachesStay<H, B, S>(bl: Blocks<H, B, S>, v: Buffers<B>, v': Buffers<B>, cells: seq<Cell<H, S>>)
    requires Sane(v) && Sane(v') && SameReads(v, v') && CellsKnown(|v.owner|, cells)
    ensures CellsKnown(|v'.owner|, cells) && Caches(bl, v', cells) == Caches(bl, v, cells)
  {
    hide Cache, SameReads;
    forall i | 0 <= i < |cells|
      ensures KnownCell(|v'.owner|, cells[i]) && Cache(bl, v', cells[i]) == Cache(bl, v, cells[i])
    {
      CellsStay(bl, v, v', cells[i]);
    }
  }

  /** One layer, wherever its projection runs. */
  method LayerAt<H(!new), B(!new), S(!new)>(bl: Blocks<H, B, S>, dev: Device<H, B>, place: Place, layer: nat,
                                            ha: Node<H, S>, hb: Node<H, S>,
                                            cells: seq<Cell<H, S>>, copied: Option<nat>, noise: (nat, nat) -> B)
    returns (ha': Node<H, S>, hb': Node<H, S>, cells': seq<Cell<H, S>>, copied': Option<nat>)
    requires Agrees(bl) && Idle(dev) && layer < |cells| && CellsKnown(|dev.owner|, cells)
    requires KnownNode(|dev.owner|, ha) && KnownNode(|dev.owner|, hb)
    requires AllBut(dev.Now(), copied) && (copied.Some? ==> copied.value < |dev.owner|)
    modifies dev
    ensures Idle(dev) && SameReads(old(dev.Now()), dev.Now())
    ensures AllBut(dev.Now(), copied') && (copied'.Some? ==> copied'.value < |dev.owner|)
    ensures KnownNode(|dev.owner|, ha') && KnownNode(|dev.owner|, hb') && CellsKnown(|dev.owner|, cells')
    ensures var v, v' := old(dev.Now()), dev.Now();
            var st := Caches(bl, v, cells);
            var xa := bl.whole(layer, Out(bl, v, ha), st[layer]);
            var xb := bl.whole(layer, Out(bl, v, hb), xa.1);
            Out(bl, v', ha') == xa.0 && Out(bl, v', hb') == xb.0 && Caches(bl, v', cells') == st[layer := xb.1]
  {
    hide SameReads, AllBut, Agrees;
    ghost var v := dev.Now();
    if place.OnTheGpu? {
      ha' := OnGpu(layer, ha, cells[layer]);
      hb' := OnGpu(layer, hb, Left(ha'));
      copied' := copied;
      assert KnownNode(|dev.owner|, ha') && KnownCell(|dev.owner|, Left(ha')) && KnownNode(|dev.owner|, hb');
      SameReadsRefl(v);
    } else {
      var p := if place.OnLin? then LIN else ATTN;
      ha', hb', copied' := ProjectedLayer(bl, dev, p, layer, ha, hb, cells[layer], copied, noise);
      CachesStay(bl, v, dev.Now(), cells);
    }
    cells' := cells[layer := Left(hb')];
    assert Caches(bl, dev.Now(), cells') == Caches(bl, v, cells)[layer := Both(bl, dev.Now(), hb').1];
  }

  lemma SameReadsRefl<B>(v: Buffers<B>)
    requires Sane(v)
    ensures SameReads(v, v)
  {
  }

  /** `pipelined_layers`: for any placing of the layers' projections, the two halves and the caches it
      returns evaluate to what half A and then half B through every layer on the GPU would give, as
      long as they are evaluated before the programs run again; no read is left waiting across a run. */
  method PipelinedLayers<H(!new), B(!new), S(!new)>(bl: Blocks<H, B, S>, dev: Device<H, B>, places: seq<Place>, a: H,
                                                    b: H, stores: seq<S>,
                                                    noise: (nat, nat) -> B)
    returns (ha: Node<H, S>, hb: Node<H, S>, cells: seq<Cell<H, S>>, copied: Option<nat>)
    requires Agrees(bl) && Idle(dev) && |places| == |stores| && NonePending(dev.Now(), LIN)
    requires NonePending(dev.Now(), ATTN)
    requires forall id :: 0 <= id < |dev.owner| ==> dev.owner[id] <= ATTN
    modifies dev
    ensures Idle(dev) && SameReads(old(dev.Now()), dev.Now()) && AllBut(dev.Now(), copied)
    ensures KnownNode(|dev.owner|, ha) && KnownNode(|dev.owner|, hb) && CellsKnown(|dev.owner|, cells)
    ensures (Out(bl, dev.Now(), ha), Out(bl, dev.Now(), hb), Caches(bl, dev.Now(), cells))
              == Sequential(AsStack(bl), a, b, stores)
  {
    hide SameReads, AllBut, Agrees, StoresAt, Layers, CellsKnown;
    ghost var s, stA, v0 := AsStack(bl), Layers(AsStack(bl), |stores|, a, stores).1, dev.Now();
    ha, hb, copied := Entry(a), Entry(b), None;
    cells := Fresh(bl, dev, stores);
    CoreStart(s, a, b, stores);
    NoneWaits(v0);
    var k := 0;
    while k < |stores|
      invariant k <= |stores| == |cells| && Idle(dev) && SameReads(v0, dev.Now())
      invariant AllBut(dev.Now(), copied) && (copied.Some? ==> copied.value < |dev.owner|)
      invariant KnownNode(|dev.owner|, ha) && KnownNode(|dev.owner|, hb) && CellsKnown(|dev.owner|, cells)
      invariant Out(bl, dev.Now(), ha) == Layers(s, k, a, stores).0 && Out(bl, dev.Now(), hb) == Layers(s, k, b, stA).0
      invariant StoresAt(s, k, a, b, stores, Caches(bl, dev.Now(), cells))
    {
      StoresStep(s, k, a, b, stores, Caches(bl, dev.Now(), cells));
      ghost var v := dev.Now();
      ha, hb, cells, copied := LayerAt(bl, dev, places[k], k, ha, hb, cells, copied, noise);
      SameReadsTrans(v0, v, dev.Now());
      assert |Caches(bl, dev.Now(), cells)| == |cells|;
      k := k + 1;
    }
    CoreEnd(s, a, b, stores, Caches(bl, dev.Now(), cells));
  }

  lemma SameReadsTrans<B>(a: Buffers<B>, b: Buffers<B>, c: Buffers<B>)
    requires Sane(a) && Sane(b) && Sane(c) && SameReads(a, b) && SameReads(b, c)
    ensures SameReads(a, c)
  {
  }

  lemma NoneWaits<B>(v: Buffers<B>)
    requires Sane(v) && NonePending(v, LIN) && NonePending(v, ATTN) && forall id :: 0 <= id < |v.owner| ==>
              v.owner[id] <= ATTN
    ensures AllBut(v, None) && SameReads(v, v)
  {
  }

  method Fresh<H, B, S>(bl: Blocks<H, B, S>, dev: Device<H, B>, stores: seq<S>) returns (cells: seq<Cell<H, S>>)
    requires dev.Valid()
    ensures |cells| == |stores| && CellsKnown(|dev.owner|, cells) && Caches(bl, dev.Now(), cells) == stores
  {
    cells := seq(|stores|, i requires 0 <= i < |stores| => Kept(stores[i]));
  }
}
