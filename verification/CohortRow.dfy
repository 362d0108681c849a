/** One row of the MTP cohort: the decision of a cycle, its effect on the row's two caches, and the
    commit of what it emits. */
module CohortRow {
  import opened Wrappers
  import opened TargetModel
  import opened Ledger
  import opened RaggedCache
  import opened MtpPrefill

  datatype Request = Request(prompt: seq<Token>, maxTokens: nat, stop: set<Token>, omitBonus: bool)

  /* ---- the decision ---- */

  /** What a row does in a cycle: the tokens it emits, how many of the two verified positions it keeps,
      whether its draft was accepted, and the token it will feed first next time without emitting it
      again. */
  datatype Decision = Decision(emit: seq<Token>, keep: nat, accepted: bool, pending: Option<Token>)

  const IDLE := Decision([], 0, false, None)

  function HistoryAfterPrimary(tokens: seq<Token>, pending: Option<Token>, primary: Token): seq<Token> {
    if pending.Some? then tokens else tokens + [primary]
  }

  predicate MayFinishCycle(q: Request, tokens: seq<Token>, pending: Option<Token>, primary: Token) {
    |HistoryAfterPrimary(tokens, pending, primary)| < q.maxTokens && primary !in q.stop
  }

  /** The greedy route's decision for an active row; `target` and `beyond` are the argmaxes of the two
      verified positions. */
  function Decide(q: Request, tokens: seq<Token>, pending: Option<Token>, primary: Token, draft: Token,
                  target: Token, beyond: Token): Decision
  {
    var lead := Lead(pending, primary);
    if !MayFinishCycle(q, tokens, pending, primary) then Decision(lead, 1, false, None)
    else
      var bonusAllowed :=
        !q.omitBonus && |HistoryAfterPrimary(tokens, pending, primary)| + 1 < q.maxTokens && draft !in q.stop;
      if draft != target then Decision(lead + [target], 1, false, Some(target))
      else if bonusAllowed then Decision(lead + [draft, beyond], 2, true, Some(beyond))
      else Decision(lead + [draft], 2, true, None)
  }

  /** The tokens the row's caches have consumed: all but a pending one. */
  function Consumed(tokens: seq<Token>, pending: Option<Token>): seq<Token>
    requires pending.Some? ==> tokens != []
  {
    if pending.Some? then tokens[..|tokens| - 1] else tokens
  }

  /** A running request: its tokens are an unfinished greedy stream, and a pending token is its last. */
  ghost predicate Running(m: Model, q: Request, tokens: seq<Token>, pending: Option<Token>)
    requires q.prompt != []
  {
    && Open(m, q.prompt, q.stop, q.maxTokens, Stream(tokens, None))
    && (pending.Some? ==> tokens != [] && pending.value == tokens[|tokens| - 1])
  }

  /** The primary a running row feeds is the next token after what its caches hold. */
  lemma PrimaryIsNext(m: Model, q: Request, tokens: seq<Token>, pending: Option<Token>)
    requires q.prompt != [] && Running(m, q, tokens, pending)
    ensures var ctx := q.prompt + Consumed(tokens, pending);
            pending.Some? ==> pending.value == Next(m, ctx)
  {
    if pending.Some? {
      IsGreedyPrefix(m, q.prompt, tokens, |tokens| - 1);
    }
  }

  /** What a decision tells the row to keep of the two verified positions. */
  function Kept(d: Decision, primary: Token, draft: Token): seq<Token> {
    if d.keep == 0 then [] else if d.keep == 1 then [primary] else [primary, draft]
  }

  function Lead(pending: Option<Token>, primary: Token): seq<Token> {
    if pending.Some? then [] else [primary]
  }

  lemma LeadCompletes(tokens: seq<Token>, pending: Option<Token>, primary: Token)
    requires pending.Some? ==> tokens != [] && primary == tokens[|tokens| - 1]
    ensures tokens + Lead(pending, primary) == Consumed(tokens, pending) + [primary]
  {
  }

  /** Unless it must finish the request, a decision leaves the row's caches with exactly all its tokens
      but the pending one, which is the last it emits. */
  lemma KeptIsConsumed(q: Request, tokens: seq<Token>, pending: Option<Token>, primary: Token, draft: Token,
                       target: Token, beyond: Token)
    requires pending.Some? ==> tokens != [] && primary == tokens[|tokens| - 1]
    requires MayFinishCycle(q, tokens, pending, primary)
    ensures var d := Decide(q, tokens, pending, primary, draft, target, beyond);
            && d.emit != [] && (d.pending.Some? ==> d.pending.value == d.emit[|d.emit| - 1])
            && Consumed(tokens, pending) + Kept(d, primary, draft) == Consumed(tokens + d.emit, d.pending)
  {
    var d := Decide(q, tokens, pending, primary, draft, target, beyond);
    LeadCompletes(tokens, pending, primary);
    var base, led := Consumed(tokens, pending), tokens + Lead(pending, primary);
    assert base + [primary, draft] == led + [draft];
    if draft != target {
      assert tokens + d.emit == led + [target];
    } else if d.pending.Some? {
      assert tokens + d.emit == led + [draft] + [beyond];
    } else {
      assert tokens + d.emit == led + [draft];
    }
  }

  /** A decision emits only greedy tokens. */
  lemma EmitIsGreedy(m: Model, q: Request, tokens: seq<Token>, pending: Option<Token>,
                     primary: Token, draft: Token, target: Token, beyond: Token)
    requires q.prompt != [] && Running(m, q, tokens, pending)
    requires var ctx := q.prompt + Consumed(tokens, pending);
             && primary == Next(m, ctx) && target == Next(m, ctx + [primary])
             && (draft == target ==> beyond == Next(m, ctx + [primary, draft]))
    ensures IsGreedy(m, q.prompt, tokens + Decide(q, tokens, pending, primary, draft, target, beyond).emit)
  {
    hide IsGreedy, Next;
    var d := Decide(q, tokens, pending, primary, draft, target, beyond);
    if pending.Some? {
      PrimaryIsNext(m, q, tokens, pending);
    }
    LeadCompletes(tokens, pending, primary);
    LeadIsGreedy(m, q.prompt, tokens, pending, primary);
    var led := tokens + Lead(pending, primary);
    var ctx := q.prompt + Consumed(tokens, pending);
    if MayFinishCycle(q, tokens, pending, primary) {
      assert q.prompt + led == ctx + [primary];
      GreedySnoc(m, q.prompt, led, target);
      assert led + [target] == tokens + (Lead(pending, primary) + [target]);
      if draft == target {
        assert q.prompt + (led + [draft]) == ctx + [primary, draft];
        GreedySnoc(m, q.prompt, led + [draft], beyond);
        assert led + [draft] + [beyond] == tokens + (Lead(pending, primary) + [draft, beyond]);
      }
    }
  }

  lemma LeadIsGreedy(m: Model, prompt: seq<Token>, tokens: seq<Token>, pending: Option<Token>, primary: Token)
    requires prompt != [] && IsGreedy(m, prompt, tokens) && (pending.Some? ==> tokens != [])
    requires primary == Next(m, prompt + Consumed(tokens, pending))
    ensures IsGreedy(m, prompt, tokens + Lead(pending, primary))
  {
    hide IsGreedy, Next;
    if pending.Some? {
      assert tokens + [] == tokens;
    } else {
      GreedySnoc(m, prompt, tokens, primary);
    }
  }

  /** A running row that may not finish its cycle emits its primary and is finished by it. */
  lemma LastPrimaryFinishes(m: Model, q: Request, tokens: seq<Token>, pending: Option<Token>, primary: Token)
    requires q.prompt != [] && Running(m, q, tokens, pending) && (pending.Some? ==> primary == pending.value)
    requires !MayFinishCycle(q, tokens, pending, primary)
    ensures pending.None? && CommitAll(q.stop, q.maxTokens, Stream(tokens, None), [primary]).finish.Some?
  {
    CommitAllPair(q.stop, q.maxTokens, Stream(tokens, None), primary, primary);
  }

  /* ---- the caches ---- */

  /** `_grow_to` on one slab. */
  function GrowSlab<T>(slab: seq<T>, required: nat, pad: T): (r: seq<T>)
    ensures required <= |r| && |slab| <= |r| && r[..|slab|] == slab
  {
    RoundUpBounds(required, KV_STEP);
    if required <= |slab| then slab else slab + Fill(RoundUp(required, KV_STEP) - |slab|, pad)
  }

  /** The MTP history a draft of a row can attend to. */
  function SeenByDrafter(c: RowCache, last: Output, primary: Token): seq<Pair> {
    (if c.moff <= |c.hist| then c.hist[..c.moff] else c.hist) + [Pair(last, primary)]
  }

  datatype RowStep = RowStep(cache: RowCache, last: Output)

  /** The verify forward of a row over the slab it finds. */
  function VerifyRow(m: Model, c: RowCache, primary: Token, draft: Token, bound: nat): (r: RowRun)
    requires c.off <= bound
    ensures |r.outs| == 2
  {
    RunRow(m, GrowSlab(c.buf, bound + 2, m.pad), c.off, c.rec, [primary, draft])
  }

  /** One cycle of a row: the drafter appends (hidden, primary), kept only by active rows; verify writes
      two positions; the commit keeps 0, 1 or 2 of them in the KV length and takes the recurrent state
      captured there; an accepted draft is appended to the MTP history. */
  function RowCycle(m: Model, c: RowCache, last: Output, active: bool, primary: Token, draft: Token, d: Decision,
                    bound: nat, mtpBound: nat, mtpBound': nat): (s: RowStep)
    requires c.off <= bound && c.moff <= mtpBound && d.keep <= 2
    requires c.moff + (if active then 1 else 0) <= mtpBound'
    ensures s.cache.off == c.off + d.keep <= |s.cache.buf|
    ensures s.cache.moff == c.moff + (if active then 1 else 0) + (if d.accepted then 1 else 0) <= |s.cache.hist|
  {
    var h1 := GrowSlab(c.hist, mtpBound + 1, Pair(last, primary))[c.moff := Pair(last, primary)];
    var moff1 := c.moff + if active then 1 else 0;
    var run := VerifyRow(m, c, primary, draft, bound);
    var first := RunRow(m, GrowSlab(c.buf, bound + 2, m.pad), c.off, c.rec, [primary]);
    var rec := if d.keep == 0 then c.rec else if d.keep == 1 then first.rec else run.rec;
    var h2 := GrowSlab(h1, mtpBound' + 1, Pair(last, primary))[moff1 := Pair(run.outs[0], draft)];
    RowStep(
      RowCache(run.buf, c.off + d.keep, rec, h2, moff1 + if d.accepted then 1 else 0),
      if d.accepted then run.outs[1] else run.outs[0])
  }

  /** The row's caches hold exactly `ctx`, and `last` is its output. */
  ghost predicate CacheOk(m: Model, ctx: seq<Token>, c: RowCache, last: Output)
    requires ctx != []
  {
    Holds(m, ctx, c) && HoldsHistory(m, ctx, c) && last == Last(m, ctx)
  }

  /** The two verified positions of a row that holds `ctx`. */
  lemma VerifyOutputs(m: Model, ctx: seq<Token>, c: RowCache, primary: Token, draft: Token, bound: nat)
    requires ctx != [] && Holds(m, ctx, c) && c.off <= bound
    ensures var run := VerifyRow(m, c, primary, draft, bound);
            run.outs[0] == Last(m, ctx + [primary]) && run.outs[1] == Last(m, ctx + [primary, draft])
  {
    var buf := GrowSlab(c.buf, bound + 2, m.pad);
    assert buf[..c.off] == buf[..|c.buf|][..c.off];
    RunRowOutput(m, ctx, buf, c.rec, [primary, draft], 0);
    RunRowOutput(m, ctx, buf, c.rec, [primary, draft], 1);
    assert [primary, draft][..1] == [primary] && [primary, draft][..2] == [primary, draft];
  }

  /** The KV slab and recurrent state after the commit hold ctx and exactly the kept positions. */
  lemma CommitHolds(m: Model, ctx: seq<Token>, c: RowCache, last: Output, primary: Token, draft: Token, d: Decision,
                    bound: nat, mtpBound: nat, mtpBound': nat)
    requires ctx != [] && Holds(m, ctx, c) && c.off <= bound && c.moff <= mtpBound && c.moff + 1 <= mtpBound'
    requires 1 <= d.keep <= 2
    ensures Holds(m, ctx + Kept(d, primary, draft),
                  RowCycle(m, c, last, true, primary, draft, d, bound, mtpBound, mtpBound').cache)
  {
    var buf := GrowSlab(c.buf, bound + 2, m.pad);
    assert buf[..c.off] == buf[..|c.buf|][..c.off];
    RunRowConsumes(m, ctx, buf, c.rec, [primary, draft]);
    if d.keep == 1 {
      RunRowConsumes(m, ctx, buf, c.rec, [primary]);
      KeepOne(m, ctx, buf, c.rec, primary, draft);
    }
  }

  lemma KeepOne(m: Model, ctx: seq<Token>, buf: seq<Entry>, rec: Recurrent, primary: Token, draft: Token)
    requires |ctx| + 2 <= |buf| && buf[..|ctx|] == Consume(m, ctx).kv && rec == Consume(m, ctx).rec
    ensures RunRow(m, buf, |ctx|, rec, [primary, draft]).buf[..|ctx| + 1] == Consume(m, ctx + [primary]).kv
  {
    hide RunRow, Consume;
    RunRowConsumes(m, ctx, buf, rec, [primary, draft]);
    var after := RunRow(m, buf, |ctx|, rec, [primary, draft]).buf;
    assert ctx + [primary, draft] == ctx + [primary] + [draft];
    ConsumeSnoc(m, ctx + [primary], draft);
    assert after[..|ctx| + 1] == after[..|ctx| + 2][..|ctx| + 1];
  }

  /** The MTP history gains the pair of every kept position, and of nothing else. */
  lemma CommitHistory(m: Model, ctx: seq<Token>, c: RowCache, last: Output, primary: Token, draft: Token, d: Decision,
                      bound: nat, mtpBound: nat, mtpBound': nat)
    requires ctx != [] && CacheOk(m, ctx, c, last) && c.off <= bound && c.moff <= mtpBound && c.moff + 1 <= mtpBound'
    requires 1 <= d.keep <= 2 && (d.accepted <==> d.keep == 2)
    ensures HoldsHistory(m, ctx + Kept(d, primary, draft),
                         RowCycle(m, c, last, true, primary, draft, d, bound, mtpBound, mtpBound').cache)
  {
    hide RunRow, History, Consume;
    VerifyOutputs(m, ctx, c, primary, draft, bound);
    var r := RowCycle(m, c, last, true, primary, draft, d, bound, mtpBound, mtpBound').cache;
    var n := c.moff;
    HistorySnoc(m, ctx, primary);
    var g := GrowSlab(c.hist, mtpBound + 1, Pair(last, primary));
    assert g[..n] == g[..|c.hist|][..n] == c.hist[..n];
    var h1 := g[n := Pair(last, primary)];
    assert h1[..n + 1] == g[..n] + [Pair(last, primary)];
    var g1 := GrowSlab(h1, mtpBound' + 1, Pair(last, primary));
    assert g1[..n + 1] == g1[..|h1|][..n + 1] == h1[..n + 1];
    assert r.hist[..n + 1] == g1[..n + 1];
    if d.accepted {
      HistorySnoc(m, ctx + [primary], draft);
      assert ctx + [primary] + [draft] == ctx + [primary, draft];
      assert r.hist[..n + 2] == r.hist[..n + 1] + [r.hist[n + 1]];
    }
  }

  /** Two states of a row that no reader of its caches can tell apart. */
  ghost predicate SameVisible(a: RowCache, b: RowCache) {
    && a.off == b.off <= |a.buf| && a.off <= |b.buf| && a.buf[..a.off] == b.buf[..a.off]
    && a.moff == b.moff <= |a.hist| && a.moff <= |b.hist| && a.hist[..a.moff] == b.hist[..a.moff]
    && a.rec == b.rec
  }

  /** A row that keeps nothing shows no change. */
  lemma IdleRowUnchanged(m: Model, c: RowCache, last: Output, primary: Token, draft: Token, bound: nat, mtpBound: nat,
                         mtpBound': nat)
    requires c.off <= |c.buf| && c.moff <= |c.hist|
    requires c.off <= bound && c.moff <= mtpBound && c.moff <= mtpBound'
    ensures SameVisible(RowCycle(m, c, last, false, primary, draft, IDLE, bound, mtpBound, mtpBound').cache, c)
  {
    var buf := GrowSlab(c.buf, bound + 2, m.pad);
    assert buf[..c.off] == buf[..|c.buf|][..c.off];
    RunRowKeepsPrefix(m, buf, c.off, c.rec, [primary, draft], c.off);
    var g := GrowSlab(c.hist, mtpBound + 1, Pair(last, primary));
    assert g[..c.moff] == g[..|c.hist|][..c.moff];
    var h1 := g[c.moff := Pair(last, primary)];
    var g1 := GrowSlab(h1, mtpBound' + 1, Pair(last, primary));
    assert g1[..c.moff] == g1[..|h1|][..c.moff];
  }

  /* ---- one whole cycle of a running row ---- */

  function Primary(m: Model, pending: Option<Token>, last: Output): Token {
    if pending.Some? then pending.value else m.argmax(last)
  }

  /** The decision of an active row from its own verify outputs. */
  function RowDecision(m: Model, q: Request, tokens: seq<Token>, pending: Option<Token>, c: RowCache, last: Output,
                       draft: Token, bound: nat): Decision
    requires c.off <= bound
  {
    var primary := Primary(m, pending, last);
    var run := VerifyRow(m, c, primary, draft, bound);
    Decide(q, tokens, pending, primary, draft, m.argmax(run.outs[0]), m.argmax(run.outs[1]))
  }

  /** What a running row brings into a cycle. */
  ghost predicate RowRunning(m: Model, q: Request, tokens: seq<Token>, pending: Option<Token>, c: RowCache,
                             last: Output)
    requires q.prompt != []
  {
    && Running(m, q, tokens, pending)
    && CacheOk(m, q.prompt + Consumed(tokens, pending), c, last)
  }

  /** What it leaves for the commit: emitted tokens that are greedy, and caches that fit all of them
      but the next pending one unless the commit must finish the request. */
  ghost predicate RowEmits(m: Model, q: Request, tokens: seq<Token>, d: Decision, c: RowCache, last: Output)
    requires q.prompt != []
  {
    && Open(m, q.prompt, q.stop, q.maxTokens, Stream(tokens, None))
    && IsGreedy(m, q.prompt, tokens + d.emit)
    && 1 <= |d.emit| <= 3
    && (CommitAll(q.stop, q.maxTokens, Stream(tokens, None), d.emit).finish.None? ==>
          && (d.pending.Some? ==> d.pending.value == d.emit[|d.emit| - 1])
          && CacheOk(m, q.prompt + Consumed(tokens + d.emit, d.pending), c, last))
  }

  /** Whatever the draft, a cycle of a running row emits greedy tokens, and its caches keep exactly the
      tokens that stand: both lengths move by the keep count. */
  lemma CycleKeepsRunning(m: Model, q: Request, tokens: seq<Token>, pending: Option<Token>, c: RowCache, last: Output,
                          draft: Token, bound: nat, mtpBound: nat, mtpBound': nat)
    requires q.prompt != [] && RowRunning(m, q, tokens, pending, c, last)
    requires c.off <= bound && c.moff <= mtpBound && c.moff + 1 <= mtpBound'
    ensures var d := RowDecision(m, q, tokens, pending, c, last, draft, bound);
            var r := RowCycle(m, c, last, true, Primary(m, pending, last), draft, d, bound, mtpBound, mtpBound');
            && 1 <= d.keep <= 2 && r.cache.off == c.off + d.keep && r.cache.moff == c.moff + d.keep
            && RowEmits(m, q, tokens, d, r.cache, r.last)
  {
    hide RunRow, IsGreedy, Next, CacheOk, CommitAll, Decide, VerifyRow, RowCycle;
    var primary := Primary(m, pending, last);
    var ctx := q.prompt + Consumed(tokens, pending);
    var d := RowDecision(m, q, tokens, pending, c, last, draft, bound);
    RowDecisionIsGreedy(m, q, tokens, pending, c, last, draft, bound);
    CacheAfterCycle(m, ctx, c, last, primary, draft, d, bound, mtpBound, mtpBound');
    if MayFinishCycle(q, tokens, pending, primary) {
      assert ctx + Kept(d, primary, draft) == q.prompt + Consumed(tokens + d.emit, d.pending);
    } else {
      LastPrimaryFinishes(m, q, tokens, pending, primary);
    }
  }

  /** The decision part of the cycle. */
  lemma RowDecisionIsGreedy(m: Model, q: Request, tokens: seq<Token>, pending: Option<Token>, c: RowCache, last: Output,
                            draft: Token, bound: nat)
    requires q.prompt != [] && RowRunning(m, q, tokens, pending, c, last) && c.off <= bound
    ensures var d := RowDecision(m, q, tokens, pending, c, last, draft, bound);
            var primary := Primary(m, pending, last);
            && 1 <= d.keep <= 2 && (d.accepted <==> d.keep == 2) && 1 <= |d.emit| <= 3
            && IsGreedy(m, q.prompt, tokens + d.emit)
            && (pending.Some? ==> primary == pending.value)
            && if MayFinishCycle(q, tokens, pending, primary) then
                 && (d.pending.Some? ==> d.pending.value == d.emit[|d.emit| - 1])
                 && Consumed(tokens, pending) + Kept(d, primary, draft) == Consumed(tokens + d.emit, d.pending)
               else d.emit == Lead(pending, primary) == [primary]
  {
    hide RunRow, IsGreedy, Next, Holds, HoldsHistory, CommitAll, Decide, VerifyRow;
    var primary := Primary(m, pending, last);
    var ctx := q.prompt + Consumed(tokens, pending);
    NextPrimary(m, q, tokens, pending, last);
    VerifyOutputs(m, ctx, c, primary, draft, bound);
    var run := VerifyRow(m, c, primary, draft, bound);
    var target, beyond := m.argmax(run.outs[0]), m.argmax(run.outs[1]);
    DecisionShape(q, tokens, pending, primary, draft, target, beyond);
    ArgmaxIsNext(m, ctx + [primary], run.outs[0]);
    ArgmaxIsNext(m, ctx + [primary, draft], run.outs[1]);
    EmitIsGreedy(m, q, tokens, pending, primary, draft, target, beyond);
    if MayFinishCycle(q, tokens, pending, primary) {
      KeptIsConsumed(q, tokens, pending, primary, draft, target, beyond);
    } else {
      LastPrimaryFinishes(m, q, tokens, pending, primary);
    }
  }

  /** The cache part of the cycle. */
  lemma CacheAfterCycle(m: Model, ctx: seq<Token>, c: RowCache, last: Output, primary: Token, draft: Token, d: Decision,
                        bound: nat, mtpBound: nat, mtpBound': nat)
    requires ctx != [] && CacheOk(m, ctx, c, last) && c.off <= bound && c.moff <= mtpBound && c.moff + 1 <= mtpBound'
    requires 1 <= d.keep <= 2 && (d.accepted <==> d.keep == 2)
    ensures var r := RowCycle(m, c, last, true, primary, draft, d, bound, mtpBound, mtpBound');
            && r.cache.off == c.off + d.keep && r.cache.moff == c.moff + d.keep
            && CacheOk(m, ctx + Kept(d, primary, draft), r.cache, r.last)
  {
    hide RunRow, Consume, History, Last;
    VerifyOutputs(m, ctx, c, primary, draft, bound);
    CommitHolds(m, ctx, c, last, primary, draft, d, bound, mtpBound, mtpBound');
    CommitHistory(m, ctx, c, last, primary, draft, d, bound, mtpBound, mtpBound');
  }

  lemma NextPrimary(m: Model, q: Request, tokens: seq<Token>, pending: Option<Token>, last: Output)
    requires q.prompt != [] && Running(m, q, tokens, pending)
    requires last == Last(m, q.prompt + Consumed(tokens, pending))
    ensures Primary(m, pending, last) == Next(m, q.prompt + Consumed(tokens, pending))
  {
    PrimaryIsNext(m, q, tokens, pending);
  }

  lemma ArgmaxIsNext(m: Model, ctx: seq<Token>, out: Output)
    requires ctx != [] && out == Last(m, ctx)
    ensures m.argmax(out) == Next(m, ctx)
  {
  }

  lemma DecisionShape(q: Request, tokens: seq<Token>, pending: Option<Token>, primary: Token, draft: Token,
                      target: Token, beyond: Token)
    ensures var d := Decide(q, tokens, pending, primary, draft, target, beyond);
            && 1 <= d.keep <= 2 && (d.accepted <==> d.keep == 2)
            && (!MayFinishCycle(q, tokens, pending, primary) ==> d.emit == Lead(pending, primary))
            && (MayFinishCycle(q, tokens, pending, primary) ==> 1 <= |d.emit| <= 3)
  {
  }

  /* ---- how a request ends ---- */

  datatype End = Done(reason: Finish) | Cancelled

  /** What a cancelled request may have been given: a start of its solo result. */
  ghost predicate CutShort(m: Model, q: Request, tokens: seq<Token>)
    requires q.prompt != []
  {
    && |tokens| <= q.maxTokens && IsGreedy(m, q.prompt, tokens)
    && forall i :: 0 <= i < |tokens| - 1 ==> tokens[i] !in q.stop
  }

  lemma CutShortIsPrefix(m: Model, q: Request, tokens: seq<Token>, solo: Stream)
    requires q.prompt != [] && CutShort(m, q, tokens) && SoloResult(m, q.prompt, q.stop, q.maxTokens, solo)
    ensures tokens <= solo.tokens
  {
    if |tokens| <= |solo.tokens| {
      GreedyPrefix(m, q.prompt, |tokens|, |solo.tokens|);
    } else {
      GreedyPrefix(m, q.prompt, |solo.tokens|, |tokens|);
      assert false;
    }
  }

  ghost predicate Ended(m: Model, q: Request, tokens: seq<Token>, end: End)
    requires q.prompt != []
  {
    match end
    case Done(f) => SoloResult(m, q.prompt, q.stop, q.maxTokens, Stream(tokens, Some(f)))
    case Cancelled => CutShort(m, q, tokens)
  }

  /** Stopping a commit after any number of its tokens leaves an open stream, the solo result, or (if
      cut there) a start of it. */
  lemma CommitSome(m: Model, q: Request, tokens: seq<Token>, emit: seq<Token>, k: nat)
    requires q.prompt != [] && Open(m, q.prompt, q.stop, q.maxTokens, Stream(tokens, None))
    requires IsGreedy(m, q.prompt, tokens + emit) && k <= |emit|
    ensures var t := CommitAll(q.stop, q.maxTokens, Stream(tokens, None), emit[..k]);
            && CutShort(m, q, t.tokens)
            && (t.finish.Some? ==> Ended(m, q, t.tokens, Done(t.finish.value)))
            && (t.finish.None? ==> Open(m, q.prompt, q.stop, q.maxTokens, t) && t.tokens == tokens + emit[..k])
  {
    hide IsGreedy;
    IsGreedyPrefix(m, q.prompt, tokens + emit, |tokens| + k);
    assert (tokens + emit)[..|tokens| + k] == tokens + emit[..k];
    CommitAllGreedy(m, q.prompt, q.stop, q.maxTokens, Stream(tokens, None), emit[..k]);
  }
}
