/** One row of the fold-in replay loop: what a single [B,2] cycle does to it. */
module FoldinRow {
  import opened TargetModel

  /** `buf`/`off` are the row's KV slab and logical length, `rec` its recurrent state, `ll` its
      latest output. `snap` is its recurrent state just before the previous forward; `replay`,
      `a` and `b` are last cycle's miss flag, primary and true second token. */
  datatype Row = Row(buf: seq<Entry>, off: int, rec: Recurrent, ll: Output,
                     snap: Recurrent, replay: bool, a: Token, b: Token)

  datatype Cycle = Cycle(row: Row, commits: seq<Token>)

  function WriteStart(r: Row): int {
    if r.replay then r.off - 1 else r.off
  }

  predicate Fits(r: Row) {
    0 <= WriteStart(r) && WriteStart(r) + 2 <= |r.buf|
  }

  /** A fresh row feeds its primary and a draft; a row that missed feeds the two tokens it now
      knows, one position back, from the rewound recurrent state. */
  function CycleRow(m: Model, r: Row, draft: Token): Cycle
    requires Fits(r)
  {
    var rec0 := if r.replay then r.snap else r.rec;
    var a := if r.replay then r.a else m.argmax(r.ll);
    var b := if r.replay then r.b else draft;
    var run := RunRow(m, r.buf, WriteStart(r), rec0, [a, b]);
    var x1 := m.argmax(run.outs[0]);
    var miss := !r.replay && b != x1;
    Cycle(
      Row(run.buf, WriteStart(r) + 2 - (if miss then 1 else 0), run.rec, run.outs[1], rec0, miss, a, x1),
      if r.replay then [b] else if miss then [a] else [a, x1])
  }

  /** The row stands exactly after `ctx`, the prompt and every token decided so far: its KV below
      the logical length is the clean one; a fresh row also has the clean recurrent state and
      output, a row waiting to replay has the state before its last token and knows the next. */
  ghost predicate RowOk(m: Model, ctx: seq<Token>, r: Row) {
    && 0 < |ctx| == r.off <= |r.buf|
    && r.buf[..r.off] == Consume(m, ctx).kv
    && if r.replay then
         && r.snap == Consume(m, ctx[..|ctx| - 1]).rec
         && r.a == ctx[|ctx| - 1]
         && r.b == Next(m, ctx)
       else
         && r.rec == Consume(m, ctx).rec
         && r.ll == Last(m, ctx)
  }

  /** A request that has decided exactly the greedy tokens `dec`, of which `held` are not yet
      committed, on a row that stands right after them. */
  ghost predicate Standing(m: Model, prompt: seq<Token>, committed: seq<Token>, held: seq<Token>, dec: seq<Token>,
                           r: Row)
    requires prompt != []
  {
    && committed + held == dec
    && IsGreedy(m, prompt, dec)
    && RowOk(m, prompt + dec, r)
  }

  lemma StandingHolds(m: Model, prompt: seq<Token>, committed: seq<Token>, held: seq<Token>, later: seq<Token>,
                      dec: seq<Token>, r: Row)
    requires prompt != [] && Standing(m, prompt, committed, held + later, dec, r)
    ensures committed + held <= dec && IsGreedy(m, prompt, dec)
    ensures Standing(m, prompt, committed + held, later, dec, r)
  {
    assert committed + (held + later) == committed + held + later;
  }

  /** Whatever the draft, a cycle decides one or two tokens, they are the next greedy ones, and the
      row again stands exactly after them. */
  lemma CycleKeepsRowOk(m: Model, ctx: seq<Token>, r: Row, draft: Token)
    requires RowOk(m, ctx, r) && Fits(r)
    ensures var c := CycleRow(m, r, draft);
            && 1 <= |c.commits| <= 2
            && IsGreedy(m, ctx, c.commits)
            && RowOk(m, ctx + c.commits, c.row)
  {
    if r.replay {
      ReplayKeepsRowOk(m, ctx, r, draft);
    } else {
      SpecKeepsRowOk(m, ctx, r, draft);
    }
  }

  lemma GreedyOne(m: Model, ctx: seq<Token>)
    requires ctx != []
    ensures IsGreedy(m, ctx, [Next(m, ctx)])
  {
    assert ctx + [] == ctx;
    assert Greedy(m, ctx, 0) == [];
  }

  lemma GreedyTwo(m: Model, ctx: seq<Token>)
    requires ctx != []
    ensures var x0 := Next(m, ctx);
            IsGreedy(m, ctx, [x0, Next(m, ctx + [x0])])
  {
    GreedyOne(m, ctx);
    var x0 := Next(m, ctx);
    GreedySnoc(m, ctx, [x0], Next(m, ctx + [x0]));
    assert [x0] + [Next(m, ctx + [x0])] == [x0, Next(m, ctx + [x0])];
  }

  lemma ReplayKeepsRowOk(m: Model, ctx: seq<Token>, r: Row, draft: Token)
    requires RowOk(m, ctx, r) && Fits(r) && r.replay
    ensures var c := CycleRow(m, r, draft);
            c.commits == [Next(m, ctx)] && IsGreedy(m, ctx, c.commits) && RowOk(m, ctx + c.commits, c.row)
  {
    var before := ctx[..|ctx| - 1];
    assert before + [r.a] == ctx;
    ConsumeSnoc(m, before, r.a);
    assert r.buf[..|before|] == r.buf[..r.off][..|before|] == Consume(m, before).kv;
    RunRowConsumes(m, before, r.buf, r.snap, [r.a, r.b]);
    RunRowOutput(m, before, r.buf, r.snap, [r.a, r.b], 1);
    assert before + [r.a, r.b] == ctx + [r.b];
    assert [r.a, r.b][..2] == [r.a, r.b];
    GreedyOne(m, ctx);
  }

  lemma SpecKeepsRowOk(m: Model, ctx: seq<Token>, r: Row, draft: Token)
    requires RowOk(m, ctx, r) && Fits(r) && !r.replay
    ensures var c := CycleRow(m, r, draft);
            && 1 <= |c.commits| <= 2
            && IsGreedy(m, ctx, c.commits)
            && RowOk(m, ctx + c.commits, c.row)
  {
    var x0 := m.argmax(r.ll);
    var toks := [x0, draft];
    RunRowConsumes(m, ctx, r.buf, r.rec, toks);
    RunRowOutput(m, ctx, r.buf, r.rec, toks, 0);
    RunRowOutput(m, ctx, r.buf, r.rec, toks, 1);
    assert toks[..1] == [x0] && toks[..2] == toks;
    var x1 := Next(m, ctx + [x0]);
    if draft == x1 {
      GreedyTwo(m, ctx);
    } else {
      GreedyOne(m, ctx);
      var run := RunRow(m, r.buf, r.off, r.rec, toks);
      assert ctx + toks == ctx + [x0] + [draft];
      ConsumeSnoc(m, ctx + [x0], draft);
      assert run.buf[..r.off + 1] == run.buf[..r.off + 2][..r.off + 1];
      assert (ctx + [x0])[..|ctx|] == ctx;
    }
  }

  /** A row's standing depends on its slab only below the logical length. */
  lemma RowOkBelowOffset(m: Model, ctx: seq<Token>, r: Row, buf: seq<Entry>)
    requires RowOk(m, ctx, r) && r.off <= |buf| && buf[..r.off] == r.buf[..r.off]
    ensures RowOk(m, ctx, r.(buf := buf))
  {
  }

  /** An admission prefill from offset 0 and zeroed recurrent state over a dirty slab stands
      exactly after the prompt. */
  lemma AdmittedRowOk(m: Model, prompt: seq<Token>, buf: seq<Entry>, run: RowRun, r: Row)
    requires 0 < |prompt| <= |buf| && run == RunRow(m, buf, 0, m.zero, prompt)
    requires !r.replay && r.off == |prompt| && r.buf == run.buf && r.rec == run.rec && r.ll == run.outs[|prompt| - 1]
    ensures RowOk(m, prompt, r)
  {
    CleanRead(m, prompt, buf);
  }

  lemma CleanRead(m: Model, prompt: seq<Token>, buf: seq<Entry>)
    requires 0 < |prompt| <= |buf|
    ensures var run := RunRow(m, buf, 0, m.zero, prompt);
            && run.buf[..|prompt|] == Consume(m, prompt).kv
            && run.rec == Consume(m, prompt).rec
            && run.outs[|prompt| - 1] == Last(m, prompt)
  {
    assert Consume(m, []) == RowState([], m.zero);
    assert [] + prompt == prompt == prompt[..|prompt|];
    RunRowConsumes(m, [], buf, m.zero, prompt);
    RunRowOutput(m, [], buf, m.zero, prompt, |prompt| - 1);
  }

  lemma AdmittedStanding(m: Model, prompt: seq<Token>, buf: seq<Entry>, run: RowRun, r: Row)
    requires 0 < |prompt| <= |buf| && run == RunRow(m, buf, 0, m.zero, prompt)
    requires !r.replay && r.off == |prompt| && r.buf == run.buf && r.rec == run.rec && r.ll == run.outs[|prompt| - 1]
    ensures Standing(m, prompt, [], [], [], r)
  {
    hide RowOk, RunRow, Consume, IsGreedy, Greedy;
    AdmittedRowOk(m, prompt, buf, run, r);
    GreedyNone(m, prompt);
    assert prompt + [] == prompt;
  }

  lemma StandingBelowOffset(m: Model, prompt: seq<Token>, committed: seq<Token>, held: seq<Token>, dec: seq<Token>,
                            r: Row, buf: seq<Entry>)
    requires prompt != [] && Standing(m, prompt, committed, held, dec, r)
    requires 0 <= r.off <= |r.buf| && r.off <= |buf| && buf[..r.off] == r.buf[..r.off]
    ensures Standing(m, prompt, committed, held, dec, r.(buf := buf))
  {
  }

  /** A row with no replay due stands by its cache contents and latest output alone. */
  lemma StandingIgnoresMiss(m: Model, prompt: seq<Token>, committed: seq<Token>, held: seq<Token>, dec: seq<Token>,
                            r: Row, s: Row)
    requires prompt != [] && Standing(m, prompt, committed, held, dec, r) && !r.replay && !s.replay
    requires s.buf == r.buf && s.off == r.off && s.rec == r.rec && s.ll == r.ll
    ensures Standing(m, prompt, committed, held, dec, s)
  {
  }

  /** One cycle of a standing row, whose slab may have been padded beforehand. */
  lemma CycleKeepsStanding(m: Model, prompt: seq<Token>, committed: seq<Token>, held: seq<Token>, dec: seq<Token>,
                           before: Row, grown: Row, draft: Token)
    requires prompt != [] && Standing(m, prompt, committed, held, dec, before)
    requires grown == before.(buf := grown.buf) && |before.buf| <= |grown.buf|
    requires grown.buf[..|before.buf|] == before.buf
    requires Fits(grown)
    ensures var c := CycleRow(m, grown, draft);
            && 1 <= |c.commits| <= 2
            && Standing(m, prompt, committed, held + c.commits, dec + c.commits, c.row)
  {
    assert grown.buf[..before.off] == grown.buf[..|before.buf|][..before.off];
    RowOkBelowOffset(m, prompt + dec, before, grown.buf);
    CycleKeepsRowOk(m, prompt + dec, grown, draft);
    var c := CycleRow(m, grown, draft).commits;
    GreedyAppend(m, prompt, dec, c);
    assert prompt + dec + c == prompt + (dec + c);
    assert committed + (held + c) == dec + c;
  }

  /** One row of a plain decode cycle: feed the primary, commit it. */
  function ArCycleRow(m: Model, r: Row): Cycle
    requires 0 <= r.off < |r.buf|
  {
    var x := m.argmax(r.ll);
    var run := RunRow(m, r.buf, r.off, r.rec, [x]);
    Cycle(r.(buf := run.buf, off := r.off + 1, rec := run.rec, ll := run.outs[0]), [x])
  }

  lemma ArCycleKeepsStanding(m: Model, prompt: seq<Token>, committed: seq<Token>, held: seq<Token>, dec: seq<Token>,
                             before: Row, grown: Row)
    requires prompt != [] && Standing(m, prompt, committed, held, dec, before) && !before.replay
    requires grown == before.(buf := grown.buf) && |before.buf| <= |grown.buf|
    requires grown.buf[..|before.buf|] == before.buf
    requires grown.off < |grown.buf|
    ensures var c := ArCycleRow(m, grown);
            Standing(m, prompt, committed, held + c.commits, dec + c.commits, c.row)
  {
    var ctx, x := prompt + dec, m.argmax(before.ll);
    assert grown.buf[..before.off] == grown.buf[..|before.buf|][..before.off];
    RunRowConsumes(m, ctx, grown.buf, grown.rec, [x]);
    RunRowOutput(m, ctx, grown.buf, grown.rec, [x], 0);
    assert [x][..1] == [x];
    GreedySnoc(m, prompt, dec, x);
    assert prompt + dec + [x] == prompt + (dec + [x]);
    assert committed + (held + [x]) == dec + [x];
  }

  /** One row of a uniform-repair cycle: verify primary and draft; if the cohort repairs, feed the
      primary and its true successor again from the same position and recurrent state. */
  function RepairCycleRow(m: Model, r: Row, draft: Token, repair: bool): Cycle
    requires 0 <= r.off && r.off + 2 <= |r.buf|
  {
    var x0 := m.argmax(r.ll);
    var verify := RunRow(m, r.buf, r.off, r.rec, [x0, draft]);
    var x1 := m.argmax(verify.outs[0]);
    var last := if repair then RunRow(m, verify.buf, r.off, r.rec, [x0, x1]) else verify;
    Cycle(r.(buf := last.buf, off := r.off + 2, rec := last.rec, ll := last.outs[1]), [x0, x1])
  }

  /** Repaired or accepted, a row gains its next two greedy tokens, although the repair runs over the
      slab the rejected draft has written to. */
  lemma RepairCycleKeepsStanding(m: Model, prompt: seq<Token>, committed: seq<Token>, held: seq<Token>, dec: seq<Token>,
                                 before: Row, grown: Row, draft: Token, repair: bool)
    requires prompt != [] && Standing(m, prompt, committed, held, dec, before) && !before.replay
    requires grown == before.(buf := grown.buf) && |before.buf| <= |grown.buf|
    requires grown.buf[..|before.buf|] == before.buf
    requires grown.off + 2 <= |grown.buf|
    requires repair || draft == Next(m, prompt + dec + [Next(m, prompt + dec)])
    ensures var c := RepairCycleRow(m, grown, draft, repair);
            Standing(m, prompt, committed, held + c.commits, dec + c.commits, c.row)
  {
    hide RunRow, IsGreedy;
    var ctx, x0 := prompt + dec, m.argmax(before.ll);
    var x1 := Next(m, ctx + [x0]);
    assert grown.buf[..before.off] == grown.buf[..|before.buf|][..before.off];
    RunRowOutput(m, ctx, grown.buf, grown.rec, [x0, draft], 0);
    assert [x0, draft][..1] == [x0];
    var verify := RunRow(m, grown.buf, grown.off, grown.rec, [x0, draft]);
    RunRowKeepsPrefix(m, grown.buf, grown.off, grown.rec, [x0, draft], grown.off);
    var base := if repair then verify.buf else grown.buf;
    RunRowConsumes(m, ctx, base, grown.rec, [x0, x1]);
    RunRowOutput(m, ctx, base, grown.rec, [x0, x1], 1);
    assert [x0, x1][..2] == [x0, x1];
    GreedyTwo(m, ctx);
    GreedyAppend(m, prompt, dec, [x0, x1]);
    assert prompt + dec + [x0, x1] == prompt + (dec + [x0, x1]);
    assert committed + (held + [x0, x1]) == dec + [x0, x1];
  }

  /** The draft a standing row must see to be accepted. */
  lemma AcceptedDraft(m: Model, prompt: seq<Token>, committed: seq<Token>, held: seq<Token>, dec: seq<Token>,
                      before: Row, grown: Row, draft: Token)
    requires prompt != [] && Standing(m, prompt, committed, held, dec, before) && !before.replay
    requires grown == before.(buf := grown.buf) && |before.buf| <= |grown.buf|
    requires grown.buf[..|before.buf|] == before.buf
    requires grown.off + 2 <= |grown.buf|
    requires draft == RepairCycleRow(m, grown, draft, false).commits[1]
    ensures draft == Next(m, prompt + dec + [Next(m, prompt + dec)])
  {
    var ctx, x0 := prompt + dec, m.argmax(before.ll);
    assert grown.buf[..before.off] == grown.buf[..|before.buf|][..before.off];
    RunRowOutput(m, ctx, grown.buf, grown.rec, [x0, draft], 0);
    assert [x0, draft][..1] == [x0];
  }
}
