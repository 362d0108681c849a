/** The target model as one deterministic function of a single row, and the greedy stream it defines.

    A forward over one token of a row sees that row's visible KV prefix and its recurrent
    state, leaves one KV entry and a new recurrent state, and puts out a logits/hidden pair.
    Everything the drivers must preserve is stated against `Consume`, the state after a clean
    left-to-right read of a token sequence.
  */
module TargetModel {

  type Token = int
  type Entry(!new)      // what one token leaves in the KV cache, all full-attention layers together
  type Recurrent(!new)  // convolution tail and matrix state of one row, all recurrent layers together
  type Output(!new)     // logits and hidden of one row position

  datatype Step = Step(entry: Entry, rec: Recurrent, out: Output)

  /** `zero` is the recurrent fresh-start value, `pad` the filler of unused KV positions. */
  datatype Model = Model(
    zero: Recurrent,
    pad: Entry,
    run: (seq<Entry>, Recurrent, Token) -> Step,
    argmax: Output -> Token)

  datatype RowState = RowState(kv: seq<Entry>, rec: Recurrent)

  function Feed(m: Model, s: RowState, t: Token): RowState {
    var x := m.run(s.kv, s.rec, t);
    RowState(s.kv + [x.entry], x.rec)
  }

  /** The state after reading `ts` from scratch. */
  function Consume(m: Model, ts: seq<Token>): (s: RowState)
    ensures |s.kv| == |ts|
  {
    if ts == [] then RowState([], m.zero)
    else Feed(m, Consume(m, ts[..|ts| - 1]), ts[|ts| - 1])
  }

  /** The output at the last token of `ts`. */
  function Last(m: Model, ts: seq<Token>): Output
    requires ts != []
  {
    var s := Consume(m, ts[..|ts| - 1]);
    m.run(s.kv, s.rec, ts[|ts| - 1]).out
  }

  function Next(m: Model, ts: seq<Token>): Token
    requires ts != []
  {
    m.argmax(Last(m, ts))
  }

  /** The first `n` tokens of plain one-token-at-a-time greedy decoding after `ctx`. */
  function Greedy(m: Model, ctx: seq<Token>, n: nat): (g: seq<Token>)
    requires ctx != []
    ensures |g| == n
  {
    if n == 0 then []
    else
      var g := Greedy(m, ctx, n - 1);
      g + [Next(m, ctx + g)]
  }

  ghost predicate IsGreedy(m: Model, ctx: seq<Token>, ts: seq<Token>)
    requires ctx != []
  {
    ts == Greedy(m, ctx, |ts|)
  }

  lemma {:induction false} GreedyPrefix(m: Model, ctx: seq<Token>, k: nat, n: nat)
    requires ctx != [] && k <= n
    ensures Greedy(m, ctx, n)[..k] == Greedy(m, ctx, k)
  {
    if k < n {
      GreedyPrefix(m, ctx, k, n - 1);
      assert Greedy(m, ctx, n)[..k] == Greedy(m, ctx, n - 1)[..k];
    }
  }

  lemma GreedyNone(m: Model, ctx: seq<Token>)
    requires ctx != []
    ensures IsGreedy(m, ctx, [])
  {
    assert Greedy(m, ctx, 0) == [];
  }

  lemma GreedySnoc(m: Model, ctx: seq<Token>, ts: seq<Token>, t: Token)
    requires ctx != [] && IsGreedy(m, ctx, ts) && t == Next(m, ctx + ts)
    ensures IsGreedy(m, ctx, ts + [t])
  {
    assert Greedy(m, ctx, |ts + [t]| - 1) == ts;
  }

  /** A greedy run resumed after some of its own tokens is the rest of the same run. */
  lemma {:induction false} GreedyAppend(m: Model, ctx: seq<Token>, ts: seq<Token>, us: seq<Token>)
    requires ctx != [] && IsGreedy(m, ctx, ts) && IsGreedy(m, ctx + ts, us)
    ensures IsGreedy(m, ctx, ts + us)
    decreases |us|
  {
    if us == [] {
      assert ts + us == ts;
    } else {
      var vs, u := us[..|us| - 1], us[|us| - 1];
      GreedyPrefix(m, ctx + ts, |vs|, |us|);
      GreedyAppend(m, ctx, ts, vs);
      assert ctx + (ts + vs) == ctx + ts + vs;
      GreedySnoc(m, ctx, ts + vs, u);
      assert ts + us == ts + vs + [u];
    }
  }

  lemma IsGreedyPrefix(m: Model, ctx: seq<Token>, ts: seq<Token>, k: nat)
    requires ctx != [] && IsGreedy(m, ctx, ts) && k <= |ts|
    ensures IsGreedy(m, ctx, ts[..k])
    ensures k < |ts| ==> ts[k] == Next(m, ctx + ts[..k])
  {
    GreedyPrefix(m, ctx, k, |ts|);
    if k < |ts| {
      GreedyPrefix(m, ctx, k + 1, |ts|);
      assert ts[k] == ts[..k + 1][k];
    }
  }

  lemma ConsumeSnoc(m: Model, ts: seq<Token>, t: Token)
    ensures Consume(m, ts + [t]) == Feed(m, Consume(m, ts), t)
    ensures Last(m, ts + [t]) == m.run(Consume(m, ts).kv, Consume(m, ts).rec, t).out
  {
    assert (ts + [t])[..|ts + [t]| - 1] == ts;
  }

  /* ---- one row of a batched forward over a physical KV buffer ---- */

  datatype RowRun = RowRun(buf: seq<Entry>, rec: Recurrent, outs: seq<Output>)

  /** One row of a forward: token i is written at position off + i and reads the positions
      below it out of the same physical buffer, whatever they hold. */
  function RunRow(m: Model, buf: seq<Entry>, off: nat, rec: Recurrent, toks: seq<Token>): (r: RowRun)
    requires off + |toks| <= |buf|
    ensures |r.buf| == |buf| && |r.outs| == |toks|
    decreases |toks|
  {
    if toks == [] then RowRun(buf, rec, [])
    else
      var x := m.run(buf[..off], rec, toks[0]);
      var rest := RunRow(m, buf[off := x.entry], off + 1, x.rec, toks[1..]);
      RowRun(rest.buf, rest.rec, [x.out] + rest.outs)
  }

  /** A forward from a row whose positions below `off` and recurrent state are those of `ctx`
      leaves those of ctx + toks, although positions at and above `off` held arbitrary stale
      entries. */
  lemma {:induction false} RunRowConsumes(m: Model, ctx: seq<Token>, buf: seq<Entry>, rec: Recurrent, toks: seq<Token>)
    requires |ctx| + |toks| <= |buf|
    requires buf[..|ctx|] == Consume(m, ctx).kv && rec == Consume(m, ctx).rec
    ensures var r := RunRow(m, buf, |ctx|, rec, toks);
            r.buf[..|ctx| + |toks|] == Consume(m, ctx + toks).kv && r.rec == Consume(m, ctx + toks).rec
    decreases |toks|
  {
    if toks == [] {
      assert ctx + toks == ctx;
    } else {
      FirstToken(m, ctx, buf, rec, toks[0]);
      var x := m.run(buf[..|ctx|], rec, toks[0]);
      var ctx1 := ctx + [toks[0]];
      RunRowConsumes(m, ctx1, buf[|ctx| := x.entry], x.rec, toks[1..]);
      assert ctx1 + toks[1..] == ctx + toks;
    }
  }

  lemma FirstToken(m: Model, ctx: seq<Token>, buf: seq<Entry>, rec: Recurrent, t: Token)
    requires |ctx| < |buf|
    requires buf[..|ctx|] == Consume(m, ctx).kv && rec == Consume(m, ctx).rec
    ensures var x := m.run(buf[..|ctx|], rec, t);
            && buf[|ctx| := x.entry][..|ctx| + 1] == Consume(m, ctx + [t]).kv
            && x.rec == Consume(m, ctx + [t]).rec
            && x.out == Last(m, ctx + [t])
  {
    ConsumeSnoc(m, ctx, t);
    var x := m.run(buf[..|ctx|], rec, t);
    assert buf[|ctx| := x.entry][..|ctx| + 1] == buf[..|ctx|] + [x.entry];
  }

  /** ... and its i-th output is the output of the clean read of the first i + 1 tokens. */
  lemma {:induction false} RunRowOutput(m: Model, ctx: seq<Token>, buf: seq<Entry>, rec: Recurrent, toks: seq<Token>,
                                        i: nat)
    requires |ctx| + |toks| <= |buf| && i < |toks|
    requires buf[..|ctx|] == Consume(m, ctx).kv && rec == Consume(m, ctx).rec
    ensures RunRow(m, buf, |ctx|, rec, toks).outs[i] == Last(m, ctx + toks[..i + 1])
    decreases |toks|
  {
    FirstToken(m, ctx, buf, rec, toks[0]);
    var x := m.run(buf[..|ctx|], rec, toks[0]);
    var ctx1 := ctx + [toks[0]];
    if i == 0 {
      assert ctx + toks[..1] == ctx1;
    } else {
      RunRowOutput(m, ctx1, buf[|ctx| := x.entry], x.rec, toks[1..], i - 1);
      assert ctx1 + toks[1..][..i] == ctx + toks[..i + 1];
    }
  }

  /** Positions below the write position survive a forward unchanged. */
  lemma {:induction false} RunRowKeepsPrefix(m: Model, buf: seq<Entry>, off: nat, rec: Recurrent, toks: seq<Token>,
                                             k: nat)
    requires off + |toks| <= |buf| && k <= off
    ensures RunRow(m, buf, off, rec, toks).buf[..k] == buf[..k]
    decreases |toks|
  {
    if toks != [] {
      var x := m.run(buf[..off], rec, toks[0]);
      RunRowKeepsPrefix(m, buf[off := x.entry], off + 1, x.rec, toks[1..], k);
      assert buf[off := x.entry][..k] == buf[..k];
    }
  }
}
