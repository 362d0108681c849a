/** Prefill of one request of the MTP cohort, cold or resumed, and the merge of the rows. */
module MtpPrefill {
  import opened TargetModel
  import opened Wrappers
  import opened RaggedCache

  const KV_STEP: nat := 256

  /** What one token leaves in the MTP head's cache: the hidden state before it, and the token. */
  datatype Pair = Pair(hidden: Output, token: Token)

  /** The committed MTP history of a read token sequence. */
  function History(m: Model, ts: seq<Token>): (h: seq<Pair>)
    requires ts != []
    ensures |h| == |ts| - 1
  {
    seq(|ts| - 1, i requires 0 <= i < |ts| - 1 => Pair(Last(m, ts[..i + 1]), ts[i + 1]))
  }

  lemma HistorySnoc(m: Model, ts: seq<Token>, t: Token)
    requires ts != []
    ensures History(m, ts + [t]) == History(m, ts) + [Pair(Last(m, ts), t)]
  {
    var us, h := ts + [t], History(m, ts) + [Pair(Last(m, ts), t)];
    forall i | 0 <= i < |ts|
      ensures History(m, us)[i] == h[i]
    {
      assert us[..i + 1] == ts[..i + 1];
      assert ts[..|ts|] == ts;
    }
  }

  /** One row's caches: target KV slab and recurrent state, MTP history slab. */
  datatype RowCache = RowCache(buf: seq<Entry>, off: nat, rec: Recurrent, hist: seq<Pair>, moff: nat)

  /** Both slabs hold, below their lengths, what a clean read of `ts` leaves; above, anything. */
  ghost predicate Holds(m: Model, ts: seq<Token>, c: RowCache) {
    && c.off == |ts| <= |c.buf|
    && c.buf[..c.off] == Consume(m, ts).kv
    && c.rec == Consume(m, ts).rec
  }

  ghost predicate HoldsHistory(m: Model, ts: seq<Token>, c: RowCache)
    requires ts != []
  {
    && c.moff == |ts| - 1 <= |c.hist|
    && c.hist[..c.moff] == History(m, ts)
  }

  /** The stock cache's growth: a slab that cannot take n more positions drops what is stale above an
      unaligned length and gets whole steps of padding. */
  function Grown<T>(buf: seq<T>, off: nat, n: nat, pad: T): (r: seq<T>)
    requires off <= |buf|
    ensures off + n <= |r| && r[..off] == buf[..off]
  {
    RoundUpBounds(n, KV_STEP);
    if off + n <= |buf| then buf
    else (if off % KV_STEP != 0 then buf[..off] else buf) + Fill(RoundUp(n, KV_STEP), pad)
  }

  /** A target forward appends to the row and returns the outputs. */
  method TargetForward(m: Model, c: RowCache, toks: seq<Token>, ghost ctx: seq<Token>)
    returns (r: RowCache, outs: seq<Output>)
    requires Holds(m, ctx, c)
    ensures Holds(m, ctx + toks, r) && r.hist == c.hist && r.moff == c.moff
    ensures |outs| == |toks| && forall i :: 0 <= i < |toks| ==> outs[i] == Last(m, ctx + toks[..i + 1])
  {
    var buf := Grown(c.buf, c.off, |toks|, m.pad);
    var run := RunRow(m, buf, c.off, c.rec, toks);
    RunRowConsumes(m, ctx, buf, c.rec, toks);
    forall i | 0 <= i < |toks|
      ensures run.outs[i] == Last(m, ctx + toks[..i + 1])
    {
      RunRowOutput(m, ctx, buf, c.rec, toks, i);
    }
    r, outs := RowCache(run.buf, c.off + |toks|, run.rec, c.hist, c.moff), run.outs;
  }

  /** `update_mtp_cache`: append (hidden, token) pairs at the row's own MTP length. */
  function Remember(c: RowCache, pairs: seq<Pair>): (r: RowCache)
    requires c.moff <= |c.hist|
    ensures r.moff == c.moff + |pairs| <= |r.hist| && r.hist[..r.moff] == c.hist[..c.moff] + pairs
    ensures r.buf == c.buf && r.off == c.off && r.rec == c.rec
  {
    if pairs == [] then c
    else
      var slab := Grown(c.hist, c.moff, |pairs|, pairs[0]);
      c.(hist := slab[..c.moff] + pairs + slab[c.moff + |pairs|..], moff := c.moff + |pairs|)
  }

  /** Remembering the pairs of the next tokens extends the committed history by exactly them. */
  lemma RememberExtends(m: Model, ts: seq<Token>, more: seq<Token>, h: seq<Pair>, pairs: seq<Pair>)
    requires ts != [] && h == History(m, ts) && |pairs| == |more|
    requires forall i :: 0 <= i < |more| ==> pairs[i] == Pair(Last(m, ts + more[..i]), more[i])
    ensures h + pairs == History(m, ts + more)
  {
    hide Last;
    var us, n := ts + more, |ts| - 1;
    forall i | 0 <= i < |us| - 1
      ensures History(m, us)[i] == (h + pairs)[i]
    {
      if i < n {
        assert us[..i + 1] == ts[..i + 1];
      } else {
        assert us[..i + 1] == ts + more[..i - n];
      }
    }
  }

  /** An interior boundary: position, recurrent snapshot after it, hidden of the token before it. */
  datatype Boundary = Boundary(position: nat, rec: Recurrent, hidden: Output)

  ghost predicate BoundaryTrue(m: Model, prompt: seq<Token>, b: Boundary) {
    && 0 < b.position < |prompt|
    && b.rec == Consume(m, prompt[..b.position]).rec
    && b.hidden == Last(m, prompt[..b.position])
  }

  /** A session-bank restore: the caches of a stored row cut at `point`, and the boundary's hidden. */
  datatype Restored = Restored(cache: RowCache, point: int, hidden: Option<Output>)

  predicate Usable(prompt: seq<Token>, r: Restored) {
    r.hidden.Some? && 0 < r.point < |prompt|
  }

  /** The stored row was cut at a boundary of this very prompt. */
  ghost predicate RestoreTrue(m: Model, prompt: seq<Token>, r: Restored)
    requires Usable(prompt, r)
  {
    && Holds(m, prompt[..r.point], r.cache) && HoldsHistory(m, prompt[..r.point], r.cache)
    && r.hidden.value == Last(m, prompt[..r.point])
  }

  datatype Prefilled = EmptyPrompt | BadRestore | Aborted | Ready(cache: RowCache, out: Output)

  /** Between chunks: the first `done` tokens are consumed, and the history already holds the pair of
      the token that comes next. */
  ghost predicate AtChunk(m: Model, prompt: seq<Token>, done: nat, c: RowCache)
    requires done < |prompt|
  {
    Holds(m, prompt[..done], c) && HoldsHistory(m, prompt[..done + 1], c)
  }

  lemma ColdStart(m: Model, prompt: seq<Token>)
    requires prompt != []
    ensures AtChunk(m, prompt, 0, RowCache([], 0, m.zero, [], 0))
  {
    assert Consume(m, prompt[..0]) == RowState([], m.zero);
    assert History(m, prompt[..1]) == [];
  }

  function Chunks(n: nat, chunk: nat): nat
    requires chunk >= 1
  {
    if n == 0 then 0 else if n <= chunk then 1 else 1 + Chunks(n - chunk, chunk)
  }

  lemma ChunkLess(n: nat, chunk: nat)
    requires chunk >= 1 && n >= 1
    ensures Chunks(n, chunk) == 1 + Chunks(n - (if chunk < n then chunk else n), chunk)
  {
  }

  /** How often a prefill asks whether it is to abort: on entry, three times a chunk, and at the end. */
  function PrefillPolls(prompt: seq<Token>, restored: Option<Restored>, chunk: nat): nat
    requires chunk >= 1 && prompt != [] && (restored.Some? ==> restored.value.point < |prompt|)
  {
    2 + 3 * Chunks(|prompt| - 1 - (if restored.Some? then restored.value.point else 0), chunk)
  }

  /** `_prefill_qwen35b_batch_request`: for every chunk size, and cold or resumed from any
      boundary-true restore, the row ends as one clean read of the whole prompt leaves it, and every
      boundary captured on the way is boundary-true. */
  method PrefillRequest(m: Model, prompt: seq<Token>, chunk: nat, restored: Option<Restored>, abort: nat -> bool,
                        sink: seq<Boundary>)
    returns (r: Prefilled, sink': seq<Boundary>)
    requires chunk >= 1
    requires restored.Some? && Usable(prompt, restored.value) ==> RestoreTrue(m, prompt, restored.value)
    requires forall i :: 0 <= i < |sink| ==> BoundaryTrue(m, prompt, sink[i])
    ensures r.EmptyPrompt? <==> prompt == []
    ensures r.BadRestore? ==> restored.Some? && !Usable(prompt, restored.value)
    ensures prompt != [] && !abort(0) && (restored.Some? ==> Usable(prompt, restored.value)) ==>
              (r.Aborted? <==> exists k :: 0 <= k < PrefillPolls(prompt, restored, chunk) && abort(k))
    ensures prompt != [] && abort(0) ==> r.Aborted?
    ensures r.Aborted? ==> exists k :: abort(k)
    ensures restored.Some? && !Usable(prompt, restored.value) && prompt != [] && !abort(0) ==> r.BadRestore?
    ensures restored.Some? && !Usable(prompt, restored.value) ==> !r.Ready?
    ensures r.Ready? ==> Holds(m, prompt, r.cache) && HoldsHistory(m, prompt, r.cache) && r.out == Last(m, prompt)
    ensures forall i :: 0 <= i < |sink'| ==> BoundaryTrue(m, prompt, sink'[i])
    ensures sink <= sink'
    ensures var start, body := if restored.Some? then restored.value.point else 0, |prompt| - 1;
            && (forall i :: |sink| <= i < |sink'| ==>
                  && start + (i - |sink|) * chunk < body
                  && var edge := start + (i - |sink| + 1) * chunk;
                     sink'[i].position == if edge < body then edge else body)
            && (r.Ready? ==> body <= start + (|sink'| - |sink|) * chunk)
  {
    hide RunRow, History, Last, Consume;
    sink' := sink;
    if prompt == [] {
      return EmptyPrompt, sink';
    }
    if abort(0) {
      return Aborted, sink';
    }
    var c, start := RowCache([], 0, m.zero, [], 0), 0;
    if restored.Some? {
      if !Usable(prompt, restored.value) {
        return BadRestore, sink';
      }
      start := restored.value.point;
      c := Remember(restored.value.cache, [Pair(restored.value.hidden.value, prompt[start])]);
      HistorySnoc(m, prompt[..start], prompt[start]);
      assert prompt[..start] + [prompt[start]] == prompt[..start + 1];
    }
    if restored.None? {
      ColdStart(m, prompt);
    }
    hide AtChunk, BoundaryTrue, RestoreTrue, AtEdges, Chunks;
    ghost var k, n, done;
    var polls, go;
    go, k, n, done, polls, c, sink' := PrefillBody(m, prompt, start, chunk, c, abort, sink);
    ChunksIs(|prompt| - 1 - start, chunk, n);
    EdgesOfSink(sink, sink', start, chunk, |prompt| - 1, done);
    if !go {
      return Aborted, sink';
    }
    var out;
    c, out := PrefillLast(m, prompt, c);
    r := if abort(polls) then Aborted else Ready(c, out);
  }

  /** The prompt but for its last token, chunk by chunk: `n` whole chunks, up to `done`. */
  method PrefillBody(m: Model, prompt: seq<Token>, start: nat, chunk: nat, c0: RowCache, abort: nat -> bool,
                     sink: seq<Boundary>)
    returns (go: bool, ghost k: nat, ghost n: nat, ghost done: nat, polls: nat, c: RowCache, sink': seq<Boundary>)
    requires chunk >= 1 && start < |prompt| && AtChunk(m, prompt, start, c0) && !abort(0)
    requires forall i :: 0 <= i < |sink| ==> BoundaryTrue(m, prompt, sink[i])
    ensures forall i :: 0 <= i < |sink'| ==> BoundaryTrue(m, prompt, sink'[i])
    ensures sink <= sink' && AtEdges(sink'[|sink|..], start, chunk, |prompt| - 1, done)
    ensures n == 0 || start + (n - 1) * chunk < |prompt| - 1
    ensures if go then
              && done == |prompt| - 1 <= start + n * chunk && AtChunk(m, prompt, done, c)
              && polls == 1 + 3 * n && forall k :: 0 <= k < polls ==> !abort(k)
            else
              start + n * chunk < |prompt| - 1 && k < 4 + 3 * n && abort(k)
  {
    hide AtChunk, BoundaryTrue;
    var body, at := |prompt| - 1, start;
    go, k, n, done, polls, c, sink' := true, 0, 0, start, 1, c0, sink;
    assert AtEdges(sink'[|sink|..], start, chunk, body, done);
    while at < body
      invariant start <= at == done <= body && AtChunk(m, prompt, done, c)
      invariant go && polls == 1 + 3 * n && forall k :: 0 <= k < polls ==> !abort(k)
      invariant forall i :: 0 <= i < |sink'| ==> BoundaryTrue(m, prompt, sink'[i])
      invariant sink <= sink' && AtEdges(sink'[|sink|..], start, chunk, body, done) && |sink'| == |sink| + n
      invariant n == 0 || start + (n - 1) * chunk < body
    {
      var end := if at + chunk < body then at + chunk else body;
      ghost var sofar := sink'[|sink|..];
      BeforeEdge(sofar, start, chunk, body, done);
      hide AtEdges;
      go, k, c, sink' := PrefillTurn(m, prompt, at, end, c, polls, abort, sink');
      assert sink'[|sink|..] == sofar || sink'[|sink|..] == sofar + [sink'[|sink'| - 1]];
      NextEdge(sofar, start, chunk, body, done, end, sink'[|sink|..]);
      done := if sink'[|sink|..] == sofar then done else end;
      if !go {
        return;
      }
      n, polls, at := n + 1, polls + 3, end;
    }
    BeforeEdge(sink'[|sink|..], start, chunk, body, done);
  }

  lemma BeforeEdge(news: seq<Boundary>, start: nat, chunk: nat, body: nat, done: nat)
    requires AtEdges(news, start, chunk, body, done)
    ensures done < body <==> start + |news| * chunk < body
  {
  }

  /** The number of chunks: the least that reaches the end. */
  lemma {:induction false} ChunksIs(n: nat, chunk: nat, k: nat)
    requires chunk >= 1 && (k == 0 || (k - 1) * chunk < n)
    ensures k <= Chunks(n, chunk)
    ensures n <= k * chunk ==> Chunks(n, chunk) == k
    ensures k * chunk < n ==> k < Chunks(n, chunk)
    decreases k
  {
    if k > 0 {
      assert k * chunk == (k - 1) * chunk + chunk;
      if n > chunk {
        assert k > 1 ==> (k - 1) * chunk == (k - 2) * chunk + chunk;
        ChunksIs(n - chunk, chunk, k - 1);
      }
    }
  }

  /** The boundaries captured so far stand at the chunk edges from `start` up to `done`. */
  ghost predicate AtEdges(news: seq<Boundary>, start: nat, chunk: nat, body: nat, done: nat) {
    && done == (if start + |news| * chunk < body then start + |news| * chunk else body)
    && forall i :: 0 <= i < |news| ==>
         && start + i * chunk < body
         && news[i].position == if start + (i + 1) * chunk < body then start + (i + 1) * chunk else body
  }

  lemma NextEdge(news: seq<Boundary>, start: nat, chunk: nat, body: nat, done: nat, end: nat, news': seq<Boundary>)
    requires AtEdges(news, start, chunk, body, done) && done < body && chunk >= 1
    requires end == if done + chunk < body then done + chunk else body
    requires news' == news || (|news'| == |news| + 1 && news'[..|news|] == news && news'[|news|].position == end)
    ensures AtEdges(news', start, chunk, body, if news' == news then done else end)
  {
    assert (|news| + 1) * chunk == |news| * chunk + chunk;
    if news' != news {
      assert forall i :: 0 <= i < |news| ==> news'[i] == news'[..|news|][i];
    }
  }

  /** What the boundaries of a prefill are, told of the sink. */
  lemma EdgesOfSink(sink: seq<Boundary>, sink': seq<Boundary>, start: nat, chunk: nat, body: nat, done: nat)
    requires sink <= sink' && AtEdges(sink'[|sink|..], start, chunk, body, done)
    ensures forall i :: |sink| <= i < |sink'| ==>
              && start + (i - |sink|) * chunk < body
              && var edge := start + (i - |sink| + 1) * chunk;
                 sink'[i].position == if edge < body then edge else body
    ensures done == body ==> body <= start + (|sink'| - |sink|) * chunk
  {
    var news := sink'[|sink|..];
    forall i | |sink| <= i < |sink'|
      ensures && start + (i - |sink|) * chunk < body
              && var edge := start + (i - |sink| + 1) * chunk;
                 sink'[i].position == if edge < body then edge else body
    {
      assert news[i - |sink|] == sink'[i];
    }
  }

  method PrefillLast(m: Model, prompt: seq<Token>, c: RowCache) returns (r: RowCache, out: Output)
    requires prompt != [] && AtChunk(m, prompt, |prompt| - 1, c)
    ensures Holds(m, prompt, r) && HoldsHistory(m, prompt, r) && out == Last(m, prompt)
  {
    var body := |prompt| - 1;
    ghost var ctx := prompt[..body];
    assert ctx + [prompt[body]] == prompt == prompt[..body + 1];
    var outs;
    r, outs := TargetForward(m, c, [prompt[body]], ctx);
    assert [prompt[body]][..1] == [prompt[body]];
    out := outs[0];
  }

  /** One chunk, unless one of its three polls says abort. */
  method PrefillTurn(m: Model, prompt: seq<Token>, done: nat, end: nat, c: RowCache, polls: nat, abort: nat -> bool,
                     sink: seq<Boundary>)
    returns (go: bool, ghost k: nat, r: RowCache, sink': seq<Boundary>)
    requires done < end < |prompt| && AtChunk(m, prompt, done, c)
    requires forall i :: 0 <= i < |sink| ==> BoundaryTrue(m, prompt, sink[i])
    ensures if go then !abort(polls) && !abort(polls + 1) && !abort(polls + 2) && AtChunk(m, prompt, end, r)
            else polls <= k < polls + 3 && abort(k)
    ensures forall i :: 0 <= i < |sink'| ==> BoundaryTrue(m, prompt, sink'[i])
    ensures sink' == sink || (|sink'| == |sink| + 1 && sink'[..|sink|] == sink && sink'[|sink|].position == end)
    ensures go ==> sink' != sink
  {
    hide RunRow, History, Last, Consume, Holds, HoldsHistory;
    r, sink', k := c, sink, polls;
    if abort(polls) {
      return false, k, r, sink';
    }
    var outs;
    r, outs := PrefillChunk(m, prompt, done, end, r);
    if abort(polls + 1) {
      return false, polls + 1, r, sink';
    }
    r := RememberChunk(m, prompt, done, end, r, outs);
    sink' := sink' + [Boundary(end, r.rec, outs[end - done - 1])];
    return !abort(polls + 2), polls + 2, r, sink';
  }

  method PrefillChunk(m: Model, prompt: seq<Token>, done: nat, end: nat, c: RowCache)
    returns (r: RowCache, outs: seq<Output>)
    requires done < end < |prompt| && AtChunk(m, prompt, done, c)
    ensures Holds(m, prompt[..end], r) && HoldsHistory(m, prompt[..done + 1], r)
    ensures |outs| == end - done && forall i :: 0 <= i < end - done ==> outs[i] == Last(m, prompt[..done + i + 1])
  {
    r, outs := TargetForward(m, c, prompt[done..end], prompt[..done]);
    assert prompt[..done] + prompt[done..end] == prompt[..end];
    forall i | 0 <= i < end - done
      ensures outs[i] == Last(m, prompt[..done + i + 1])
    {
      assert prompt[..done] + prompt[done..end][..i + 1] == prompt[..done + i + 1];
    }
  }

  method RememberChunk(m: Model, prompt: seq<Token>, done: nat, end: nat, c: RowCache, outs: seq<Output>)
    returns (r: RowCache)
    requires done < end < |prompt| && Holds(m, prompt[..end], c) && HoldsHistory(m, prompt[..done + 1], c)
    requires |outs| == end - done && forall i :: 0 <= i < end - done ==> outs[i] == Last(m, prompt[..done + i + 1])
    ensures AtChunk(m, prompt, end, r) && r.rec == c.rec
  {
    var n := end - done;
    var pairs := seq(n, i requires 0 <= i < n => Pair(outs[i], prompt[done + 1 + i]));
    r := Remember(c, pairs);
    var ts, more := prompt[..done + 1], prompt[done + 1..end + 1];
    forall i | 0 <= i < n
      ensures pairs[i] == Pair(Last(m, ts + more[..i]), more[i])
    {
      assert ts + more[..i] == prompt[..done + i + 1];
    }
    RememberExtends(m, ts, more, c.hist[..c.moff], pairs);
    assert ts + more == prompt[..end + 1];
  }

  /* ---- merging prefilled rows into one ragged cohort cache ---- */

  function MaxOf(ns: seq<nat>): (n: nat)
    ensures forall i :: 0 <= i < |ns| ==> ns[i] <= n
    ensures ns != [] ==> n in ns
  {
    if ns == [] then 0
    else
      var r := MaxOf(ns[..|ns| - 1]);
      if |ns| == 1 || r < ns[|ns| - 1] then ns[|ns| - 1] else r
  }

  /** `_merge_qwen35b_kv_rows`: rows of any physical allocation become rows of one capacity, sized by
      the longest logical row and not by the largest allocation; nothing below a row's length is
      lost or moved. */
  method MergeRows<T>(slabs: seq<seq<T>>, offsets: seq<nat>, pad: T) returns (merged: seq<seq<T>>, capacity: nat)
    requires |slabs| == |offsets| && forall i :: 0 <= i < |slabs| ==> offsets[i] <= |slabs[i]|
    ensures |merged| == |slabs| && forall i :: 0 <= i < |slabs| ==> |merged[i]| == capacity
    ensures forall i :: 0 <= i < |slabs| ==> offsets[i] <= capacity && merged[i][..offsets[i]] == slabs[i][..offsets[i]]
    ensures capacity < MaxOf(offsets) + KV_STEP || capacity == KV_STEP
  {
    if forall i :: 0 <= i < |slabs| ==> slabs[i] == [] {
      return slabs, 0;
    }
    var longest := MaxOf(offsets);
    RoundUpBounds(longest, KV_STEP);
    capacity := if RoundUp(longest, KV_STEP) < KV_STEP then KV_STEP else RoundUp(longest, KV_STEP);
    var cap := capacity;
    merged := seq(|slabs|, i requires 0 <= i < |slabs| =>
      if cap < |slabs[i]| then slabs[i][..cap] else slabs[i] + Fill(cap - |slabs[i]|, pad));
  }
}
