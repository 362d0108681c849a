/** `generate_a3b_mtp_batch` on its greedy route: the cohort loop over all rows. */
module Cohort {
  import opened Wrappers
  import opened TargetModel
  import opened Ledger
  import opened RaggedCache
  import opened MtpPrefill
  import opened CohortRow

  /** Every moment at which a row is asked whether it has been cancelled. */
  datatype Poll =
    | AtEntry
    | Prefilling(k: nat)
    | WhilePeer(peer: nat)
    | AtCycle(cycle: nat)
    | AtCommit(cycle: nat)
    | BeforeToken(cycle: nat, i: nat)
    | AfterToken(cycle: nat, i: nat)

  /* ---- what a row's polls make of its run ---- */

  /** No poll around the first `n` tokens committed in a cycle says cancelled. */
  ghost predicate TokensQuiet(cancel: (Poll, nat) -> bool, b: nat, cycle: nat, n: nat) {
    forall j :: 0 <= j < n ==> !cancel(BeforeToken(cycle, j), b) && !cancel(AfterToken(cycle, j), b)
  }

  /** A cycle that took a running row from `before` to `after` tokens and left it running. */
  ghost predicate WholeCycle(cancel: (Poll, nat) -> bool, b: nat, cycle: nat, before: nat, after: nat) {
    && before < after <= before + 3
    && !cancel(AtCycle(cycle), b) && !cancel(AtCommit(cycle), b)
    && TokensQuiet(cancel, b, cycle, after - before)
  }

  /** The cycle a row ended in, begun with `before` tokens: it is cut at the first poll that says
      cancelled, which finds the request unfinished, or, if none does, done. */
  ghost predicate LastCycle(cancel: (Poll, nat) -> bool, b: nat, q: Request, cycle: nat, before: nat, toks: seq<Token>,
                            end: End)
  {
    var n := |toks| - before;
    && 0 <= n <= 3
    && if cancel(AtCycle(cycle), b) || cancel(AtCommit(cycle), b) then n == 0 && end.Cancelled? && Unfinished(q, toks)
       else if n > 0 && cancel(AfterToken(cycle, n - 1), b) then
         && end.Cancelled?
         && TokensQuiet(cancel, b, cycle, n - 1) && !cancel(BeforeToken(cycle, n - 1), b)
       else
         && TokensQuiet(cancel, b, cycle, n)
         && (end.Cancelled? ==> n < 3 && cancel(BeforeToken(cycle, n), b) && Unfinished(q, toks))
         && (end.Done? ==> n > 0)
  }

  ghost predicate Unfinished(q: Request, toks: seq<Token>) {
    |toks| < q.maxTokens && forall i :: 0 <= i < |toks| ==> toks[i] !in q.stop
  }

  /** A row's run from cycle `from` on: cycle `from + i` began with `starts[i]` tokens; all cycles but the
      last were whole, and in the last the row ended. */
  ghost predicate RanUntil(cancel: (Poll, nat) -> bool, b: nat, q: Request, from: nat, starts: seq<nat>,
                           toks: seq<Token>, end: End)
  {
    && starts != [] && RanWhole(cancel, b, from, starts)
    && LastCycle(cancel, b, q, from + |starts| - 1, starts[|starts| - 1], toks, end)
  }

  ghost predicate RanWhole(cancel: (Poll, nat) -> bool, b: nat, from: nat, starts: seq<nat>) {
    forall i, j :: 0 <= i < j < |starts| && j == i + 1 ==> WholeCycle(cancel, b, from + i, starts[i], starts[j])
  }

  lemma {:induction false} StartsRise(cancel: (Poll, nat) -> bool, b: nat, from: nat, starts: seq<nat>, i: nat)
    requires RanWhole(cancel, b, from, starts) && i < |starts|
    ensures starts[0] + i <= starts[i] <= starts[0] + 3 * i
  {
    if i > 0 {
      StartsRise(cancel, b, from, starts, i - 1);
      assert WholeCycle(cancel, b, from + (i - 1), starts[i - 1], starts[i]);
    }
  }

  /** What a row committed before it was cancelled is not lost: if no poll of its first `n` cycles says
      cancelled, it has at least a token for each. */
  lemma NothingLost(cancel: (Poll, nat) -> bool, b: nat, q: Request, from: nat, starts: seq<nat>, toks: seq<Token>,
                    end: End, n: nat)
    requires RanUntil(cancel, b, q, from, starts, toks, end) && end.Cancelled?
    requires forall i :: from <= i < from + n ==>
               && !cancel(AtCycle(i), b) && !cancel(AtCommit(i), b)
               && forall j :: 0 <= j < 3 ==> !cancel(BeforeToken(i, j), b) && !cancel(AfterToken(i, j), b)
    ensures n < |starts| && starts[0] + n <= |toks|
  {
    var c := |starts| - 1;
    StartsRise(cancel, b, from, starts, c);
    assert LastCycle(cancel, b, q, from + c, starts[c], toks, end);
    assert from + c >= from + n;
  }

  /** A poll that says cancelled ends the row where it is asked: nothing is committed in a cycle, or after
      a token, from there on. */
  lemma PollEnds(cancel: (Poll, nat) -> bool, b: nat, q: Request, from: nat, starts: seq<nat>, toks: seq<Token>,
                 end: End, n: nat, j: nat)
    requires RanUntil(cancel, b, q, from, starts, toks, end)
    ensures cancel(AtCycle(from + n), b) || cancel(AtCommit(from + n), b) ==>
              && |starts| <= n + 1 && |toks| <= starts[0] + 3 * n
              && (|starts| == n + 1 ==> end.Cancelled? && |toks| == starts[n])
    ensures cancel(BeforeToken(from + n, j), b) ==>
              && (|starts| > n + 1 ==> starts[n + 1] <= starts[n] + j)
              && (|starts| == n + 1 ==> |toks| <= starts[n] + j)
    ensures cancel(AfterToken(from + n, j), b) ==>
              && (|starts| > n + 1 ==> starts[n + 1] <= starts[n] + j)
              && (|starts| == n + 1 ==> |toks| <= starts[n] + j || (|toks| == starts[n] + j + 1 && end.Cancelled?))
  {
    var c := |starts| - 1;
    StartsRise(cancel, b, from, starts, c);
    if n < c {
      assert WholeCycle(cancel, b, from + n, starts[n], starts[n + 1]);
    }
  }

  class Batch {
    const m: Model
    const requests: seq<Request>
    const width: nat
    const cancel: (Poll, nat) -> bool
    const drafter: (nat, nat, seq<Pair>) -> Token
    var rows: seq<RowCache>
    var last: seq<Output>
    var tokens: seq<seq<Token>>
    var pending: seq<Option<Token>>
    var finish: seq<Option<End>>
    var targetBounds: seq<nat>
    var mtpBounds: seq<nat>
    var cycles: nat

    constructor (m: Model, requests: seq<Request>, rows: seq<RowCache>, last: seq<Output>, finish: seq<Option<End>>,
                 cancel: (Poll, nat) -> bool, drafter: (nat, nat, seq<Pair>) -> Token)
      requires |rows| == |last| && |finish| == |requests|
      ensures this.m == m && this.requests == requests && this.width == |rows| && this.rows == rows && this.last == last
      ensures this.cancel == cancel && this.finish == finish && cycles == 0
      ensures tokens == Fill(|requests|, []) && pending == Fill(|requests|, None)
      ensures |targetBounds| == |mtpBounds| == |rows|
      ensures forall b :: 0 <= b < |rows| ==> targetBounds[b] == rows[b].off && mtpBounds[b] == rows[b].moff
    {
      this.m, this.requests, this.width, this.cancel, this.drafter := m, requests, |rows|, cancel, drafter;
      this.rows, this.last, this.finish := rows, last, finish;
      tokens, pending := Fill(|requests|, []), Fill(|requests|, None);
      targetBounds := seq(|rows|, b requires 0 <= b < |rows| => rows[b].off);
      mtpBounds := seq(|rows|, b requires 0 <= b < |rows| => rows[b].moff);
      cycles := 0;
    }

    /* ---- what every cycle keeps ---- */

    ghost predicate Shaped()
      reads this
    {
      && |requests| <= width
      && |rows| == |last| == |targetBounds| == |mtpBounds| == width
      && |tokens| == |pending| == |finish| == |requests|
      && forall b :: 0 <= b < |requests| ==> requests[b].prompt != [] && requests[b].maxTokens >= 1
    }

    /** The host bounds are the device lengths, and no length outruns its slab. */
    ghost predicate SlabOk(b: nat)
      requires Shaped() && b < width
      reads this
    {
      rows[b].off == targetBounds[b] <= |rows[b].buf| && rows[b].moff == mtpBounds[b] <= |rows[b].hist|
    }

    /** A running row's caches hold its prompt and its tokens but a pending one, its MTP history the
        pairs before the last of them, and it has a token per cycle; an ended row has its result. */
    ghost predicate RequestOk(b: nat, age: nat)
      requires Shaped() && b < |requests|
      reads this
    {
      match finish[b]
      case None => RowRunning(m, requests[b], tokens[b], pending[b], rows[b], last[b]) && age <= |tokens[b]|
      case Some(end) => Ended(m, requests[b], tokens[b], end) && (end.Cancelled? ==> exists p :: cancel(p, b))
    }

    ghost predicate Ok()
      reads this
    {
      && Shaped()
      && (forall b :: 0 <= b < width ==> SlabOk(b))
      && (forall b :: 0 <= b < |requests| ==> RequestOk(b, cycles))
    }

    predicate Active(b: nat)
      reads this
    {
      b < |requests| && b < |finish| && finish[b].None?
    }

    predicate AnyRunning()
      reads this
    {
      exists b :: 0 <= b < |finish| && finish[b].None?
    }

    /** The lengths of a running row: one position per consumed token, one history pair fewer. */
    lemma RunningLengths(b: nat)
      requires Ok() && b < |requests| && Active(b)
      ensures |tokens[b]| + |requests[b].prompt| == targetBounds[b] + (if pending[b].Some? then 1 else 0)
      ensures mtpBounds[b] + 1 == targetBounds[b]
    {
      assert RequestOk(b, cycles) && SlabOk(b);
    }

    /** Cancellations are honoured at the start of a cycle: what the row has stays. */
    method PollCancels()
      requires Ok()
      modifies this`finish
      ensures Ok()
      ensures forall b :: 0 <= b < |requests| ==>
                finish[b] == if old(finish[b]).None? && cancel(AtCycle(cycles), b) then Some(Cancelled)
                             else old(finish[b])
    {
      hide RowRunning, Ended;
      for b := 0 to |requests|
        invariant Ok()
        invariant forall c :: 0 <= c < |requests| ==>
                    finish[c] == if c < b && old(finish[c]).None? && cancel(AtCycle(cycles), c) then Some(Cancelled)
                                 else old(finish[c])
      {
        assert RequestOk(b, cycles);
        label polled:
        if finish[b].None? && cancel(AtCycle(cycles), b) {
          CancelledRow(b);
          finish := finish[b := Some(Cancelled)];
        }
        forall c | 0 <= c < |requests|
          ensures RequestOk(c, cycles)
        {
          assert old@polled(RequestOk(c, cycles));
        }
        assert Shaped();
        forall c | 0 <= c < width
          ensures SlabOk(c)
        {
          assert old@polled(SlabOk(c));
        }
      }
    }

    lemma CancelledRow(b: nat)
      requires Shaped() && b < |requests| && RowRunning(m, requests[b], tokens[b], pending[b], rows[b], last[b])
      ensures Ended(m, requests[b], tokens[b], Cancelled)
    {
    }

    /** What one row's cycle makes of it, before it is stored. */
    ghost predicate Planned(b: nat, active: bool, d: Decision, s: RowStep)
      requires Shaped() && b < width && (active ==> b < |requests|)
      reads this
    {
      && s.cache.off == rows[b].off + d.keep <= |s.cache.buf|
      && s.cache.moff == rows[b].moff + (if active then 1 else 0) + (if d.accepted then 1 else 0) <= |s.cache.hist|
      && if active then RowEmits(m, requests[b], tokens[b], d, s.cache, s.last) else SameVisible(s.cache, rows[b])
    }

    lemma StepIsPlanned(b: nat, active: bool, primary: Token, draft: Token, d: Decision, bound: nat, mtpBound: nat,
                        mtpBound1: nat)
      requires Ok() && b < width && active == Active(b)
      requires rows[b].off <= bound && rows[b].moff <= mtpBound && rows[b].moff + (if active then 1 else 0) <= mtpBound1
      requires active ==> primary == Primary(m, pending[b], last[b])
      requires d == if active then RowDecision(m, requests[b], tokens[b], pending[b], rows[b], last[b], draft, bound)
                    else IDLE
      ensures d.keep <= 2
      ensures Planned(b, active, d,
                      RowCycle(m, rows[b], last[b], active, primary, draft, d, bound, mtpBound, mtpBound1))
    {
      hide RowRunning, RowEmits, RowCycle, RowDecision, Ended;
      assert SlabOk(b);
      if active {
        assert RequestOk(b, cycles);
        CycleKeepsRunning(m, requests[b], tokens[b], pending[b], rows[b], last[b], draft, bound, mtpBound, mtpBound1);
      } else {
        IdleRowUnchanged(m, rows[b], last[b], primary, draft, bound, mtpBound, mtpBound1);
      }
    }

    function ActiveRows(): (active: seq<bool>)
      requires Shaped()
      reads this
      ensures |active| == width && forall b :: 0 <= b < width ==> active[b] == Active(b)
    {
      seq(width, b requires 0 <= b < width reads this => Active(b))
    }

    /** Draft, verify and decide every row. The drafter sees the committed history with the primary's
        pair; only active rows keep that pair. */
    method Plan() returns (ds: seq<Decision>, steps: seq<RowStep>)
      requires Ok()
      ensures |ds| == |steps| == width
      ensures forall b :: 0 <= b < width ==> Planned(b, Active(b), ds[b], steps[b])
    {
      hide RowRunning, RowEmits, RowCycle, RowDecision, Ended, Planned, RequestOk;
      var n, cyc, draw, mdl, reqs := width, cycles, drafter, m, requests;
      var c0, l0, t0, p0, mb := rows, last, tokens, pending, mtpBounds;
      var active := ActiveRows();
      var primary := seq(n, b requires 0 <= b < n => if active[b] then Primary(mdl, p0[b], l0[b]) else 0);
      var draft := seq(n, b requires 0 <= b < n => draw(cyc, b, SeenByDrafter(c0[b], l0[b], primary[b])));
      var mb1 := seq(n, b requires 0 <= b < n => mb[b] + (if active[b] then 1 else 0));
      var bound, mtpBound, mtpBound1 := MaxOf(targetBounds), MaxOf(mb), MaxOf(mb1);
      forall b | 0 <= b < n
        ensures c0[b].off <= bound && c0[b].moff <= mtpBound && c0[b].moff + (if active[b] then 1 else 0) <= mtpBound1
      {
        assert SlabOk(b) && mb1[b] <= mtpBound1;
      }
      ds := seq(n, b requires 0 <= b < n =>
        if active[b] then RowDecision(mdl, reqs[b], t0[b], p0[b], c0[b], l0[b], draft[b], bound) else IDLE);
      var decided := ds;
      forall b | 0 <= b < n
        ensures decided[b].keep <= 2
        ensures Planned(b, active[b], decided[b],
                        RowCycle(m, c0[b], l0[b], active[b], primary[b], draft[b], decided[b],
                                 bound, mtpBound, mtpBound1))
      {
        StepIsPlanned(b, active[b], primary[b], draft[b], decided[b], bound, mtpBound, mtpBound1);
      }
      steps := seq(n, b requires 0 <= b < n =>
        RowCycle(mdl, c0[b], l0[b], active[b], primary[b], draft[b], decided[b], bound, mtpBound, mtpBound1));
    }

    /** The device half of a cycle: draft, verify, decide and commit rows. Running rows emit greedy
        tokens and keep exactly the positions that stand; the other rows show no change. */
    method Advance() returns (ds: seq<Decision>)
      requires Ok()
      modifies this`rows, this`last, this`targetBounds, this`mtpBounds
      ensures Shaped() && |ds| == width && forall b :: 0 <= b < width ==> SlabOk(b)
      ensures forall b :: 0 <= b < width ==>
                if Active(b) then RowEmits(m, requests[b], tokens[b], ds[b], rows[b], last[b])
                else SameVisible(rows[b], old(rows[b]))
    {
      hide RowEmits, RequestOk, SameVisible;
      var steps;
      ds, steps := Plan();
      var n, decided, next, active, tb, mb := width, ds, steps, ActiveRows(), targetBounds, mtpBounds;
      assert forall b :: 0 <= b < n ==> SlabOk(b) && Planned(b, Active(b), ds[b], steps[b]);
      rows := seq(n, b requires 0 <= b < n => next[b].cache);
      last := seq(n, b requires 0 <= b < n => next[b].last);
      targetBounds := seq(n, b requires 0 <= b < n => tb[b] + decided[b].keep);
      mtpBounds := seq(n, b requires 0 <= b < n =>
        mb[b] + (if active[b] then 1 else 0) + (if decided[b].accepted then 1 else 0));
    }

    /** What a row looks like between its device half and its commit. */
    ghost predicate Emitting(b: nat, d: Decision, age: nat)
      requires Shaped() && b < |requests|
      reads this
    {
      match finish[b]
      case None => RowEmits(m, requests[b], tokens[b], d, rows[b], last[b]) && age <= |tokens[b]|
      case Some(end) => Ended(m, requests[b], tokens[b], end) && (end.Cancelled? ==> exists p :: cancel(p, b))
    }

    /** What a commit of `emit` after `before` leaves when each token is polled before and after: the
        tokens up to the first poll that says cancelled, and else everything the commit takes. */
    ghost predicate Polled(b: nat, cycle: nat, before: seq<Token>, emit: seq<Token>, toks: seq<Token>, end: Option<End>)
      requires b < |requests|
    {
      var n := |toks| - |before|;
      && 0 <= n <= |emit| && toks == before + emit[..n]
      && (forall i :: 0 <= i < n ==> !cancel(BeforeToken(cycle, i), b))
      && (forall i :: 0 <= i < n - 1 ==> !cancel(AfterToken(cycle, i), b))
      && (n > 0 && cancel(AfterToken(cycle, n - 1), b) ==> end == Some(Cancelled))
      && if end == Some(Cancelled) then
           || (n > 0 && cancel(AfterToken(cycle, n - 1), b))
           || (n < |emit| && cancel(BeforeToken(cycle, n), b) && Unfinished(requests[b], toks))
         else
           && (end.None? ==> n == |emit|) && (emit != [] ==> n > 0)
           && Stream(toks, if end.Some? then Some(end.value.reason) else None)
                == CommitAll(requests[b].stop, requests[b].maxTokens, Stream(before, None), emit)
    }

    /** A row whose commit is reached cancelled keeps its tokens. */
    ghost predicate Committed(b: nat, cycle: nat, before: seq<Token>, d: Decision)
      requires b < |requests| == |tokens| == |finish| == |pending|
      reads this`tokens, this`finish, this`pending
    {
      if cancel(AtCommit(cycle), b) then tokens[b] == before && finish[b] == Some(Cancelled) && pending[b] == None
      else
        && Polled(b, cycle, before, d.emit, tokens[b], finish[b])
        && pending[b] == if finish[b].None? then d.pending else None
    }

    /** What a cycle does to a row: nothing once it has ended; ends it with what it has if it is polled
        cancelled before the commit; and else commits the next greedy tokens as polled. */
    ghost predicate TookCycle(b: nat, cycle: nat, before: seq<Token>, finish0: Option<End>)
      requires b < |requests| == |tokens| == |finish| && requests[b].prompt != []
      reads this`tokens, this`finish
    {
      if finish0.Some? then tokens[b] == before && finish[b] == finish0
      else if cancel(AtCycle(cycle), b) || cancel(AtCommit(cycle), b) then
        tokens[b] == before && finish[b] == Some(Cancelled)
      else exists emit :: EmitsSome(b, before, emit) && Polled(b, cycle, before, emit, tokens[b], finish[b])
    }

    /** The commit of one row: its emitted tokens in order, until it stops, is full or is cancelled. */
    method CommitRow(b: nat, d: Decision)
      requires Shaped() && b < |requests| && finish[b].None? && Emitting(b, d, cycles)
      modifies this`tokens, this`pending, this`finish
      ensures Shaped() && RequestOk(b, cycles + 1) && Committed(b, cycles, old(tokens[b]), d)
      ensures forall c :: 0 <= c < |requests| && c != b ==>
                tokens[c] == old(tokens[c]) && pending[c] == old(pending[c]) && finish[c] == old(finish[c])
    {
      hide CacheOk, IsGreedy, CommitAll;
      var q := requests[b];
      if cancel(AtCommit(cycles), b) {
        finish, pending := finish[b := Some(Cancelled)], pending[b := None];
        return;
      }
      var toks, end := EmitTokens(b, d.emit, tokens[b]);
      tokens, finish := tokens[b := toks], finish[b := end];
      pending := pending[b := if end.None? then d.pending else None];
    }

    /** The emitted tokens of row `b` one by one, a cancellation being polled around each. */
    method EmitTokens(b: nat, emit: seq<Token>, t0: seq<Token>) returns (toks: seq<Token>, end: Option<End>)
      requires Shaped() && b < |requests|
      requires IsGreedy(m, requests[b].prompt, t0 + emit)
      requires Open(m, requests[b].prompt, requests[b].stop, requests[b].maxTokens, Stream(t0, None))
      ensures Polled(b, cycles, t0, emit, toks, end)
      ensures end.None? ==> toks == t0 + emit
      ensures end.None? ==> Open(m, requests[b].prompt, requests[b].stop, requests[b].maxTokens, Stream(toks, None))
      ensures end.Some? ==>
                Ended(m, requests[b], toks, end.value) && (end.value.Cancelled? ==> exists p :: cancel(p, b))
    {
      hide IsGreedy, CommitAll;
      var q := requests[b];
      toks, end := t0, None;
      assert emit[..0] == [];
      CommitNone(q.stop, q.maxTokens, Stream(t0, None));
      var i := 0;
      while i < |emit| && end.None?
        invariant i <= |emit|
        invariant end.None? ==> toks == t0 + emit[..i] && Polled(b, cycles, t0, emit[..i], toks, end)
        invariant end.Some? ==> Polled(b, cycles, t0, emit, toks, end)
        invariant end.Some? ==> Ended(m, q, toks, end.value) && (end.value.Cancelled? ==> exists p :: cancel(p, b))
      {
        CommitSome(m, q, t0, emit, i);
        CommitSome(m, q, t0, emit, i + 1);
        assert emit[..i + 1] == emit[..i] + [emit[i]];
        CommitAllSnoc(q.stop, q.maxTokens, Stream(t0, None), emit[..i], emit[i]);
        if cancel(BeforeToken(cycles, i), b) {
          end := Some(Cancelled);
        } else {
          toks := toks + [emit[i]];
          if cancel(AfterToken(cycles, i), b) {
            end := Some(Cancelled);
          } else if emit[i] in q.stop {
            end := Some(Done(Stopped));
          } else if |toks| >= q.maxTokens {
            end := Some(Done(Length));
          }
          if end.Some? && !end.value.Cancelled? {
            assert emit[..i + 1] + emit[i + 1..] == emit;
            CommitAllRest(q.stop, q.maxTokens, Stream(t0, None), emit[..i + 1], emit[i + 1..]);
          }
        }
        i := i + 1;
      }
      if end.None? {
        assert emit[..i] == emit;
        CommitSome(m, q, t0, emit, i);
      }
    }

    method CommitTokens(ds: seq<Decision>, ghost age: nat)
      requires age == cycles + 1 && Shaped() && |ds| == width && forall b :: 0 <= b < |requests| ==>
                Emitting(b, ds[b], cycles)
      modifies this`tokens, this`pending, this`finish
      ensures Shaped() && forall b :: 0 <= b < |requests| ==> RequestOk(b, age)
      ensures forall b :: 0 <= b < |requests| ==>
                if old(finish[b]).Some? then tokens[b] == old(tokens[b]) && finish[b] == old(finish[b])
                else Committed(b, cycles, old(tokens[b]), ds[b])
    {
      hide RowEmits, RowRunning, Ended, Polled;
      for b := 0 to |requests|
        invariant Shaped()
        invariant forall c :: 0 <= c < b ==> RequestOk(c, age)
        invariant forall c :: b <= c < |requests| ==>
                    Emitting(c, ds[c], cycles) && tokens[c] == old(tokens[c]) && finish[c] == old(finish[c])
        invariant forall c :: 0 <= c < b ==>
                    if old(finish[c]).Some? then tokens[c] == old(tokens[c]) && finish[c] == old(finish[c])
                    else Committed(c, cycles, old(tokens[c]), ds[c])
      {
        label next:
        assert Emitting(b, ds[b], cycles);
        if finish[b].None? {
          CommitRow(b, ds[b]);
        }
        forall c | 0 <= c < b
          ensures RequestOk(c, age)
          ensures old(finish[c]).None? ==> Committed(c, cycles, old(tokens[c]), ds[c])
        {
          assert old@next(RequestOk(c, age));
        }
        forall c | b < c < |requests|
          ensures Emitting(c, ds[c], cycles)
        {
          assert old@next(Emitting(c, ds[c], cycles));
        }
      }
    }

    /** One cycle of the cohort. */
    method Cycle()
      requires Ok()
      modifies this`rows, this`last, this`targetBounds, this`mtpBounds, this`tokens, this`pending, this`finish
      modifies this`cycles
      ensures Ok() && (AnyRunning() ==> cycles == old(cycles) + 1)
      ensures forall b :: 0 <= b < |requests| ==> TookCycle(b, old(cycles), old(tokens[b]), old(finish[b]))
    {
      hide RowEmits, RowRunning, Ended, Polled, EmitsSome, IsGreedy;
      PollCancels();
      if !AnyRunning() {
        return;
      }
      label polled:
      var ds := Advance();
      forall b | 0 <= b < |requests|
        ensures Emitting(b, ds[b], cycles) && (finish[b].None? ==> EmitsSome(b, tokens[b], ds[b].emit))
      {
        assert old@polled(RequestOk(b, cycles));
        if finish[b].None? {
          EmitsGreedy(b, ds[b]);
        }
      }
      label advanced:
      ghost var age := cycles + 1;
      CommitTokens(ds, age);
      label committed:
      cycles := cycles + 1;
      forall b | 0 <= b < width
        ensures SlabOk(b)
      {
        assert old@advanced(SlabOk(b));
      }
      forall b | 0 <= b < |requests|
        ensures RequestOk(b, cycles) && TookCycle(b, old(cycles), old(tokens[b]), old(finish[b]))
      {
        assert old@committed(RequestOk(b, age));
        assert old@advanced(finish[b].None? ==> EmitsSome(b, tokens[b], ds[b].emit));
      }
    }

    ghost predicate EmitsSome(b: nat, before: seq<Token>, emit: seq<Token>)
      requires b < |requests| && requests[b].prompt != []
    {
      1 <= |emit| <= 3 && IsGreedy(m, requests[b].prompt, before + emit)
    }

    lemma EmitsGreedy(b: nat, d: Decision)
      requires Shaped() && b < |requests| && RowEmits(m, requests[b], tokens[b], d, rows[b], last[b])
      ensures EmitsSome(b, tokens[b], d.emit)
    {
    }

    function MaxCycles(): nat {
      MaxOf(seq(|requests|, b requires 0 <= b < |requests| => requests[b].maxTokens)) + 2
    }

    /** A running row has decided a token in every cycle so far, so the cycle bound is out of reach. */
    lemma BoundNotReached()
      requires Ok() && AnyRunning()
      ensures cycles < MaxCycles()
    {
      var b :| 0 <= b < |finish| && finish[b].None?;
      assert RequestOk(b, cycles);
      var limits := seq(|requests|, c requires 0 <= c < |requests| => requests[c].maxTokens);
      assert limits[b] <= MaxOf(limits);
    }

    /** The cohort loop. It never exceeds its bounded cycle count. A row that had ended stays as it is;
        every other one runs until its first poll that says cancelled or until it is done. */
    method Run() returns (bounded: bool, ghost starts: seq<seq<nat>>)
      requires Ok()
      modifies this`rows, this`last, this`targetBounds, this`mtpBounds, this`tokens, this`pending, this`finish
      modifies this`cycles
      ensures bounded && Ok() && !AnyRunning() && |starts| == |requests|
      ensures forall b :: 0 <= b < |requests| ==>
                if old(finish[b]).Some? then tokens[b] == old(tokens[b]) && finish[b] == old(finish[b])
                else
                  && RanUntil(cancel, b, requests[b], old(cycles), starts[b], tokens[b], finish[b].value)
                  && starts[b] != [] && starts[b][0] == |old(tokens[b])|
    {
      bounded := true;
      ghost var finish0, tokens0, from := finish, tokens, cycles;
      starts := seq(|requests|, b requires 0 <= b < |requests| => [|tokens0[b]|]);
      while AnyRunning()
        invariant Ok() && |starts| == |requests|
        invariant forall b :: 0 <= b < |requests| ==>
                    RowTraced(b, from, starts[b], tokens0[b], finish0[b], tokens[b], finish[b], cycles)
        decreases AnyRunning(), MaxCycles() - cycles
      {
        hide Ok, RowTraced;
        BoundNotReached();
        if cycles >= MaxCycles() {
          return false, starts;
        }
        starts := TracedCycle(from, tokens0, finish0, starts);
      }
    }

    method TracedCycle(ghost from: nat, ghost tokens0: seq<seq<Token>>, ghost finish0: seq<Option<End>>,
                       ghost starts: seq<seq<nat>>)
      returns (ghost starts': seq<seq<nat>>)
      requires Ok() && AnyRunning() && |starts| == |tokens0| == |finish0| == |requests|
      requires forall b :: 0 <= b < |requests| ==>
                 RowTraced(b, from, starts[b], tokens0[b], finish0[b], tokens[b], finish[b], cycles)
      modifies this`rows, this`last, this`targetBounds, this`mtpBounds, this`tokens, this`pending, this`finish
      modifies this`cycles
      ensures Ok() && |starts'| == |requests| && (AnyRunning() ==> cycles == old(cycles) + 1)
      ensures forall b :: 0 <= b < |requests| ==>
                RowTraced(b, from, starts'[b], tokens0[b], finish0[b], tokens[b], finish[b], cycles)
    {
      forall b | 0 <= b < |requests| && finish[b].None?
        ensures Unfinished(requests[b], tokens[b])
      {
        assert RequestOk(b, cycles);
      }
      hide RequestOk, TookCycle, RowTraced, Unfinished;
      ghost var finish1, tokens1, cycle := finish, tokens, cycles;
      Cycle();
      ghost var finish2, tokens2 := finish, tokens;
      starts' := seq(|requests|, b requires 0 <= b < |requests| =>
        if finish2[b].None? then starts[b] + [|tokens2[b]|] else starts[b]);
      forall b | 0 <= b < |requests|
        ensures RowTraced(b, from, starts'[b], tokens0[b], finish0[b], tokens[b], finish[b], cycles)
      {
        TraceStep(b, from, starts[b], tokens0[b], finish0[b], tokens1[b], finish1[b], cycle);
      }
    }

    /** The row's history so far. */
    ghost predicate RowTraced(b: nat, from: nat, starts: seq<nat>, tokens0: seq<Token>, finish0: Option<End>,
                              toks: seq<Token>, end: Option<End>, cycle: nat)
      requires b < |requests|
    {
      if finish0.Some? then toks == tokens0 && end == finish0
      else
        && starts != [] && starts[0] == |tokens0|
        && if end.Some? then RanUntil(cancel, b, requests[b], from, starts, toks, end.value)
           else
             && RanWhole(cancel, b, from, starts)
             && starts[|starts| - 1] == |toks| && from + |starts| - 1 == cycle
    }

    lemma TraceStep(b: nat, from: nat, starts: seq<nat>, tokens0: seq<Token>, finish0: Option<End>,
                    before: seq<Token>, finish1: Option<End>, cycle: nat)
      requires Shaped() && b < |requests|
      requires RowTraced(b, from, starts, tokens0, finish0, before, finish1, cycle)
      requires TookCycle(b, cycle, before, finish1) && (finish1.None? ==> Unfinished(requests[b], before))
      requires finish[b].None? ==> cycles == cycle + 1
      ensures RowTraced(b, from, if finish[b].None? then starts + [|tokens[b]|] else starts, tokens0, finish0,
                        tokens[b], finish[b], cycles)
    {
      hide Unfinished, IsGreedy, CommitAll;
      if finish1.None? && finish[b].None? {
        assert WholeCycle(cancel, b, cycle, |before|, |tokens[b]|);
      }
    }
  }

  /* ---- the whole call ---- */

  /** The call is refused, a restore was unusable, or every stream is reported. */
  datatype Outcome = Refused | Unusable | Served(streams: seq<(seq<Token>, End)>)

  predicate ValidCall(requests: seq<Request>, width: nat, maxContext: nat) {
    && 2 <= |requests| <= width
    && forall b :: 0 <= b < |requests| ==>
         && requests[b].prompt != [] && requests[b].maxTokens >= 1
         && |requests[b].prompt| + requests[b].maxTokens <= maxContext
  }

  ghost predicate RestoresTrue(m: Model, requests: seq<Request>, restores: seq<Option<Restored>>) {
    && |restores| == |requests|
    && forall b :: 0 <= b < |requests| && restores[b].Some? && Usable(requests[b].prompt, restores[b].value) ==>
         RestoreTrue(m, requests[b].prompt, restores[b].value)
  }

  /** A row that occupies a slot without serving a request: the prefill of [0]. */
  method Placeholder(m: Model, chunk: nat) returns (cache: RowCache, last: Output)
    requires chunk >= 1
    ensures cache.off <= |cache.buf| && cache.moff <= |cache.hist|
  {
    hide Holds;
    var r, _ := PrefillRequest(m, [0], chunk, None, _ => false, []);
    assert r.Ready?;
    cache, last := r.cache, r.out;
    assert Holds(m, [0], cache) && HoldsHistory(m, [0], cache);
    SlabsHold(m, [0], cache);
  }

  lemma SlabsHold(m: Model, ts: seq<Token>, c: RowCache)
    requires ts != [] && Holds(m, ts, c) && HoldsHistory(m, ts, c)
    ensures c.off <= |c.buf| && c.moff <= |c.hist|
  {
  }

  /** A prefilled slot: a live request's caches hold its prompt; a cancelled one holds anything. */
  ghost predicate Entered(m: Model, q: Request, cancel: (Poll, nat) -> bool, b: nat, finish: Option<End>, c: RowCache,
                          last: Output)
    requires q.prompt != []
  {
    match finish
    case None => CacheOk(m, q.prompt, c, last)
    case Some(end) => end.Cancelled? && exists p :: cancel(p, b)
  }

  /** Some poll of the request's own prefill says cancelled. */
  ghost predicate CancelledInPrefill(q: Request, b: nat, chunk: nat, restore: Option<Restored>,
                                     cancel: (Poll, nat) -> bool)
    requires chunk >= 1 && q.prompt != []
  {
    || cancel(AtEntry, b)
    || cancel(Prefilling(0), b)
    || ((restore.Some? ==> Usable(q.prompt, restore.value))
        && exists k :: 0 <= k < PrefillPolls(q.prompt, restore, chunk) && cancel(Prefilling(k), b))
  }

  /** Or a poll of its peers', at or after its own. */
  ghost predicate CancelledByPeers(b: nat, upto: nat, cancel: (Poll, nat) -> bool) {
    exists p :: b <= p < upto && cancel(WhilePeer(p), b)
  }

  /** Prefill of one request, cold or resumed; a cancellation before or during it leaves a placeholder. */
  method EnterRow(m: Model, q: Request, b: nat, chunk: nat, restore: Option<Restored>, cancel: (Poll, nat) -> bool)
    returns (ok: bool, finish: Option<End>, cache: RowCache, last: Output)
    requires chunk >= 1 && q.prompt != []
    requires restore.Some? && Usable(q.prompt, restore.value) ==> RestoreTrue(m, q.prompt, restore.value)
    ensures cache.off <= |cache.buf| && cache.moff <= |cache.hist|
    ensures ok ==> Entered(m, q, cancel, b, finish, cache, last)
    ensures ok ==> (finish.Some? <==> CancelledInPrefill(q, b, chunk, restore, cancel))
    ensures !ok ==> restore.Some? && !Usable(q.prompt, restore.value)
  {
    hide CacheOk;
    ok, finish := true, None;
    if cancel(AtEntry, b) {
      cache, last := Placeholder(m, chunk);
      return true, Some(Cancelled), cache, last;
    }
    var abort := (k: nat) => cancel(Prefilling(k), b);
    var r, _ := PrefillRequest(m, q.prompt, chunk, restore, abort, []);
    match r
    case Ready(c, out) =>
      forall k | 0 <= k < PrefillPolls(q.prompt, restore, chunk)
        ensures !cancel(Prefilling(k), b)
      {
        assert !abort(k);
      }
      CacheOkIntro(m, q.prompt, c, out);
      cache, last := c, out;
    case Aborted =>
      if !abort(0) {
        ghost var k :| 0 <= k < PrefillPolls(q.prompt, restore, chunk) && abort(k);
        assert cancel(Prefilling(k), b);
      }
      cache, last := Placeholder(m, chunk);
      finish := Some(Cancelled);
    case _ =>
      cache, last := Placeholder(m, chunk);
      ok := false;
  }

  lemma CacheOkIntro(m: Model, ctx: seq<Token>, c: RowCache, last: Output)
    requires ctx != [] && Holds(m, ctx, c) && HoldsHistory(m, ctx, c) && last == Last(m, ctx)
    ensures CacheOk(m, ctx, c, last) && c.off <= |c.buf| && c.moff <= |c.hist|
  {
  }

  /** Replacing slabs by ones that agree below the lengths keeps what a row holds. */
  lemma MergedCacheOk(m: Model, ctx: seq<Token>, c: RowCache, last: Output, buf: seq<Entry>, hist: seq<Pair>)
    requires ctx != [] && CacheOk(m, ctx, c, last)
    requires c.off <= |buf| && buf[..c.off] == c.buf[..c.off] && c.moff <= |hist| && hist[..c.moff] == c.hist[..c.moff]
    ensures CacheOk(m, ctx, c.(buf := buf, hist := hist), last)
  {
  }

  lemma FreshRunning(m: Model, q: Request, c: RowCache, last: Output)
    requires q.prompt != [] && q.maxTokens >= 1 && CacheOk(m, q.prompt, c, last)
    ensures RowRunning(m, q, [], None, c, last)
  {
    GreedyNone(m, q.prompt);
    assert q.prompt + [] == q.prompt;
  }

  lemma FreshCutShort(m: Model, q: Request)
    requires q.prompt != []
    ensures Ended(m, q, [], Cancelled)
  {
    GreedyNone(m, q.prompt);
  }

  /** Prefill every slot, then merge the rows into one ragged cohort. */
  method Assemble(m: Model, requests: seq<Request>, width: nat, chunk: nat, restores: seq<Option<Restored>>,
                  cancel: (Poll, nat) -> bool)
    returns (ok: bool, finish: seq<Option<End>>, rows: seq<RowCache>, last: seq<Output>)
    requires chunk >= 1 && |requests| <= width && RestoresTrue(m, requests, restores)
    requires forall b :: 0 <= b < |requests| ==> requests[b].prompt != []
    ensures ok ==> |finish| == |requests| && |rows| == |last| == width
    ensures ok ==> forall b :: 0 <= b < width ==> rows[b].off <= |rows[b].buf| && rows[b].moff <= |rows[b].hist|
    ensures ok ==> forall b :: 0 <= b < |requests| ==> Entered(m, requests[b], cancel, b, finish[b], rows[b], last[b])
    ensures ok ==> forall b :: 0 <= b < |requests| ==>
              (finish[b].Some? <==>
                CancelledInPrefill(requests[b], b, chunk, restores[b], cancel) || CancelledByPeers(b, width, cancel))
    ensures !ok ==>
              exists b :: 0 <= b < |requests| && restores[b].Some? && !Usable(requests[b].prompt, restores[b].value)
  {
    hide CacheOk;
    ok, finish, rows, last := true, [], [], [];
    for b := 0 to width
      invariant |rows| == |last| == b && |finish| == if b < |requests| then b else |requests|
      invariant forall c :: 0 <= c < b ==> rows[c].off <= |rows[c].buf| && rows[c].moff <= |rows[c].hist|
      invariant forall c :: 0 <= c < b && c < |requests| ==>
                Entered(m, requests[c], cancel, c, finish[c], rows[c], last[c])
      invariant forall c :: 0 <= c < |finish| ==>
                  (finish[c].Some? <==>
                    CancelledInPrefill(requests[c], c, chunk, restores[c], cancel) || CancelledByPeers(c, b, cancel))
    {
      hide CancelledInPrefill;
      var cache, out;
      if b < |requests| {
        var end;
        ok, end, cache, out := EnterRow(m, requests[b], b, chunk, restores[b], cancel);
        if !ok {
          return;
        }
        finish := finish + [end];
      } else {
        cache, out := Placeholder(m, chunk);
      }
      rows, last := rows + [cache], last + [out];
      finish, rows, last := ReplaceCancelled(m, requests, b, chunk, cancel, finish, rows, last);
    }
    rows := Merge(m, rows, last, requests, finish, cancel);
  }

  /** Peers cancelled while a later row was being prefilled end here, and placeholders take their slots. */
  method ReplaceCancelled(m: Model, ghost requests: seq<Request>, peer: nat, chunk: nat, cancel: (Poll, nat) -> bool,
                          finish: seq<Option<End>>, rows: seq<RowCache>, last: seq<Output>)
    returns (finish': seq<Option<End>>, rows': seq<RowCache>, last': seq<Output>)
    requires chunk >= 1 && |finish| <= |requests| && |finish| <= |rows| == |last|
    requires forall b :: 0 <= b < |rows| ==> rows[b].off <= |rows[b].buf| && rows[b].moff <= |rows[b].hist|
    requires forall b :: 0 <= b < |finish| ==>
              requests[b].prompt != [] && Entered(m, requests[b], cancel, b, finish[b], rows[b], last[b])
    ensures |finish'| == |finish| && |rows'| == |last'| == |rows|
    ensures forall b :: 0 <= b < |rows| ==> rows'[b].off <= |rows'[b].buf| && rows'[b].moff <= |rows'[b].hist|
    ensures forall b :: 0 <= b < |finish| ==> Entered(m, requests[b], cancel, b, finish'[b], rows'[b], last'[b])
    ensures forall b :: 0 <= b < |finish| ==>
              finish'[b] == if finish[b].None? && cancel(WhilePeer(peer), b) then Some(Cancelled) else finish[b]
    ensures forall b :: 0 <= b < |finish| && !cancel(WhilePeer(peer), b) ==>
              finish'[b] == finish[b] && rows'[b] == rows[b] && last'[b] == last[b]
  {
    hide CacheOk;
    finish', rows', last' := finish, rows, last;
    for c := 0 to |finish|
      invariant |finish'| == |finish| && |rows'| == |last'| == |rows|
      invariant forall b :: 0 <= b < |rows| ==> rows'[b].off <= |rows'[b].buf| && rows'[b].moff <= |rows'[b].hist|
      invariant forall b :: 0 <= b < |finish| ==> Entered(m, requests[b], cancel, b, finish'[b], rows'[b], last'[b])
      invariant forall b :: 0 <= b < |finish| ==>
                  finish'[b] == if b < c && finish[b].None? && cancel(WhilePeer(peer), b) then Some(Cancelled)
                                else finish[b]
      invariant forall b :: 0 <= b < |finish| && !cancel(WhilePeer(peer), b) ==>
                finish'[b] == finish[b] && rows'[b] == rows[b] && last'[b] == last[b]
    {
      if finish'[c].None? && cancel(WhilePeer(peer), c) {
        var cache, out := Placeholder(m, chunk);
        finish', rows', last' := finish'[c := Some(Cancelled)], rows'[c := cache], last'[c := out];
      }
    }
  }

  method Merge(m: Model, rows: seq<RowCache>, last: seq<Output>, ghost requests: seq<Request>,
               ghost finish: seq<Option<End>>,
               ghost cancel: (Poll, nat) -> bool) returns (merged: seq<RowCache>)
    requires |rows| == |last| && |finish| == |requests| <= |rows|
    requires forall b :: 0 <= b < |rows| ==> rows[b].off <= |rows[b].buf| && rows[b].moff <= |rows[b].hist|
    requires forall b :: 0 <= b < |requests| ==>
              requests[b].prompt != [] && Entered(m, requests[b], cancel, b, finish[b], rows[b], last[b])
    ensures |merged| == |rows|
    ensures forall b :: 0 <= b < |rows| ==> merged[b].off <= |merged[b].buf| && merged[b].moff <= |merged[b].hist|
    ensures forall b :: 0 <= b < |requests| ==> Entered(m, requests[b], cancel, b, finish[b], merged[b], last[b])
  {
    hide CacheOk;
    var n := |rows|;
    var bufs := seq(n, b requires 0 <= b < n => rows[b].buf);
    var offs := seq(n, b requires 0 <= b < n => rows[b].off);
    var hists := seq(n, b requires 0 <= b < n => rows[b].hist);
    var moffs := seq(n, b requires 0 <= b < n => rows[b].moff);
    var kv, capacity := MergeRows(bufs, offs, m.pad);
    var slabs := hists;
    if n > 0 {
      slabs, capacity := MergeRows(hists, moffs, Pair(last[0], 0));
    }
    merged := seq(n, b requires 0 <= b < n => rows[b].(buf := kv[b], hist := slabs[b]));
    forall b | 0 <= b < |requests|
      ensures Entered(m, requests[b], cancel, b, finish[b], merged[b], last[b])
    {
      if finish[b].None? {
        MergedCacheOk(m, requests[b].prompt, rows[b], last[b], kv[b], slabs[b]);
      }
    }
  }

  /** `generate_a3b_mtp_batch`: for every draft sequence, every mix of peers, chunk size, true restores
      and cancellations, a request that is never cancelled gets exactly its solo greedy result, and a
      cancelled one a start of it. */
  method GenerateCohort(m: Model, requests: seq<Request>, width: nat, maxContext: nat, chunk: nat,
                        restores: seq<Option<Restored>>,
                        cancel: (Poll, nat) -> bool, drafter: (nat, nat, seq<Pair>) -> Token)
    returns (out: Outcome, ghost starts: seq<seq<nat>>)
    requires chunk >= 1 && RestoresTrue(m, requests, restores)
    ensures out.Refused? <==>
              || !(2 <= |requests| <= width)
              || exists b :: 0 <= b < |requests| &&
                   (|| requests[b].prompt == [] || requests[b].maxTokens < 1
                    || maxContext < |requests[b].prompt| + requests[b].maxTokens)
    ensures out.Unusable? ==>
              exists b :: 0 <= b < |requests| && restores[b].Some? && !Usable(requests[b].prompt, restores[b].value)
    ensures out.Served? ==> |out.streams| == |requests|
    ensures out.Served? ==> forall b :: 0 <= b < |requests| ==>
              && requests[b].prompt != []
              && match out.streams[b].1
                 case Done(reason) =>
                   SoloResult(m, requests[b].prompt, requests[b].stop, requests[b].maxTokens,
                              Stream(out.streams[b].0, Some(reason)))
                 case Cancelled =>
                   && |out.streams[b].0| <= requests[b].maxTokens
                   && IsGreedy(m, requests[b].prompt, out.streams[b].0)
                   && forall i :: 0 <= i < |out.streams[b].0| - 1 ==> out.streams[b].0[i] !in requests[b].stop
    ensures out.Served? ==> forall b :: 0 <= b < |requests| ==>
              && requests[b].prompt != []
              && if || CancelledInPrefill(requests[b], b, chunk, restores[b], cancel)
                    || exists p :: b <= p < width && cancel(WhilePeer(p), b)
                 then
                   out.streams[b] == ([], Cancelled)
                 else
                   && b < |starts| && starts[b] != [] && starts[b][0] == 0
                   && RanUntil(cancel, b, requests[b], 0, starts[b], out.streams[b].0, out.streams[b].1)
  {
    hide CacheOk, RowRunning, CancelledInPrefill, RanUntil, SoloResult, IsGreedy;
    starts := [];
    if !ValidCall(requests, width, maxContext) {
      return Refused, [];
    }
    var ok, finish, rows, last := Assemble(m, requests, width, chunk, restores, cancel);
    if !ok {
      return Unusable, [];
    }
    var batch := new Batch(m, requests, rows, last, finish, cancel, drafter);
    forall b | 0 <= b < |requests|
      ensures batch.RequestOk(b, 0)
    {
      assert Entered(m, requests[b], cancel, b, finish[b], rows[b], last[b]);
      if finish[b].None? {
        FreshRunning(m, requests[b], rows[b], last[b]);
      } else {
        FreshCutShort(m, requests[b]);
      }
    }
    assert forall b :: 0 <= b < |requests| ==> batch.tokens[b] == [] && batch.finish[b] == finish[b];
    var bounded;
    bounded, starts := batch.Run();
    var toks, ends := batch.tokens, batch.finish;
    forall b | 0 <= b < |requests|
      ensures ends[b].Some? && Ended(m, requests[b], toks[b], ends[b].value)
      ensures if finish[b].Some? then toks[b] == [] && ends[b] == Some(Cancelled)
              else
                && starts[b] != [] && starts[b][0] == 0
                && RanUntil(cancel, b, requests[b], 0, starts[b], toks[b], ends[b].value)
    {
      assert batch.RequestOk(b, batch.cycles);
      assert Entered(m, requests[b], cancel, b, finish[b], rows[b], last[b]);
    }
    out := Served(seq(|requests|, b requires 0 <= b < |requests| => (toks[b], ends[b].value)));
    assert forall b :: 0 <= b < |requests| ==> out.streams[b] == (toks[b], ends[b].value);
  }
}
