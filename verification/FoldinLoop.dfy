/** The fold-in replay loop over a cohort of rows, with its one-cycle commit lag. */
module FoldinLoop {
  import opened Wrappers
  import opened TargetModel
  import opened Ledger
  import opened RaggedCache
  import opened FoldinRow

  /** What one submitted cycle hands back: the inputs `a`, `d`, the true second tokens, the commit
      bundle, the new misses, and the recurrent snapshot taken before the forward. */
  datatype Submission = Submission(a: seq<Token>, d: seq<Token>, x1: seq<Token>, commits: Commits, miss: seq<bool>,
                                   nextLl: seq<Output>, snapshot: seq<Recurrent>)
  {
    ghost predicate Shaped(n: nat) {
      && |a| == |d| == |x1| == |miss| == |nextLl| == |snapshot| == n
      && |commits.c0| == |commits.c1| == |commits.nc| == n
    }
  }

  function Any(mask: seq<bool>): (r: bool)
    ensures r <==> exists i :: 0 <= i < |mask| && mask[i]
  {
    exists i :: 0 <= i < |mask| && mask[i]
  }

  /** The four decode loops: fold-in replay, plain one-token decode, and uniform full-cohort repair
      with commits drained one cycle late or at once. */
  datatype Lane = Foldin | Plain | Pipelined | Serial

  /** One admission prefill: the request each slot is given, and before it, which slots were finished,
      how many requests were admitted and where every row stood. */
  datatype Pass = Pass(assign: seq<Option<nat>>, done: seq<bool>, from: nat, offsets: seq<int>) {
    /** No row that keeps its request is written past the capacity by a prompt of this length. */
    ghost predicate Fits(promptLen: nat, cap: nat) {
      forall b :: 0 <= b < |assign| && b < |offsets| && assign[b].None? ==> offsets[b] + promptLen <= cap
    }
  }

  /** How many of the first `b` slots are given a request. */
  function Given(assign: seq<Option<nat>>, b: nat): nat
    requires b <= |assign|
  {
    if b == 0 then 0 else Given(assign, b - 1) + if assign[b - 1].Some? then 1 else 0
  }

  /** The slots are given consecutive requests, in slot order. */
  ghost predicate InOrder(assign: seq<Option<nat>>, from: nat, next: nat) {
    && next == from + Given(assign, |assign|)
    && forall b :: 0 <= b < |assign| ==> Numbered(assign, from, b)
  }

  ghost predicate Numbered(assign: seq<Option<nat>>, from: nat, b: nat)
    requires b < |assign|
  {
    assign[b].Some? ==> assign[b].value == from + Given(assign, b)
  }

  lemma {:induction false} GivenMonotone(assign: seq<Option<nat>>, b: nat, c: nat)
    requires b <= c <= |assign|
    ensures Given(assign, b) <= Given(assign, c) <= Given(assign, b) + (c - b)
    ensures Given(assign, c) == Given(assign, b) + (c - b) ==> forall k :: b <= k < c ==> assign[k].Some?
    ensures (forall k :: b <= k < c ==> assign[k].Some?) ==> Given(assign, c) == Given(assign, b) + (c - b)
    ensures (forall k :: b <= k < c ==> assign[k].None?) ==> Given(assign, c) == Given(assign, b)
  {
    if b < c {
      GivenMonotone(assign, b, c - 1);
    }
  }

  lemma {:induction false} GivenPrefix(s: seq<Option<nat>>, t: seq<Option<nat>>, b: nat)
    requires b <= |s| && b <= |t| && forall k :: 0 <= k < b ==> s[k] == t[k]
    ensures Given(s, b) == Given(t, b)
  {
    if b > 0 {
      GivenPrefix(s, t, b - 1);
    }
  }

  /** Every request of the range goes to a slot. */
  lemma {:induction false} GivenHits(assign: seq<Option<nat>>, from: nat, b: nat, r: nat)
    requires b <= |assign| && from <= r < from + Given(assign, b)
    requires forall c :: 0 <= c < b ==> Numbered(assign, from, c)
    ensures Some(r) in assign
  {
    if r < from + Given(assign, b - 1) {
      GivenHits(assign, from, b - 1, r);
    } else {
      assert Numbered(assign, from, b - 1);
    }
  }

  /** What a slot is given when `r` is next in the queue of `total` requests. */
  function Turn(done: bool, r: nat, total: nat): Option<nat> {
    if done && r < total then Some(r) else None
  }

  /** The queued requests go to the finished real slots, lowest slot first, until either runs out. */
  ghost predicate TakesQueue(assign: seq<Option<nat>>, done: seq<bool>, nReal: nat, total: nat, from: nat, next: nat) {
    && nReal <= |done| == |assign|
    && next == from + Given(assign, |assign|)
    && forall b :: 0 <= b < |assign| ==> InTurn(assign, done, nReal, total, from, b)
  }

  ghost predicate InTurn(assign: seq<Option<nat>>, done: seq<bool>, nReal: nat, total: nat, from: nat, b: nat)
    requires b < |assign| == |done|
  {
    assign[b] == if b < nReal then Turn(done[b], from + Given(assign, b), total) else None
  }

  lemma {:induction false} QueueBound(assign: seq<Option<nat>>, done: seq<bool>, nReal: nat, total: nat, from: nat,
                                      b: nat)
    requires b <= |assign| == |done| && from <= total
    requires forall c :: 0 <= c < b ==> InTurn(assign, done, nReal, total, from, c)
    ensures from + Given(assign, b) <= total
  {
    if b > 0 {
      QueueBound(assign, done, nReal, total, from, b - 1);
      assert InTurn(assign, done, nReal, total, from, b - 1);
    }
  }

  /** So either the queue runs out or no finished slot is left out. */
  lemma TakesAll(assign: seq<Option<nat>>, done: seq<bool>, nReal: nat, total: nat, from: nat, next: nat)
    requires TakesQueue(assign, done, nReal, total, from, next) && from <= total
    ensures from <= next <= total && InOrder(assign, from, next)
    ensures forall b :: 0 <= b < |assign| && assign[b].Some? ==> b < nReal && done[b] && from <= assign[b].value < next
    ensures forall b, c :: 0 <= b < c < |assign| && assign[b].Some? ==> assign[b] != assign[c]
    ensures forall b, c :: 0 <= b < c < |assign| && assign[b].Some? && assign[c].Some? ==>
              assign[b].value < assign[c].value
    ensures forall b, c :: 0 <= b < c < |assign| && b < nReal && done[b] && assign[c].Some? ==> assign[b].Some?
    ensures next == total || forall b :: 0 <= b < nReal && done[b] ==> assign[b].Some?
    ensures from < total && (exists b :: 0 <= b < nReal && done[b]) ==> from < next
    ensures from < next ==> exists b :: 0 <= b < |assign| && assign[b].Some?
    ensures (forall b :: 0 <= b < |assign| ==> assign[b].Some?) ==> next == from + nReal == from + |assign|
  {
    QueueBound(assign, done, nReal, total, from, |assign|);
    GivenMonotone(assign, 0, |assign|);
    forall b | 0 <= b < |assign|
      ensures Numbered(assign, from, b)
      ensures assign[b].Some? ==> b < nReal && done[b] && from <= assign[b].value < next
      ensures b < nReal && done[b] ==> next == total || assign[b].Some?
      ensures from < total && b < nReal && done[b] ==> from < next
    {
      TurnOf(assign, done, nReal, total, from, b);
    }
    forall b, c | 0 <= b < c < |assign| && assign[b].Some? && assign[c].Some?
      ensures assign[b].value < assign[c].value
    {
      TurnOf(assign, done, nReal, total, from, b);
      TurnOf(assign, done, nReal, total, from, c);
      GivenMonotone(assign, b + 1, c);
    }
    forall b, c | 0 <= b < c < |assign| && b < nReal && done[b] && assign[c].Some?
      ensures assign[b].Some?
    {
      TurnOf(assign, done, nReal, total, from, b);
      TurnOf(assign, done, nReal, total, from, c);
      GivenMonotone(assign, b, c);
    }
  }

  lemma TurnOf(assign: seq<Option<nat>>, done: seq<bool>, nReal: nat, total: nat, from: nat, b: nat)
    requires b < |assign| == |done| && InTurn(assign, done, nReal, total, from, b)
    ensures Numbered(assign, from, b) && (assign[b].Some? ==> b < nReal && done[b] && from <= assign[b].value)
    ensures Given(assign, b + 1) == Given(assign, b) + (if assign[b].Some? then 1 else 0)
    ensures Given(assign, b + 1) <= Given(assign, |assign|)
    ensures b < nReal && done[b] && assign[b].None? ==> total <= from + Given(assign, b)
  {
    GivenMonotone(assign, b + 1, |assign|);
  }

  lemma FirstInOrder(assign: seq<Option<nat>>, nReal: nat)
    requires nReal <= |assign| && forall b :: 0 <= b < |assign| ==> assign[b] == if b < nReal then Some(b) else None
    ensures InOrder(assign, 0, nReal)
  {
    GivenMonotone(assign, 0, nReal);
    GivenMonotone(assign, nReal, |assign|);
    forall b | 0 <= b < nReal
      ensures Numbered(assign, 0, b)
    {
      GivenMonotone(assign, 0, b);
    }
  }

  /** What a refill run has admitted. */
  class Register {
    ghost var admissions: seq<(nat, nat)>  // every (slot, request), in order
    ghost var passes: seq<Pass>  // every admission prefill attempted

    constructor ()
      ensures admissions == [] && passes == []
    {
      admissions, passes := [], [];
    }
  }

  class Loop {
    const m: Model
    const cache: Cache
    const book: Book
    const register: Register
    const promptLen: nat
    const nReal: nat
    const padId: Token
    const refill: bool
    const lane: Lane
    const useDraft: bool
    const drafter: (nat, nat, Output, Token) -> Token
    var logitsLast: seq<Output>
    var replayFlags: seq<bool>
    var replayA: seq<Token>
    var replayB: seq<Token>
    var prevSnapshot: Option<seq<Recurrent>>
    var pending: Option<Commits>
    var nextReq: nat
    var cycles: nat
    ghost var decided: seq<seq<Token>>  // per request: every token decided so far, committed or still held

    constructor (cache: Cache, book: Book, promptLen: nat, nReal: nat, padId: Token, refill: bool, lane: Lane,
                 useDraft: bool,
                 drafter: (nat, nat, Output, Token) -> Token, logits: seq<Output>, nextReq: nat)
      ensures this.m == cache.m && this.cache == cache && this.book == book && this.promptLen == promptLen
      ensures this.nReal == nReal && this.padId == padId && this.refill == refill && this.lane == lane
      ensures logitsLast == logits && this.nextReq == nextReq && cycles == 0
      ensures replayFlags == Fill(cache.rows, false) && replayA == replayB == Fill(cache.rows, 0)
      ensures prevSnapshot == None && pending == None
      ensures decided == Fill(|book.requests|, [])
      ensures fresh(register) && register.admissions == [] && register.passes == []
    {
      this.m, this.cache, this.book, this.promptLen, this.nReal := cache.m, cache, book, promptLen, nReal;
      this.padId, this.refill, this.lane, this.useDraft, this.drafter := padId, refill, lane, useDraft, drafter;
      logitsLast := logits;
      replayFlags := Fill(cache.rows, false);
      replayA, replayB := Fill(cache.rows, 0), Fill(cache.rows, 0);
      prevSnapshot, pending := None, None;
      this.nextReq, cycles := nextReq, 0;
      decided := Fill(|book.requests|, []);
      register := new Register();
    }

    /** The capacity is what it was, or more unless it is frozen. */
    predicate Grows(before: nat)
      reads cache
    {
      if cache.frozen.Some? then cache.cap == before else before <= cache.cap
    }

    /** The two tokens each row feeds: a fresh row its primary and a draft, a replaying row the two
        it knows. */
    method Candidates() returns (a: seq<Token>, d: seq<Token>)
      requires Shaped()
      ensures |a| == |d| == cache.rows
      ensures forall b :: 0 <= b < cache.rows ==>
                && a[b] == (if replayFlags[b] then replayA[b] else m.argmax(logitsLast[b]))
                && (replayFlags[b] ==> d[b] == replayB[b])
    {
      var n, ll, cyc := cache.rows, logitsLast, cycles;
      var x0 := seq(n, b requires 0 <= b < n => m.argmax(ll[b]));
      var draft := if useDraft then seq(n, b requires 0 <= b < n => drafter(cyc, b, ll[b], x0[b])) else x0;
      a, d := Where(replayFlags, replayA, x0), Where(replayFlags, replayB, draft);
    }

    /** Idle rows of a refill run are pinned to a constant position, so that their discarded writes
        never run past the frozen capacity. */
    method PinIdle()
      requires Shaped() && cache.Valid()
      modifies cache`offsets
      ensures Shaped() && cache.Valid()
      ensures forall b :: 0 <= b < cache.rows ==> cache.offsets[b] == old(StartOffset(b))
    {
      if refill && Any(book.done) {
        cache.SetOffsets(Where(book.done, Fill(cache.rows, promptLen), cache.offsets));
      }
    }

    /** Replaying rows step one position back. */
    method StepBack()
      requires Shaped() && cache.Valid()
      modifies cache`offsets
      ensures Shaped() && cache.Valid()
      ensures forall b :: 0 <= b < cache.rows ==> cache.offsets[b] == old(StartOffset(b)) - Back(b)
    {
      PinIdle();
      var n, offs := cache.rows, cache.offsets;
      cache.SetOffsets(Where(replayFlags, seq(n, b requires 0 <= b < n => offs[b] - 1), offs));
    }

    /** Before the forward: rows are pinned or stepped back, the buffers get room, and the recurrent
        state of replaying rows returns to before the cycle they missed. */
    method Prepare()
      requires Shaped() && cache.Valid()
      requires forall b :: 0 <= b < cache.rows ==> SubmitFits(b)
      modifies cache`kv, cache`cap, cache`offsets, cache`rec
      ensures Shaped() && cache.Valid() && Grows(old(cache.cap))
      ensures cache.frozen.None? ==> cache.bound + 2 <= cache.cap
      ensures forall b :: 0 <= b < cache.rows ==> cache.kv[b][..old(cache.cap)] == old(cache.kv[b])
      ensures forall b :: 0 <= b < cache.rows ==> cache.offsets[b] == old(StartOffset(b)) - Back(b)
      ensures forall b :: 0 <= b < cache.rows ==> 0 <= cache.offsets[b] <= cache.cap - 2
      ensures forall b :: 0 <= b < cache.rows ==>
                cache.rec[b] == if replayFlags[b] then prevSnapshot.value[b] else old(cache.rec[b])
    {
      StepBack();
      forall b | 0 <= b < cache.rows
        ensures 0 <= cache.offsets[b]
        ensures if cache.frozen.Some? then cache.offsets[b] + 2 <= cache.cap else cache.offsets[b] <= cache.bound
      {
        assert old(SubmitFits(b));
      }
      cache.Reserve(2);
      if prevSnapshot.Some? && Any(replayFlags) {
        cache.RestoreMasked(prevSnapshot.value, replayFlags);
      }
    }

    /** After the forward: replaying rows accept unconditionally, a miss gives its draft slot back. */
    method Decide(a: seq<Token>, d: seq<Token>, snapshot: seq<Recurrent>, outs: seq<seq<Output>>)
      returns (sub: Submission)
      requires Shaped() && cache.Valid() && |a| == |d| == |snapshot| == |outs| == cache.rows
      requires forall b :: 0 <= b < cache.rows ==> |outs[b]| == 2
      modifies cache`offsets
      ensures Shaped() && cache.Valid() && sub.Shaped(cache.rows)
      ensures sub.a == a && sub.d == d && sub.snapshot == snapshot
      ensures forall b :: 0 <= b < cache.rows ==>
                var x1 := m.argmax(outs[b][0]);
                var miss := !replayFlags[b] && d[b] != x1;
                && sub.x1[b] == x1 && sub.miss[b] == miss && sub.nextLl[b] == outs[b][1]
                && sub.commits.Row(b) == (if replayFlags[b] then [d[b]] else if miss then [a[b]] else [a[b], x1])
                && cache.offsets[b] == old(cache.offsets[b]) - (if miss then 1 else 0)
    {
      hide RunRow;
      var n, flags := cache.rows, replayFlags;
      var x1 := seq(n, b requires 0 <= b < n => m.argmax(outs[b][0]));
      var miss := seq(n, b requires 0 <= b < n => !flags[b] && d[b] != x1[b]);
      var after := cache.offsets;
      cache.SetOffsets(Where(miss, seq(n, b requires 0 <= b < n => after[b] - 1), after));
      var commits := Commits(Where(flags, d, a), x1,
                             seq(n, b requires 0 <= b < n => if !flags[b] && !miss[b] then 2 else 1));
      sub := Submission(a, d, x1, commits, miss, seq(n, b requires 0 <= b < n => outs[b][1]), snapshot);
    }

    /** The forward of one cycle: each row runs its two tokens from its own write position over its
        own slab. `grown` is each row as the forward finds it. */
    method RunForward(a: seq<Token>, d: seq<Token>)
      returns (snapshot: seq<Recurrent>, outs: seq<seq<Output>>, ghost grown: seq<Row>)
      requires Shaped() && cache.Valid() && |a| == |d| == cache.rows
      requires forall b :: 0 <= b < cache.rows ==> SubmitFits(b)
      modifies cache`kv, cache`cap, cache`offsets, cache`rec, cache`bound
      ensures Shaped() && cache.Valid() && |snapshot| == |outs| == |grown| == cache.rows && Grows(old(cache.cap))
      ensures cache.bound == if cache.frozen.Some? then old(cache.bound) else old(cache.bound) + 2
      ensures forall b :: 0 <= b < cache.rows ==>
                grown[b] == old(RowAt(b)).(off := old(StartOffset(b)), buf := grown[b].buf)
      ensures forall b :: 0 <= b < cache.rows ==>
                old(cache.cap) <= |grown[b].buf| && grown[b].buf[..old(cache.cap)] == old(cache.kv[b])
      ensures forall b :: 0 <= b < cache.rows ==>
                && Ran(grown[b], a[b], d[b], snapshot[b], RowRun(cache.kv[b], cache.rec[b], outs[b]))
                && cache.offsets[b] == WriteStart(grown[b]) + 2
    {
      hide RunRow;
      var n := cache.rows;
      ghost var before := seq(n, b requires 0 <= b < n reads this, book, cache requires Shaped() && cache.Valid() =>
                                   RowAt(b).(off := StartOffset(b)));
      Prepare();
      ghost var kv := cache.kv;
      grown := seq(n, b requires 0 <= b < n => before[b].(buf := kv[b]));
      snapshot := cache.rec;
      outs := cache.Forward(seq(n, b requires 0 <= b < n => [a[b], d[b]]), 2);
    }

    /** One cycle's device work: every row does exactly what `CycleRow` says, independently of its
        neighbours. */
    method Submit() returns (sub: Submission, ghost grown: seq<Row>)
      requires Shaped() && cache.Valid()
      requires forall b :: 0 <= b < cache.rows ==> SubmitFits(b)
      modifies cache`kv, cache`cap, cache`offsets, cache`rec, cache`bound
      ensures Shaped() && cache.Valid() && sub.Shaped(cache.rows) && |grown| == cache.rows
      ensures forall b :: 0 <= b < cache.rows ==> Submitted(old(RowAt(b)), old(StartOffset(b)), grown[b], sub, b)
      ensures cache.bound == if cache.frozen.Some? then old(cache.bound) else old(cache.bound) + 2
      ensures Grows(old(cache.cap))
    {
      hide RunRow;
      var a, d := Candidates();
      var snapshot, outs;
      snapshot, outs, grown := RunForward(a, d);
      assert forall b :: 0 <= b < cache.rows ==> Chosen(grown[b], a[b], d[b]);
      sub := Decide(a, d, snapshot, outs);
    }

    /** The tokens a row feeds. */
    ghost predicate Chosen(g: Row, a: Token, d: Token) {
      && a == (if g.replay then g.a else m.argmax(g.ll))
      && (g.replay ==> d == g.b)
    }

    /** The forward of one cycle as the row saw it. */
    ghost predicate Ran(g: Row, a: Token, d: Token, rec: Recurrent, run: RowRun) {
      && Fits(g)
      && rec == (if g.replay then g.snap else g.rec)
      && run == RunRow(m, g.buf, WriteStart(g), rec, [a, d])
    }

    ghost predicate Submitted(before: Row, start: int, grown: Row, sub: Submission, b: nat)
      requires cache.Valid() && sub.Shaped(cache.rows) && b < cache.rows
      reads this, cache
    {
      && grown == before.(off := start, buf := grown.buf)
      && |before.buf| <= |grown.buf| && grown.buf[..|before.buf|] == before.buf
      && Fits(grown)
      && CycleRow(m, grown, sub.d[b]) == Cycle(RowAfter(sub, b), sub.commits.Row(b))
    }

    ghost predicate Shaped()
      reads this, cache, book
    {
      && cache.m == m
      && book.slots == cache.rows == |logitsLast| == |replayFlags| == |replayA| == |replayB| == |book.done|
      && (prevSnapshot.Some? ==> |prevSnapshot.value| == cache.rows)
      && (prevSnapshot.None? ==> forall b :: 0 <= b < cache.rows ==> !replayFlags[b])
      && (pending.Some? ==> |pending.value.c0| == |pending.value.c1| == |pending.value.nc| == cache.rows)
    }

    /** The row's own share of the loop state. */
    ghost function RowAt(b: nat): Row
      requires Shaped() && cache.Valid() && b < cache.rows
      reads this, cache, book
    {
      Row(cache.kv[b], cache.offsets[b], cache.rec[b], logitsLast[b],
          if prevSnapshot.Some? then prevSnapshot.value[b] else cache.rec[b],
          replayFlags[b], replayA[b], replayB[b])
    }

    ghost function RowAfter(sub: Submission, b: nat): Row
      requires cache.Valid() && sub.Shaped(cache.rows) && b < cache.rows
      reads this, cache
    {
      Row(cache.kv[b], cache.offsets[b], cache.rec[b], sub.nextLl[b], sub.snapshot[b], sub.miss[b], sub.a[b], sub.x1[b])
    }

    /** Where a row stands when the cycle starts: done rows of a refill run are pinned. */
    ghost function StartOffset(b: nat): int
      requires Shaped() && cache.Valid() && b < cache.rows
      reads this, cache, book
    {
      if refill && book.done[b] then promptLen else cache.offsets[b]
    }

    /** A replaying row writes one position back. */
    function Back(b: nat): nat
      requires b < |replayFlags|
      reads this
    {
      if replayFlags[b] then 1 else 0
    }

    ghost predicate SubmitFits(b: nat)
      requires Shaped() && cache.Valid() && b < cache.rows
      reads this, cache, book
    {
      && Back(b) <= StartOffset(b)
      && if cache.frozen.Some? then StartOffset(b) + 2 <= cache.cap else StartOffset(b) <= cache.bound
    }

    /* ---- what every cycle keeps ---- */

    ghost predicate Kept()
      reads this`decided, book
    {
      && book.Valid() && |decided| == |book.requests|
      && forall r :: 0 <= r < |book.requests| ==> book.requests[r] != []
    }

    ghost predicate Wired()
      reads this, cache, book
    {
      && Shaped() && cache.Valid() && Kept()
      && 1 <= promptLen && 1 <= book.maxNew && 1 <= nReal <= book.slots && nReal <= nextReq <= |book.requests|
      && (forall r :: 0 <= r < |book.requests| ==> |book.requests[r]| == promptLen)
      && (forall b :: 0 <= b < book.slots ==>
            if b < nReal then book.slotRequest[b].Some? && book.slotRequest[b].value < nextReq
            else book.slotRequest[b].None?)
      && cache.frozen.Some? == refill
      && (refill ==> lane.Foldin? || lane.Plain?)
      && (refill ==> promptLen + book.maxNew + 16 <= cache.cap)
    }

    ghost function Undrained(b: nat): seq<Token>
      requires Shaped() && b < cache.rows
      reads this, cache, book
    {
      if pending.Some? then pending.value.Row(b) else []
    }

    /** A live slot's request has decided exactly its next greedy tokens, all but the `undrained` ones
        are committed, and the row stands right after them. */
    ghost predicate SlotOk(b: nat, undrained: seq<Token>, row: Row)
      requires Kept() && b < book.slots
      reads this`decided, book
    {
      book.Live(b) ==>
        var r := book.slotRequest[b].value;
        Standing(m, book.requests[r], book.tokens[r], undrained, decided[r], row)
    }

    /** A request not yet admitted is untouched, an admitted one is finished with its solo result or is
        open and some slot serves it. */
    ghost predicate RequestOk(r: nat)
      requires Kept() && r < |book.requests|
      reads this`decided, this`nextReq, book
    {
      if r >= nextReq then book.StreamOf(r) == Stream([], None) && decided[r] == []
      else
        && Tracked(m, book.requests[r], book.stop, book.maxNew, book.StreamOf(r))
        && (book.finish[r].None? ==> !book.Unserved(r))
    }

    /** Dummies never replay, and every row's length stays where it may be. */
    ghost predicate RangeOk(b: nat)
      requires Wired() && b < cache.rows
      reads this, cache, book
    {
      && (replayFlags[b] ==> b < nReal && lane.Foldin?)
      && promptLen <= cache.offsets[b]
      && cache.offsets[b] <= if refill then promptLen + book.maxNew + 3 else cache.bound
    }

    ghost predicate LoopOk()
      reads this, cache, book
    {
      && Wired()
      && (forall r :: 0 <= r < |book.requests| ==> RequestOk(r))
      && (forall b :: 0 <= b < cache.rows ==> RangeOk(b))
      && (forall b :: 0 <= b < cache.rows ==> SlotOk(b, Undrained(b), RowAt(b)))
    }

    /** The held commits continue what the live slot's request has committed. */
    ghost predicate HoldsRow(b: nat, held: seq<Token>)
      requires Kept() && b < book.slots
      reads this`decided, book
    {
      book.Live(b) ==>
        var r := book.slotRequest[b].value;
        book.tokens[r] + held <= decided[r] && IsGreedy(m, book.requests[r], decided[r])
    }

    ghost predicate Holds(b: nat)
      requires Wired() && b < cache.rows
      reads this, cache, book
    {
      HoldsRow(b, Undrained(b))
    }

    /** `_flush`: the held commits are drained exactly once. Slots that stay live have committed all
        of them; slots that finish have finished with the solo result. */
    method Flush()
      requires Wired() && forall r :: 0 <= r < |book.requests| ==> RequestOk(r)
      requires forall b :: 0 <= b < cache.rows ==> Holds(b)
      modifies this`pending, book`tokens, book`finish, book`done
      ensures Wired() && pending == None && forall r :: 0 <= r < |book.requests| ==> RequestOk(r)
      ensures forall b :: 0 <= b < cache.rows && book.Live(b) ==>
                && old(book.Live(b))
                && var r := book.slotRequest[b].value;
                   book.tokens[r] == old(book.tokens[r]) + old(Undrained(b))
      ensures forall b :: 0 <= b < cache.rows && old(book.Live(b)) ==>
                DrainedSlot(b, old(book.StreamOf(book.slotRequest[b].value)), old(Undrained(b)))
      ensures forall r :: 0 <= r < |book.requests| && old(book.finish[r].Some?) ==> book.finish[r].Some?
    {
      hide RequestOk;
      if pending.Some? {
        forall b | 0 <= b < cache.rows
          ensures HoldsRow(b, pending.value.Row(b)) && Undrained(b) == pending.value.Row(b)
        {
          assert Holds(b);
        }
        DrainHeldCommits(pending.value);
        pending := None;
      } else {
        forall b | 0 <= b < cache.rows && book.Live(b)
          ensures DrainedSlot(b, book.StreamOf(book.slotRequest[b].value), Undrained(b))
        {
          CommitNone(book.stop, book.maxNew, book.StreamOf(book.slotRequest[b].value));
        }
      }
    }

    /** The slot's request has taken the held tokens one by one, and the slot is done exactly when that
        finished it. */
    ghost predicate DrainedSlot(b: nat, before: Stream, held: seq<Token>)
      requires Kept() && b < book.slots && book.slotRequest[b].Some?
      reads this`decided, book
    {
      var s := CommitAll(book.stop, book.maxNew, before, held);
      book.StreamOf(book.slotRequest[b].value) == s && book.done[b] == s.finish.Some?
    }

    method DrainHeldCommits(held: Commits)
      requires Kept() && |held.c0| == |held.c1| == |held.nc| == book.slots
      requires forall r :: 0 <= r < |book.requests| ==> RequestOk(r)
      requires forall b :: 0 <= b < book.slots ==> HoldsRow(b, held.Row(b))
      requires forall b :: 0 <= b < book.slots && book.slotRequest[b].Some? ==> book.slotRequest[b].value < nextReq
      modifies book`tokens, book`finish, book`done
      ensures Kept() && forall r :: 0 <= r < |book.requests| ==> RequestOk(r)
      ensures forall b :: 0 <= b < book.slots && book.Live(b) ==>
                && old(book.Live(b))
                && var r := book.slotRequest[b].value;
                   book.tokens[r] == old(book.tokens[r]) + held.Row(b)
      ensures forall b :: 0 <= b < book.slots && old(book.Live(b)) ==>
                DrainedSlot(b, old(book.StreamOf(book.slotRequest[b].value)), held.Row(b))
      ensures forall r :: 0 <= r < |book.requests| && old(book.finish[r].Some?) ==> book.finish[r].Some?
    {
      hide Tracked, CommitAll;
      ghost var n := |book.requests|;
      ghost var before := seq(n, r requires 0 <= r < n reads book requires book.Valid() => book.StreamOf(r));
      forall b, r | 0 <= b < book.slots && 0 <= r < n && book.Serves(b, r)
        ensures DrainsTo(before[r], held.Row(b), CommitAll(book.stop, book.maxNew, before[r], held.Row(b)), r)
      {
        assert RequestOk(r) && HoldsRow(b, held.Row(b));
        DrainHeld(m, book.requests[r], book.stop, book.maxNew, before[r], held.Row(b), decided[r]);
      }
      book.Drain(held);
      assert forall b, r :: 0 <= b < book.slots && 0 <= r < n && book.Serves(b, r) ==>
          DrainsTo(before[r], held.Row(b), book.StreamOf(r), r);
      forall r | 0 <= r < n
        ensures RequestOk(r) && (before[r].finish.Some? ==> book.finish[r].Some?)
      {
        assert old(RequestOk(r));
        if !book.Unserved(r) {
          var b :| 0 <= b < |book.slotRequest| && book.slotRequest[b] == Some(r);
          assert book.Serves(b, r);
        }
      }
      forall b | 0 <= b < book.slots && old(book.Live(b))
        ensures DrainedSlot(b, old(book.StreamOf(book.slotRequest[b].value)), held.Row(b))
      {
        assert book.Serves(b, book.slotRequest[b].value);
      }
      forall b | 0 <= b < book.slots && book.Live(b)
        ensures old(book.Live(b)) && var r := book.slotRequest[b].value;
                                      book.tokens[r] == old(book.tokens[r]) + held.Row(b)
      {
        assert book.Serves(b, book.slotRequest[b].value);
      }
    }

    ghost predicate DrainsTo(s: Stream, held: seq<Token>, t: Stream, r: nat)
      requires r < |book.requests| && book.requests[r] != []
      reads book
    {
      && Tracked(m, book.requests[r], book.stop, book.maxNew, t)
      && (s.finish.Some? ==> t == s)
      && (t.finish.None? ==> s.finish.None? && t.tokens == s.tokens + held)
    }

    /** The decided tokens after a cycle: every live slot's request gains that slot's commits. */
    ghost function Advance(commits: Commits): (d: seq<seq<Token>>)
      requires Wired() && |commits.c0| == |commits.c1| == |commits.nc| == cache.rows
      reads this, cache, book
      ensures |d| == |decided|
      ensures forall b :: 0 <= b < cache.rows && book.Live(b) ==>
                d[book.slotRequest[b].value] == decided[book.slotRequest[b].value] + commits.Row(b)
      ensures forall r :: 0 <= r < |d| && (book.Unserved(r) || book.finish[r].Some?) ==> d[r] == decided[r]
    {
      seq(|decided|, r requires 0 <= r < |decided|
                       requires Wired() && |commits.c0| == |commits.c1| == |commits.nc| == cache.rows
                       reads this, cache, book =>
        if book.Unserved(r) || book.finish[r].Some? then decided[r] else decided[r] + commits.Row(ServerOf(r)))
    }

    ghost function ServerOf(r: nat): (b: nat)
      requires !book.Unserved(r)
      reads book
      ensures b < |book.slotRequest| && book.slotRequest[b] == Some(r)
    {
      var b :| 0 <= b < |book.slotRequest| && book.slotRequest[b] == Some(r);
      b
    }

    ghost function Rows(): (rows: seq<Row>)
      requires Shaped() && cache.Valid()
      reads this, cache, book
      ensures |rows| == cache.rows && forall b :: 0 <= b < cache.rows ==> rows[b] == RowAt(b)
    {
      seq(cache.rows, b requires 0 <= b < cache.rows && Shaped() && cache.Valid() reads this, cache, book => RowAt(b))
    }

    ghost function Starts(): (starts: seq<int>)
      requires Shaped() && cache.Valid()
      reads this, cache, book
      ensures |starts| == cache.rows && forall b :: 0 <= b < cache.rows ==> starts[b] == StartOffset(b)
    {
      var n := cache.rows;
      seq(n, b requires 0 <= b < cache.rows && Shaped() && cache.Valid() reads this, cache, book => StartOffset(b))
    }

    /** How far a row may stand when a cycle starts. */
    ghost function StartLimit(): int
      reads this, cache, book
    {
      if refill then promptLen + book.maxNew + 1 else cache.bound
    }

    lemma ReadyToSubmit(b: nat)
      requires LoopOk() && b < cache.rows
      ensures SubmitFits(b) && Ready(b, Undrained(b), RowAt(b), StartOffset(b), StartLimit())
    {
      assert RangeOk(b) && SlotOk(b, Undrained(b), RowAt(b));
      if book.Live(b) {
        assert RequestOk(book.slotRequest[b].value);
      }
    }

    /** The write bound of a refill run: a live row stands at its prompt plus the tokens it has decided,
        committed or held, a done one is pinned to the prompt length, and every position a cycle writes
        is below the frozen capacity with 13 to spare. */
    lemma WriteBound(b: nat)
      requires LoopOk() && refill && b < cache.rows
      ensures book.Live(b) ==>
                var r := book.slotRequest[b].value;
                && cache.offsets[b] == promptLen + |decided[r]| && |decided[r]| == |book.tokens[r]| + |Undrained(b)|
      ensures book.done[b] ==> StartOffset(b) == promptLen
      ensures Back(b) <= StartOffset(b) && StartOffset(b) + 2 + 13 <= promptLen + book.maxNew + 16 <= cache.cap
    {
      ReadyToSubmit(b);
      assert SlotOk(b, Undrained(b), RowAt(b));
    }

    /** What a row brings into a cycle. */
    ghost predicate Ready(b: nat, held: seq<Token>, before: Row, start: int, limit: int)
      requires Kept() && b < book.slots
      reads this`decided, book
    {
      && promptLen <= start <= limit
      && (book.Live(b) ==>
            var r := book.slotRequest[b].value;
            start == before.off && Standing(m, book.requests[r], book.tokens[r], held, decided[r], before))
    }

    /** The first half of a cycle: submit, and see what it decides. The held commits are still held. */
    method SubmitAndDecide() returns (sub: Submission)
      requires LoopOk() && lane.Foldin?
      modifies cache`kv, cache`cap, cache`offsets, cache`rec, cache`bound
      ensures Wired() && sub.Shaped(cache.rows)
      ensures forall r :: 0 <= r < |book.requests| ==> RequestOk(r)
      ensures forall b :: 0 <= b < cache.rows ==> AfterCycle(b, sub, Undrained(b))
      ensures forall b :: 0 <= b < cache.rows ==> promptLen < cache.offsets[b] <= old(StartLimit()) + 2
      ensures cache.bound == if cache.frozen.Some? then old(cache.bound) else old(cache.bound) + 2
      ensures Grows(old(cache.cap))
    {
      hide Standing, Tracked;
      forall b | 0 <= b < cache.rows
        ensures SubmitFits(b) && Ready(b, Undrained(b), RowAt(b), StartOffset(b), StartLimit())
      {
        ReadyToSubmit(b);
      }
      ghost var before, start := Rows(), Starts();
      ghost var grown;
      sub, grown := Submit();
      forall b | 0 <= b < cache.rows
        ensures AfterCycle(b, sub, Undrained(b)) && start[b] < cache.offsets[b] <= start[b] + 2
      {
        assert Ready(b, old(Undrained(b)), before[b], start[b], old(StartLimit()));
        assert Submitted(before[b], start[b], grown[b], sub, b);
        CycleAdvances(b, old(Undrained(b)), before[b], start[b], old(StartLimit()), grown[b], sub);
      }
    }

    /** The plain decode cycle (`_run_ar_loop`): one token per row, nothing to verify, replay or rewind. */
    method SubmitAr() returns (sub: Submission, ghost grown: seq<Row>)
      requires Shaped() && cache.Valid()
      requires forall b :: 0 <= b < cache.rows ==> SubmitFits(b)
      modifies cache`kv, cache`cap, cache`offsets, cache`rec, cache`bound
      ensures Shaped() && cache.Valid() && sub.Shaped(cache.rows) && |grown| == cache.rows
      ensures forall b :: 0 <= b < cache.rows ==> SubmittedAr(old(RowAt(b)), old(StartOffset(b)), grown[b], sub, b)
      ensures cache.bound == if cache.frozen.Some? then old(cache.bound) else old(cache.bound) + 1
      ensures Grows(old(cache.cap))
    {
      hide RunRow;
      var n, ll := cache.rows, logitsLast;
      ghost var before, start := Rows(), Starts();
      var x := seq(n, b requires 0 <= b < n => m.argmax(ll[b]));
      var snapshot := cache.rec;
      PrepareAr();
      ghost var kv := cache.kv;
      grown := seq(n, b requires 0 <= b < n => before[b].(off := start[b], buf := kv[b]));
      var outs := cache.Forward(seq(n, b requires 0 <= b < n => [x[b]]), 1);
      sub := Submission(x, x, x, Commits(x, x, Fill(n, 1)), Fill(n, false), seq(n, b requires 0 <= b < n => outs[b][0]),
                        snapshot);
    }

    method PrepareAr()
      requires Shaped() && cache.Valid()
      requires forall b :: 0 <= b < cache.rows ==> SubmitFits(b)
      modifies cache`kv, cache`cap, cache`offsets
      ensures Shaped() && cache.Valid() && Grows(old(cache.cap))
      ensures cache.frozen.None? ==> cache.bound + 1 <= cache.cap
      ensures forall b :: 0 <= b < cache.rows ==> cache.kv[b][..old(cache.cap)] == old(cache.kv[b])
      ensures forall b :: 0 <= b < cache.rows ==>
                cache.offsets[b] == old(StartOffset(b)) && 0 <= cache.offsets[b] < cache.cap
    {
      PinIdle();
      forall b | 0 <= b < cache.rows
        ensures 0 <= cache.offsets[b]
        ensures if cache.frozen.Some? then cache.offsets[b] + 2 <= cache.cap else cache.offsets[b] <= cache.bound
      {
        assert old(SubmitFits(b));
      }
      cache.Reserve(1);
    }

    ghost predicate SubmittedAr(before: Row, start: int, grown: Row, sub: Submission, b: nat)
      requires cache.Valid() && sub.Shaped(cache.rows) && b < cache.rows
      reads this, cache
    {
      && grown == before.(off := start, buf := grown.buf)
      && |before.buf| <= |grown.buf| && grown.buf[..|before.buf|] == before.buf
      && 0 <= grown.off < |grown.buf|
      && sub.commits.Row(b) == ArCycleRow(m, grown).commits
      && var r := ArCycleRow(m, grown).row;
         && cache.kv[b] == r.buf && cache.offsets[b] == r.off && cache.rec[b] == r.rec
         && sub.nextLl[b] == r.ll && !sub.miss[b]
    }

    method SubmitArAndDecide() returns (sub: Submission)
      requires LoopOk() && lane.Plain?
      modifies cache`kv, cache`cap, cache`offsets, cache`rec, cache`bound
      ensures Wired() && sub.Shaped(cache.rows)
      ensures forall r :: 0 <= r < |book.requests| ==> RequestOk(r)
      ensures forall b :: 0 <= b < cache.rows ==> AfterCycle(b, sub, Undrained(b))
      ensures forall b :: 0 <= b < cache.rows ==> promptLen < cache.offsets[b] <= old(StartLimit()) + 1
      ensures cache.bound == if cache.frozen.Some? then old(cache.bound) else old(cache.bound) + 1
      ensures Grows(old(cache.cap))
    {
      hide Standing, Tracked;
      forall b | 0 <= b < cache.rows
        ensures SubmitFits(b) && Ready(b, Undrained(b), RowAt(b), StartOffset(b), StartLimit()) && !RowAt(b).replay
      {
        assert RangeOk(b);
        ReadyToSubmit(b);
      }
      ghost var before, start := Rows(), Starts();
      ghost var grown;
      sub, grown := SubmitAr();
      forall b | 0 <= b < cache.rows
        ensures AfterCycle(b, sub, Undrained(b)) && cache.offsets[b] == start[b] + 1
      {
        assert Ready(b, old(Undrained(b)), before[b], start[b], old(StartLimit()));
        assert SubmittedAr(before[b], start[b], grown[b], sub, b);
        ArCycleAdvances(b, old(Undrained(b)), before[b], start[b], old(StartLimit()), grown[b], sub);
      }
    }

    lemma ArCycleAdvances(b: nat, held: seq<Token>, before: Row, start: int, limit: int, grown: Row, sub: Submission)
      requires Wired() && sub.Shaped(cache.rows) && b < cache.rows && !before.replay
      requires Ready(b, held, before, start, limit) && SubmittedAr(before, start, grown, sub, b)
      ensures AfterCycle(b, sub, held) && cache.offsets[b] == start + 1
    {
      hide Standing;
      if book.Live(b) {
        var r := book.slotRequest[b].value;
        ArCycleKeepsStanding(m, book.requests[r], book.tokens[r], held, decided[r], before, grown);
        StandingIgnoresMiss(m, book.requests[r], book.tokens[r], held + sub.commits.Row(b),
                            decided[r] + sub.commits.Row(b),
                            ArCycleRow(m, grown).row, RowAfter(sub, b));
      }
    }

    /** The verify forward of a uniform-repair cycle. */
    method VerifyDrafts() returns (x0: seq<Token>, draft: seq<Token>, snapshot: seq<Recurrent>, outs: seq<seq<Output>>,
                                   ghost grown: seq<Row>)
      requires Shaped() && cache.Valid() && cache.frozen.None?
      requires forall b :: 0 <= b < cache.rows ==> 0 <= cache.offsets[b] <= cache.bound
      modifies cache`kv, cache`cap, cache`offsets, cache`rec, cache`bound
      ensures Shaped() && cache.Valid() && |x0| == |draft| == |snapshot| == |outs| == |grown| == cache.rows
      ensures cache.bound == old(cache.bound) + 2 <= cache.cap && Grows(old(cache.cap))
      ensures forall b :: 0 <= b < cache.rows ==>
                Verified(old(RowAt(b)), grown[b], x0[b], draft[b], snapshot[b], outs[b], b)
    {
      hide RunRow;
      var n, ll, cyc := cache.rows, logitsLast, cycles;
      ghost var before := Rows();
      x0 := seq(n, b requires 0 <= b < n => m.argmax(ll[b]));
      var firsts := x0;
      draft := if useDraft then seq(n, b requires 0 <= b < n => drafter(cyc, b, ll[b], firsts[b])) else x0;
      var drafts := draft;
      snapshot := cache.rec;
      cache.Reserve(2);
      ghost var kv := cache.kv;
      grown := seq(n, b requires 0 <= b < n => before[b].(buf := kv[b]));
      outs := cache.Forward(seq(n, b requires 0 <= b < n => [firsts[b], drafts[b]]), 2);
    }

    ghost predicate Verified(before: Row, grown: Row, x0: Token, draft: Token, rec: Recurrent, outs: seq<Output>,
                             b: nat)
      requires cache.Valid() && b < cache.rows
      reads this, cache
    {
      && grown == before.(buf := grown.buf)
      && |before.buf| <= |grown.buf| && grown.buf[..|before.buf|] == before.buf
      && 0 <= grown.off && grown.off + 2 <= |grown.buf|
      && x0 == m.argmax(grown.ll) && rec == grown.rec
      && RunRow(m, grown.buf, grown.off, grown.rec, [x0, draft]) == RowRun(cache.kv[b], cache.rec[b], outs)
      && cache.offsets[b] == grown.off + 2
    }

    /** The uniform-repair cycle: one verify forward, and on any real row's reject a rollback of the
        whole cohort and one repair forward. */
    method SubmitRepair() returns (sub: Submission, ghost grown: seq<Row>, ghost repair: bool)
      requires Shaped() && cache.Valid() && cache.frozen.None? && nReal <= cache.rows
      requires forall b :: 0 <= b < cache.rows ==> 0 <= cache.offsets[b] <= cache.bound
      modifies cache`kv, cache`cap, cache`offsets, cache`rec, cache`bound
      ensures Shaped() && cache.Valid() && sub.Shaped(cache.rows) && |grown| == cache.rows
      ensures forall b :: 0 <= b < cache.rows ==> SubmittedRepair(old(RowAt(b)), grown[b], sub, repair, b)
      ensures !repair ==> forall b :: 0 <= b < nReal ==> sub.d[b] == sub.x1[b]
      ensures cache.bound == old(cache.bound) + 2 && Grows(old(cache.cap))
    {
      hide RunRow;
      var n := cache.rows;
      var x0, draft, snapshot, outs;
      x0, draft, snapshot, outs, grown := VerifyDrafts();
      forall b | 0 <= b < n
        ensures |outs[b]| == 2 && 2 <= cache.offsets[b] <= cache.bound
      {
        assert Verified(old(RowAt(b)), grown[b], x0[b], draft[b], snapshot[b], outs[b], b);
      }
      var logits := outs;
      var x1 := seq(n, b requires 0 <= b < n => m.argmax(logits[b][0]));
      var allAccept := forall b :: 0 <= b < nReal ==> draft[b] == x1[b];
      repair := !allAccept;
      if !allAccept {
        outs := Repair(snapshot, x0, x1);
      }
      var last := outs;
      sub := Submission(x0, draft, x1, Commits(x0, x1, Fill(n, 2)), Fill(n, false),
                        seq(n, b requires 0 <= b < n => last[b][1]), snapshot);
    }

    /** `rollback_after_verify` and the repair forward: the KV forgets two positions, the recurrent
        state goes back to the snapshot, and the cohort feeds each primary with its true successor. */
    method Repair(snapshot: seq<Recurrent>, x0: seq<Token>, x1: seq<Token>) returns (outs: seq<seq<Output>>)
      requires Shaped() && cache.Valid() && cache.frozen.None? && |snapshot| == |x0| == |x1| == cache.rows
      requires 2 <= cache.bound <= cache.cap && forall b :: 0 <= b < cache.rows ==> 2 <= cache.offsets[b] <= cache.bound
      modifies cache`kv, cache`offsets, cache`rec, cache`bound
      ensures Shaped() && cache.Valid() && |outs| == cache.rows && cache.bound == old(cache.bound)
      ensures forall b :: 0 <= b < cache.rows ==>
                && RunRow(m, old(cache.kv[b]), old(cache.offsets[b]) - 2, snapshot[b], [x0[b], x1[b]])
                     == RowRun(cache.kv[b], cache.rec[b], outs[b])
                && cache.offsets[b] == old(cache.offsets[b])
    {
      hide RunRow;
      var n := cache.rows;
      cache.Trim(2);
      cache.RestoreMasked(snapshot, Fill(n, true));
      assert cache.rec == snapshot;
      outs := cache.Forward(seq(n, b requires 0 <= b < n => [x0[b], x1[b]]), 2);
    }

    ghost predicate SubmittedRepair(before: Row, grown: Row, sub: Submission, repair: bool, b: nat)
      requires cache.Valid() && sub.Shaped(cache.rows) && b < cache.rows
      reads this, cache
    {
      && grown == before.(buf := grown.buf)
      && |before.buf| <= |grown.buf| && grown.buf[..|before.buf|] == before.buf
      && 0 <= grown.off && grown.off + 2 <= |grown.buf|
      && sub.commits.Row(b) == RepairCycleRow(m, grown, sub.d[b], repair).commits
      && sub.x1[b] == RepairCycleRow(m, grown, sub.d[b], repair).commits[1]
      && var r := RepairCycleRow(m, grown, sub.d[b], repair).row;
         && cache.kv[b] == r.buf && cache.offsets[b] == r.off && cache.rec[b] == r.rec
         && sub.nextLl[b] == r.ll && !sub.miss[b]
    }

    method SubmitRepairAndDecide() returns (sub: Submission)
      requires LoopOk() && (lane.Pipelined? || lane.Serial?)
      modifies cache`kv, cache`cap, cache`offsets, cache`rec, cache`bound
      ensures Wired() && sub.Shaped(cache.rows)
      ensures forall r :: 0 <= r < |book.requests| ==> RequestOk(r)
      ensures forall b :: 0 <= b < cache.rows ==> AfterCycle(b, sub, Undrained(b))
      ensures forall b :: 0 <= b < cache.rows ==> promptLen < cache.offsets[b] <= old(StartLimit()) + 2
      ensures cache.bound == old(cache.bound) + 2 && Grows(old(cache.cap))
    {
      hide Standing, Tracked, RepairCycleRow;
      forall b | 0 <= b < cache.rows
        ensures 0 <= cache.offsets[b] <= cache.bound
        ensures Ready(b, Undrained(b), RowAt(b), RowAt(b).off, StartLimit()) && !RowAt(b).replay
      {
        assert RangeOk(b);
        ReadyToSubmit(b);
      }
      ghost var before := Rows();
      ghost var grown, repair;
      sub, grown, repair := SubmitRepair();
      forall b | 0 <= b < cache.rows
        ensures AfterCycle(b, sub, Undrained(b)) && cache.offsets[b] == before[b].off + 2
      {
        assert Ready(b, old(Undrained(b)), before[b], before[b].off, old(StartLimit()));
        assert SubmittedRepair(before[b], grown[b], sub, repair, b);
        RepairCycleAdvances(b, old(Undrained(b)), before[b], old(StartLimit()), grown[b], sub, repair);
      }
    }

    lemma RepairCycleAdvances(b: nat, held: seq<Token>, before: Row, limit: int, grown: Row, sub: Submission,
                              repair: bool)
      requires Wired() && sub.Shaped(cache.rows) && b < cache.rows && !before.replay
      requires Ready(b, held, before, before.off, limit) && SubmittedRepair(before, grown, sub, repair, b)
      requires !repair && b < nReal ==> sub.d[b] == sub.x1[b]
      ensures AfterCycle(b, sub, held) && cache.offsets[b] == before.off + 2
    {
      hide Standing;
      if book.Live(b) {
        var r := book.slotRequest[b].value;
        if !repair {
          AcceptedDraft(m, book.requests[r], book.tokens[r], held, decided[r], before, grown, sub.d[b]);
        }
        RepairCycleKeepsStanding(m, book.requests[r], book.tokens[r], held, decided[r], before, grown, sub.d[b],
                                 repair);
        StandingIgnoresMiss(m, book.requests[r], book.tokens[r], held + sub.commits.Row(b),
                            decided[r] + sub.commits.Row(b),
                            RepairCycleRow(m, grown, sub.d[b], repair).row, RowAfter(sub, b));
      }
    }

    lemma CycleAdvances(b: nat, held: seq<Token>, before: Row, start: int, limit: int, grown: Row, sub: Submission)
      requires Wired() && sub.Shaped(cache.rows) && b < cache.rows && lane.Foldin?
      requires Ready(b, held, before, start, limit) && Submitted(before, start, grown, sub, b)
      ensures AfterCycle(b, sub, held) && start < cache.offsets[b] <= start + 2
    {
      if book.Live(b) {
        var r := book.slotRequest[b].value;
        CycleKeepsStanding(m, book.requests[r], book.tokens[r], held, decided[r], before, grown, sub.d[b]);
      }
    }

    ghost predicate AfterCycle(b: nat, sub: Submission, held: seq<Token>)
      requires Wired() && sub.Shaped(cache.rows) && b < cache.rows
      reads this, cache, book
    {
      && 1 <= |sub.commits.Row(b)| <= 2
      && (!lane.Foldin? ==> !sub.miss[b])
      && (book.Live(b) ==>
            var r := book.slotRequest[b].value;
            Standing(m, book.requests[r], book.tokens[r], held + sub.commits.Row(b), decided[r] + sub.commits.Row(b),
                     RowAfter(sub, b)))
    }

    /** Between submit and drain: the new cycle's commits come after the ones still held. */
    ghost predicate Submitting(sub: Submission)
      reads this, cache, book
    {
      && Wired() && sub.Shaped(cache.rows)
      && (forall b :: 0 <= b < cache.rows ==> !lane.Foldin? ==> !sub.miss[b])
      && (forall r :: 0 <= r < |book.requests| ==> RequestOk(r))
      && (forall b :: 0 <= b < cache.rows ==> SlotOk(b, Undrained(b) + sub.commits.Row(b), RowAfter(sub, b)))
    }

    ghost method NoteDecided(sub: Submission)
      requires Wired() && sub.Shaped(cache.rows) && forall r :: 0 <= r < |book.requests| ==> RequestOk(r)
      requires forall b :: 0 <= b < cache.rows ==> AfterCycle(b, sub, Undrained(b))
      modifies this`decided
      ensures Submitting(sub)
      ensures forall r :: 0 <= r < |decided| ==> |old(decided[r])| <= |decided[r]|
      ensures forall b :: 0 <= b < cache.rows && book.Live(b) ==>
                decided[book.slotRequest[b].value] == old(decided)[book.slotRequest[b].value] + sub.commits.Row(b)
      ensures forall b :: 0 <= b < cache.rows ==> Holds(b)
    {
      hide Standing, Tracked;
      decided := Advance(sub.commits);
      forall r | 0 <= r < |book.requests|
        ensures RequestOk(r)
      {
        assert old(RequestOk(r));
        assert r >= nextReq ==> book.Unserved(r);
      }
      forall b | 0 <= b < cache.rows
        ensures SlotOk(b, Undrained(b) + sub.commits.Row(b), RowAfter(sub, b)) && Holds(b)
        ensures (!lane.Foldin? ==> !sub.miss[b])
      {
        assert old(AfterCycle(b, sub, Undrained(b)));
        if book.Live(b) {
          var r := book.slotRequest[b].value;
          StandingHolds(m, book.requests[r], book.tokens[r], Undrained(b), sub.commits.Row(b), decided[r],
                        RowAfter(sub, b));
        }
      }
    }

    /** Draining while the new cycle is in flight leaves only its commits undrained. */
    method FlushWhileSubmitting(sub: Submission)
      requires Submitting(sub) && forall b :: 0 <= b < cache.rows ==> Holds(b)
      modifies this`pending, book`tokens, book`finish, book`done
      ensures Submitting(sub) && pending == None
      ensures forall b :: 0 <= b < cache.rows && old(book.Live(b)) ==>
                DrainedSlot(b, old(book.StreamOf(book.slotRequest[b].value)), old(Undrained(b)))
      ensures forall r :: 0 <= r < |book.requests| && old(book.finish[r].Some?) ==> book.finish[r].Some?
    {
      hide Standing, Tracked;
      Flush();
      forall b | 0 <= b < cache.rows
        ensures SlotOk(b, Undrained(b) + sub.commits.Row(b), RowAfter(sub, b))
      {
        assert old(SlotOk(b, Undrained(b) + sub.commits.Row(b), RowAfter(sub, b)));
        if book.Live(b) {
          var r := book.slotRequest[b].value;
          StandingHolds(m, book.requests[r], old(book.tokens[r]), old(Undrained(b)), sub.commits.Row(b), decided[r],
                        RowAfter(sub, b));
          assert [] + sub.commits.Row(b) == sub.commits.Row(b);
        }
      }
    }

    /** `_read`: the cycle's decision becomes the loop state, its commits are held for one cycle. */
    method Read(sub: Submission)
      requires Submitting(sub) && pending == None
      requires forall b :: 0 <= b < cache.rows ==>
                 promptLen < cache.offsets[b] <= (if refill then promptLen + book.maxNew + 3 else cache.bound)
      modifies this`pending, this`replayFlags, this`logitsLast, this`replayA, this`replayB, this`prevSnapshot
      modifies this`cycles
      ensures LoopOk() && pending == Some(sub.commits) && cycles == old(cycles) + 1
    {
      hide Standing, Tracked;
      var n, nr := cache.rows, nReal;
      pending := Some(sub.commits);
      replayFlags := seq(n, b requires 0 <= b < n => sub.miss[b] && b < nr);
      logitsLast := sub.nextLl;
      replayA, replayB, prevSnapshot := sub.a, sub.x1, Some(sub.snapshot);
      cycles := cycles + 1;
      assert Wired();
      forall b | 0 <= b < cache.rows
        ensures SlotOk(b, Undrained(b), RowAt(b))
      {
        assert old(SlotOk(b, Undrained(b) + sub.commits.Row(b), RowAfter(sub, b)));
        assert [] + sub.commits.Row(b) == sub.commits.Row(b);
        assert b < nReal ==> RowAt(b) == RowAfter(sub, b);
      }
      forall r | 0 <= r < |book.requests|
        ensures RequestOk(r)
      {
        assert old(RequestOk(r));
      }
      assert forall b :: 0 <= b < cache.rows ==> RangeOk(b);
    }

    /** One cycle's submission on either lane. */
    method SubmitCycle() returns (sub: Submission)
      requires LoopOk()
      modifies cache`kv, cache`cap, cache`offsets, cache`rec, cache`bound
      ensures Wired() && sub.Shaped(cache.rows) && Grows(old(cache.cap))
      ensures forall r :: 0 <= r < |book.requests| ==> RequestOk(r)
      ensures forall b :: 0 <= b < cache.rows ==> AfterCycle(b, sub, Undrained(b))
      ensures forall b :: 0 <= b < cache.rows ==>
                 promptLen < cache.offsets[b] <= (if refill then promptLen + book.maxNew + 3 else cache.bound)
    {
      hide AfterCycle, LoopOk;
      match lane
      case Foldin => sub := SubmitAndDecide();
      case Plain => sub := SubmitArAndDecide();
      case _ => sub := SubmitRepairAndDecide();
    }

    /** Every row has been through a cycle since its prompt. */
    predicate Moved()
      requires cache.rows == |cache.offsets|
      reads this, cache
    {
      forall b :: 0 <= b < cache.rows ==> promptLen < cache.offsets[b]
    }

    /** One cycle of the loop: submit, drain the previous cycle's commits while it runs, then read it. */
    method Step()
      requires LoopOk()
      modifies this`decided, this`pending, this`replayFlags, this`logitsLast, this`replayA, this`replayB
      modifies this`prevSnapshot, this`cycles
      modifies cache`kv, cache`cap, cache`offsets, cache`rec, cache`bound, book`tokens, book`finish, book`done
      ensures LoopOk() && pending.Some? && Moved()
      ensures forall b :: 0 <= b < cache.rows && old(book.Live(b)) ==>
                DrainedSlot(b, old(book.StreamOf(book.slotRequest[b].value)), old(Undrained(b)))
      ensures nextReq == old(nextReq) && cycles == old(cycles) + 1 && Grows(old(cache.cap))
      ensures forall r :: 0 <= r < |book.requests| && old(book.finish[r].Some?) ==> book.finish[r].Some?
      ensures forall r :: 0 <= r < |book.requests| ==>
                && old(|decided[r]|) <= |decided[r]|
                && (r < nextReq && book.finish[r].None? ==>
                  old(|decided[r]|) < book.maxNew && old(|decided[r]|) < |decided[r]|)
    {
      hide Standing, Tracked, RangeOk;
      var sub := SubmitCycle();
      forall b | 0 <= b < cache.rows
        ensures 1 <= |sub.commits.Row(b)|
      {
        assert AfterCycle(b, sub, Undrained(b));
      }
      NoteDecided(sub);
      FlushWhileSubmitting(sub);
      Read(sub);
      forall r | 0 <= r < |book.requests| && r < nextReq && book.finish[r].None?
        ensures old(|decided[r]|) < book.maxNew && old(|decided[r]|) < |decided[r]|
      {
        assert RequestOk(r);
        var b := ServerOf(r);
        assert 1 <= |sub.commits.Row(b)|;
        CommittedBefore(b, r, old(decided[r]));
      }
    }

    /** What a still unfinished request had decided before the held cycle is what it has committed. */
    lemma CommittedBefore(b: nat, r: nat, before: seq<Token>)
      requires LoopOk() && pending.Some? && b < cache.rows && book.slotRequest[b] == Some(r) && book.finish[r].None?
      requires decided[r] == before + pending.value.Row(b)
      ensures |before| < book.maxNew
    {
      assert SlotOk(b, Undrained(b), RowAt(b)) && RequestOk(r);
    }

    /* ---- refill: admitting queued requests into finished slots ---- */

    /** Some row that is not being admitted would be written past the physical capacity by the
        cohort-wide admission prefill. */
    predicate Overruns(assign: seq<Option<nat>>)
      requires |assign| == cache.rows == |cache.offsets|
      reads this, cache
    {
      exists b :: 0 <= b < cache.rows && assign[b].None? && cache.offsets[b] + promptLen > cache.cap
    }

    /** The device half of `_admit_rows`: one [cohort, prompt_len] prefill in which the admitted rows
        run their prompt from offset 0 over zeroed recurrent state; every other row runs a dummy
        prompt beyond its logical length and is put back. */
    method AdmitForward(assign: seq<Option<nat>>)
      requires Wired() && refill && |assign| == cache.rows
      requires forall b :: 0 <= b < cache.rows ==>
                 if assign[b].Some? then assign[b].value < |book.requests| else 0 <= cache.offsets[b]
      requires !Overruns(assign)
      modifies this`logitsLast, cache`kv, cache`offsets, cache`rec, cache`bound
      ensures Wired() && cache.cap == old(cache.cap)
      ensures forall b :: 0 <= b < cache.rows ==>
                if assign[b].Some? then AdmittedRow(b, old(cache.kv[b]), assign[b].value)
                else KeptRow(b, old(cache.kv[b]), old(cache.offsets[b]), old(cache.rec[b]), old(logitsLast[b]))
    {
      hide RunRow;
      var n, p, reqs, pad := cache.rows, promptLen, book.requests, padId;
      var preState, saved := cache.rec, cache.offsets;
      ResetAdmitted(assign);
      var inp := seq(n, b requires 0 <= b < n => if assign[b].Some? then reqs[assign[b].value] else Fill(p, pad));
      forall b | 0 <= b < n
        ensures 0 <= cache.offsets[b] && cache.offsets[b] + p <= cache.cap
      {
        if assign[b].None? {
          assert !(cache.offsets[b] + promptLen > cache.cap);
        }
      }
      ghost var kv0, off0, rec0 := cache.kv, cache.offsets, cache.rec;
      var outs := cache.Forward(inp, p);
      forall b | 0 <= b < n
        ensures assign[b].None? ==> cache.kv[b][..saved[b]] == kv0[b][..saved[b]]
      {
        RunRowKeepsPrefix(m, kv0[b], off0[b], rec0[b], inp[b], off0[b]);
      }
      PutBack(assign, preState, saved, outs);
    }

    /** Admitted rows start afresh: zeroed recurrent state, offset 0. */
    method ResetAdmitted(assign: seq<Option<nat>>)
      requires Wired() && |assign| == cache.rows
      modifies cache`offsets, cache`rec
      ensures Wired()
      ensures forall b :: 0 <= b < cache.rows ==>
                && cache.offsets[b] == (if assign[b].Some? then 0 else old(cache.offsets[b]))
                && cache.rec[b] == (if assign[b].Some? then m.zero else old(cache.rec[b]))
    {
      var n := cache.rows;
      var admit := seq(n, b requires 0 <= b < n => assign[b].Some?);
      cache.ZeroRows(admit);
      cache.SetOffsets(Where(admit, Fill(n, 0), cache.offsets));
    }

    /** After the prefill every other row gets its recurrent state, offset and logits back. */
    method PutBack(assign: seq<Option<nat>>, preState: seq<Recurrent>, saved: seq<int>, outs: seq<seq<Output>>)
      requires Wired() && |assign| == |preState| == |saved| == |outs| == cache.rows
      requires forall b :: 0 <= b < cache.rows ==> |outs[b]| == promptLen
      modifies this`logitsLast, cache`offsets, cache`rec
      ensures Wired()
      ensures forall b :: 0 <= b < cache.rows ==>
                && cache.offsets[b] == (if assign[b].Some? then promptLen else saved[b])
                && cache.rec[b] == (if assign[b].Some? then old(cache.rec[b]) else preState[b])
                && logitsLast[b] == (if assign[b].Some? then outs[b][promptLen - 1] else old(logitsLast[b]))
    {
      var n, p := cache.rows, promptLen;
      var admit := seq(n, b requires 0 <= b < n => assign[b].Some?);
      var keep := seq(n, b requires 0 <= b < n => assign[b].None?);
      cache.RestoreMasked(preState, keep);
      cache.SetOffsets(Where(admit, Fill(n, p), saved));
      logitsLast := Where(admit, seq(n, b requires 0 <= b < n => outs[b][p - 1]), logitsLast);
    }

    ghost predicate AdmittedRow(b: nat, buf: seq<Entry>, r: nat)
      requires Wired() && b < cache.rows && r < |book.requests|
      reads this, cache, book
    {
      && promptLen <= |buf| == cache.cap
      && cache.offsets[b] == promptLen
      && var run := RunRow(m, buf, 0, m.zero, book.requests[r]);
         cache.kv[b] == run.buf && cache.rec[b] == run.rec && logitsLast[b] == run.outs[promptLen - 1]
    }

    ghost predicate KeptRow(b: nat, buf: seq<Entry>, off: int, rec: Recurrent, ll: Output)
      requires Wired() && b < cache.rows
      reads this, cache, book
    {
      && 0 <= off <= |buf| == cache.cap
      && cache.kv[b][..off] == buf[..off]
      && cache.offsets[b] == off && cache.rec[b] == rec && logitsLast[b] == ll
    }

    /** The admitted requests are 0, 1, 2, ... in this order, each in a real slot. */
    ghost predicate Logged()
      reads register`admissions
    {
      forall i :: 0 <= i < |register.admissions| ==> register.admissions[i].0 < nReal && register.admissions[i].1 == i
    }

    /** What slot b serves is what it was admitted last. */
    ghost predicate Placed(b: nat)
      requires Logged() && b < |book.slotRequest|
      reads register`admissions, book`slotRequest
    {
      && book.slotRequest[b].Some? && book.slotRequest[b].value < |register.admissions|
      && register.admissions[book.slotRequest[b].value].0 == b
      && forall i :: book.slotRequest[b].value < i < |register.admissions| ==> register.admissions[i].0 != b
    }

    /** In a refill run request r is the r-th to be admitted, every admitted request to one slot once,
        and the slots serve what they were admitted last. */
    ghost predicate Enlisted()
      requires nReal <= |book.slotRequest|
      reads register`admissions, this`nextReq, book`slotRequest
    {
      refill ==> Logged() && |register.admissions| == nextReq && forall b :: 0 <= b < nReal ==> Placed(b)
    }

    /** Every admission after the initial one gave the finished slots the queued requests in order. */
    ghost predicate AllTakeQueue(passes: seq<Pass>) {
      forall k :: 1 <= k < |passes| ==> PassTakesQueue(passes[k])
    }

    ghost predicate PassTakesQueue(pass: Pass) {
      TakesQueue(pass.assign, pass.done, nReal, |book.requests|, pass.from,
                 pass.from + Given(pass.assign, |pass.assign|))
    }

    /** Every admission prefill fitted the capacity. */
    ghost predicate AllFit(passes: seq<Pass>, cap: nat) {
      forall k :: 0 <= k < |passes| ==> passes[k].Fits(promptLen, cap)
    }

    /** `assign` gives untouched requests, each to one slot, and leaves every other admitted request
        where it is. */
    ghost predicate Admissible(assign: seq<Option<nat>>, next: nat)
      requires Kept() && |assign| == book.slots
      reads this`decided, this`nextReq, book
    {
      && nextReq <= next <= |book.requests|
      && (forall b :: 0 <= b < book.slots && assign[b].Some? ==>
            && b < nReal && assign[b].value < next
            && book.StreamOf(assign[b].value) == Stream([], None) && decided[assign[b].value] == [])
      && (forall b, c :: 0 <= b < book.slots && 0 <= c < book.slots && b != c && assign[b].Some? ==>
            assign[b] != assign[c] && book.slotRequest[c] != assign[b])
      && (forall r :: 0 <= r < |book.requests| && Some(r) !in assign ==> Untouched(r, assign, next))
    }

    ghost predicate Untouched(r: nat, assign: seq<Option<nat>>, next: nat)
      requires Kept() && |assign| == book.slots && r < |book.requests|
      reads this`decided, book
    {
      if r >= next then book.StreamOf(r) == Stream([], None) && decided[r] == []
      else
        && Tracked(m, book.requests[r], book.stop, book.maxNew, book.StreamOf(r))
        && (book.finish[r].None? ==>
          exists b :: 0 <= b < book.slots && assign[b].None? && book.slotRequest[b] == Some(r))
    }

    /** `_admit_rows`: nothing of a slot's previous occupant or of a neighbour reaches an admitted
        request, and no other row is disturbed. Refuses only when the prefill would be written past
        the physical capacity. */
    method AdmitRows(assign: seq<Option<nat>>, next: nat) returns (ok: bool)
      requires Wired() && refill && pending == None && |assign| == cache.rows && Admissible(assign, next)
      requires Logged() && InOrder(assign, |register.admissions|, next)
      requires forall b :: 0 <= b < nReal && assign[b].None? ==> Placed(b)
      requires forall b :: 0 <= b < cache.rows ==> RangeOk(b)
      requires forall b :: 0 <= b < cache.rows && assign[b].None? ==> SlotOk(b, [], RowAt(b))
      modifies this`logitsLast, this`replayFlags, this`nextReq, register, book`slotRequest, book`done
      modifies cache`kv, cache`offsets, cache`rec, cache`bound
      ensures register.passes
                == old(register.passes) + [Pass(assign, old(book.done), old(|register.admissions|), old(cache.offsets))]
      ensures ok == register.passes[|old(register.passes)|].Fits(promptLen, cache.cap) == !old(Overruns(assign))
      ensures ok ==>
                && LoopOk() && nextReq == next && pending == None && Enlisted()
                && old(register.admissions) <= register.admissions
      ensures ok ==> forall b :: 0 <= b < cache.rows ==>
                Served(b, assign[b], old(book.slotRequest[b]), old(book.done[b]))
      ensures cache.cap == old(cache.cap)
      ensures Wired()
      ensures !ok ==> nextReq == old(nextReq) && register.admissions == old(register.admissions)
    {
      hide Standing, Tracked, RunRow, Admissible, EnrolReady, InOrder, Given, Placed, LoopOk;
      register.passes := register.passes + [Pass(assign, book.done, |register.admissions|, cache.offsets)];
      if Overruns(assign) {
        return false;
      }
      ok := true;
      AdmitDevice(assign, next);
      Enrol(assign, next);
    }

    /** What a slot serves after an admission. */
    ghost predicate Served(b: nat, given: Option<nat>, before: Option<nat>, wasDone: bool)
      requires b < |book.slotRequest| && b < |book.done|
      reads book`slotRequest, book`done
    {
      if given.Some? then book.slotRequest[b] == given && !book.done[b]
      else book.slotRequest[b] == before && book.done[b] == wasDone
    }

    method AdmitDevice(assign: seq<Option<nat>>, next: nat)
      requires Wired() && refill && |assign| == cache.rows && Admissible(assign, next) && !Overruns(assign)
      requires forall b :: 0 <= b < cache.rows ==> RangeOk(b)
      requires forall b :: 0 <= b < cache.rows && assign[b].None? ==> SlotOk(b, [], RowAt(b))
      modifies this`logitsLast, cache`kv, cache`offsets, cache`rec, cache`bound
      ensures Wired() && Admissible(assign, next) && cache.cap == old(cache.cap)
      ensures forall b :: 0 <= b < cache.rows ==> EnrolReady(b, assign[b])
    {
      hide Standing, Tracked, RunRow, AdmittedRow, Overruns;
      forall b | 0 <= b < cache.rows
        ensures 0 <= cache.offsets[b]
      {
        assert RangeOk(b);
      }
      ghost var before := Rows();
      AdmitForward(assign);
      forall b | 0 <= b < cache.rows
        ensures EnrolReady(b, assign[b])
      {
        if assign[b].Some? {
          AdmittedReady(b, before[b].buf, assign[b].value);
        } else {
          assert old(SlotOk(b, [], RowAt(b))) && old(RangeOk(b));
          KeptReady(b, before[b]);
        }
      }
    }

    lemma AdmittedReady(b: nat, buf: seq<Entry>, r: nat)
      requires Wired() && b < cache.rows && r < |book.requests| && AdmittedRow(b, buf, r)
      ensures Standing(m, book.requests[r], [], [], [], RowAt(b).(replay := false)) && cache.offsets[b] == promptLen
    {
      hide Standing, RunRow;
      var prompt := book.requests[r];
      AdmittedStanding(m, prompt, buf, RunRow(m, buf, 0, m.zero, prompt), RowAt(b).(replay := false));
    }

    lemma KeptReady(b: nat, before: Row)
      requires Wired() && b < cache.rows && SlotOk(b, [], before)
      requires KeptRow(b, before.buf, before.off, before.rec, before.ll)
      requires RowAt(b) == before.(buf := cache.kv[b])
      ensures SlotOk(b, [], RowAt(b))
    {
      hide Standing;
      if book.Live(b) {
        var r := book.slotRequest[b].value;
        StandingBelowOffset(m, book.requests[r], book.tokens[r], [], decided[r], before, cache.kv[b]);
      }
    }

    /** An admitted row stands right after its prompt once its replay flag is down; a kept row is as
        it was. */
    ghost predicate EnrolReady(b: nat, given: Option<nat>)
      requires Wired() && b < cache.rows
      reads this, cache, book
    {
      if given.Some? then
        && given.value < |book.requests|
        && Standing(m, book.requests[given.value], [], [], [], RowAt(b).(replay := false))
        && cache.offsets[b] == promptLen
      else SlotOk(b, [], RowAt(b)) && RangeOk(b)
    }

    /** One slot takes a request, with its done and replay flags down, and the log notes it. */
    method EnrolSlot(b: nat, r: nat)
      requires Wired() && b < nReal && r < nextReq && book.finish[r].None? && Logged() && r == |register.admissions|
      requires forall c :: 0 <= c < cache.rows && c != b ==> book.slotRequest[c] != Some(r)
      modifies this`replayFlags, register`admissions, book`slotRequest, book`done
      ensures Wired() && Logged() && register.admissions == old(register.admissions) + [(b, r)] && Placed(b)
      ensures forall c :: 0 <= c < nReal && c != b && old(Placed(c)) ==> Placed(c)
      ensures book.slotRequest == old(book.slotRequest)[b := Some(r)]
      ensures book.done == old(book.done)[b := false] && replayFlags == old(replayFlags)[b := false]
    {
      book.Admit(b, r);
      replayFlags := replayFlags[b := false];
      register.admissions := register.admissions + [(b, r)];
    }

    /** After the slots below i: they serve what they are given, the others what they served. */
    ghost predicate Enrolling(assign: seq<Option<nat>>, slots: seq<Option<nat>>, done: seq<bool>, flags: seq<bool>,
                              from: nat, i: nat)
      requires Shaped() && |assign| == |slots| == |done| == |flags| == |book.slotRequest| == cache.rows
      requires i <= cache.rows && nReal <= cache.rows
      reads this, cache, book, register`admissions
    {
      && Logged() && |register.admissions| == from + Given(assign, i)
      && (forall b :: 0 <= b < nReal && (b < i || assign[b].None?) ==> Placed(b))
      && (forall c :: 0 <= c < cache.rows ==>
            && Served(c, if c < i then assign[c] else None, slots[c], done[c])
            && replayFlags[c] == (if c < i && assign[c].Some? then false else flags[c]))
    }

    method EnrolTurn(assign: seq<Option<nat>>, i: nat, ghost slots: seq<Option<nat>>, ghost done: seq<bool>,
                     ghost flags: seq<bool>, ghost from: nat)
      requires Wired() && |assign| == |slots| == |done| == |flags| == cache.rows && i < cache.rows
      requires Enrolling(assign, slots, done, flags, from, i) && Numbered(assign, from, i)
      requires assign[i].Some? ==>
                 && i < nReal && assign[i].value < nextReq && book.finish[assign[i].value].None?
                 && forall c :: 0 <= c < cache.rows && c != i ==> slots[c] != assign[i] && assign[c] != assign[i]
      modifies this`replayFlags, register`admissions, book`slotRequest, book`done
      ensures Wired() && Enrolling(assign, slots, done, flags, from, i + 1)
      ensures old(register.admissions) <= register.admissions
    {
      hide Placed, RequestOk;
      forall c | 0 <= c < cache.rows && c != i
        ensures assign[i].Some? ==> book.slotRequest[c] != assign[i]
      {
        assert Served(c, if c < i then assign[c] else None, slots[c], done[c]);
      }
      if assign[i].Some? {
        EnrolSlot(i, assign[i].value);
      }
    }

    /** The bookkeeping half of `_admit_rows`: the given slots take their requests, with the done and
        replay flags down; the other slots are as they were. */
    method EnrolSlots(assign: seq<Option<nat>>, next: nat)
      requires Wired() && |assign| == cache.rows && Admissible(assign, next)
      requires Logged() && InOrder(assign, |register.admissions|, next)
      requires forall b :: 0 <= b < nReal && assign[b].None? ==> Placed(b)
      modifies this`replayFlags, this`nextReq, register`admissions, book`slotRequest, book`done
      ensures Wired() && nextReq == next && Logged() && |register.admissions| == next
      ensures old(register.admissions) <= register.admissions
      ensures forall b :: 0 <= b < nReal ==> Placed(b)
      ensures forall c :: 0 <= c < cache.rows ==>
                && Served(c, assign[c], old(book.slotRequest[c]), old(book.done[c]))
                && replayFlags[c] == (if assign[c].Some? then false else old(replayFlags[c]))
    {
      hide Tracked;
      ghost var slots, done, flags, from := book.slotRequest, book.done, replayFlags, |register.admissions|;
      forall b | 0 <= b < cache.rows && assign[b].Some?
        ensures b < nReal && assign[b].value < next && book.finish[assign[b].value].None?
        ensures forall c :: 0 <= c < cache.rows && c != b ==> slots[c] != assign[b] && assign[c] != assign[b]
      {
        assert book.StreamOf(assign[b].value) == Stream([], None);
      }
      hide Admissible, Placed;
      nextReq := next;
      for i := 0 to cache.rows
        invariant Wired() && nextReq == next && Enrolling(assign, slots, done, flags, from, i)
        invariant old(register.admissions) <= register.admissions
      {
        assert Numbered(assign, from, i);
        EnrolTurn(assign, i, slots, done, flags, from);
      }
    }

    method Enrol(assign: seq<Option<nat>>, next: nat)
      requires Wired() && refill && pending == None && |assign| == cache.rows && Admissible(assign, next)
      requires Logged() && InOrder(assign, |register.admissions|, next)
      requires forall b :: 0 <= b < nReal && assign[b].None? ==> Placed(b)
      requires forall b :: 0 <= b < cache.rows ==> EnrolReady(b, assign[b])
      modifies this`replayFlags, this`nextReq, register`admissions, book`slotRequest, book`done
      ensures Wired() && LoopOk() && nextReq == next && pending == None && Enlisted()
      ensures old(register.admissions) <= register.admissions
      ensures forall b :: 0 <= b < cache.rows ==> Served(b, assign[b], old(book.slotRequest[b]), old(book.done[b]))
    {
      hide Standing, Tracked, InOrder, Placed, Given;
      ghost var before := Rows();
      EnrolSlots(assign, next);
      forall b | 0 <= b < cache.rows
        ensures SlotOk(b, Undrained(b), RowAt(b)) && RangeOk(b)
      {
        assert old(EnrolReady(b, assign[b]));
        assert RowAt(b) == if assign[b].Some? then before[b].(replay := false) else before[b];
      }
      forall r | 0 <= r < |book.requests|
        ensures RequestOk(r)
      {
        if Some(r) in assign {
          var b :| 0 <= b < cache.rows && assign[b] == Some(r);
          assert book.slotRequest[b] == Some(r);
          FreshTracked(m, book.requests[r], book.stop, book.maxNew);
        } else {
          assert old(Untouched(r, assign, next));
        }
      }
    }

    method ChooseAssign() returns (assign: seq<Option<nat>>, next: nat)
      requires nReal <= cache.rows == |book.done| && nextReq <= |book.requests|
      ensures |assign| == cache.rows && TakesQueue(assign, book.done, nReal, |book.requests|, nextReq, next)
    {
      var n, done, from, total := cache.rows, book.done, nextReq, |book.requests|;
      assign, next := Fill(n, None), from;
      for b := 0 to nReal
        invariant |assign| == n && next == from + Given(assign, b)
        invariant forall c :: 0 <= c < b ==> InTurn(assign, done, nReal, total, from, c)
        invariant forall c :: b <= c < n ==> assign[c].None?
      {
        ghost var before := assign;
        if next < total && done[b] {
          assign := assign[b := Some(next)];
          next := next + 1;
        }
        GivenPrefix(assign, before, b);
        forall c | 0 <= c < b
          ensures InTurn(assign, done, nReal, total, from, c)
        {
          assert InTurn(before, done, nReal, total, from, c);
          GivenPrefix(assign, before, c);
        }
        assert InTurn(assign, done, nReal, total, from, b);
      }
      GivenMonotone(assign, nReal, n);
    }

    lemma ChosenAdmissible(assign: seq<Option<nat>>, next: nat)
      requires LoopOk() && |assign| == cache.rows
      requires TakesQueue(assign, book.done, nReal, |book.requests|, nextReq, next)
      ensures Admissible(assign, next)
    {
      hide Standing, Tracked, RangeOk, SlotOk, TakesQueue, Given, InOrder, RequestOk;
      TakesAll(assign, book.done, nReal, |book.requests|, nextReq, next);
      forall b | 0 <= b < cache.rows && assign[b].Some?
        ensures book.StreamOf(assign[b].value) == Stream([], None) && decided[assign[b].value] == []
      {
        QueuedIsFresh(assign[b].value);
      }
      forall r | nextReq <= r < next
        ensures Some(r) in assign
      {
        QueueIsGiven(assign, next, r);
      }
      forall r | 0 <= r < |book.requests| && Some(r) !in assign
        ensures Untouched(r, assign, next)
      {
        StaysUntouched(r, assign, next);
      }
    }

    lemma QueueIsGiven(assign: seq<Option<nat>>, next: nat, r: nat)
      requires InOrder(assign, nextReq, next) && nextReq <= r < next
      ensures Some(r) in assign
    {
      GivenHits(assign, nextReq, |assign|, r);
    }

    lemma QueuedIsFresh(r: nat)
      requires LoopOk() && nextReq <= r < |book.requests|
      ensures book.StreamOf(r) == Stream([], None) && decided[r] == []
    {
      assert RequestOk(r);
    }

    lemma StaysUntouched(r: nat, assign: seq<Option<nat>>, next: nat)
      requires LoopOk() && |assign| == cache.rows && nextReq <= next && r < |book.requests|
      requires nextReq <= r < next ==> Some(r) in assign
      requires forall b :: 0 <= b < cache.rows && assign[b].Some? ==> book.done[b]
      requires Some(r) !in assign
      ensures Untouched(r, assign, next)
    {
      hide Tracked;
      assert RequestOk(r);
    }

    lemma OverrunBound(assign: seq<Option<nat>>)
      requires LoopOk() && refill && |assign| == cache.rows && Overruns(assign)
      ensures cache.cap < 2 * promptLen + book.maxNew + 3
    {
      var b :| 0 <= b < cache.rows && assign[b].None? && cache.offsets[b] + promptLen > cache.cap;
      assert RangeOk(b);
    }

    lemma NextIsFresh()
      requires LoopOk()
      ensures nextReq < |book.requests| ==> book.finish[nextReq].None?
    {
      assert nextReq < |book.requests| ==> RequestOk(nextReq) && book.StreamOf(nextReq) == Stream([], None);
    }

    lemma ChosenReady(assign: seq<Option<nat>>, next: nat)
      requires LoopOk() && refill && pending == None && Moved() && Enlisted() && nextReq < |book.requests|
      requires exists b :: 0 <= b < nReal && book.done[b]
      requires |assign| == cache.rows && TakesQueue(assign, book.done, nReal, |book.requests|, nextReq, next)
      ensures Admissible(assign, next) && Logged() && InOrder(assign, |register.admissions|, next)
      ensures nextReq < next && book.finish[nextReq].None?
      ensures forall b :: 0 <= b < nReal && assign[b].None? ==> Placed(b)
      ensures forall b :: 0 <= b < cache.rows ==> RangeOk(b) && SlotOk(b, [], RowAt(b))
      ensures forall b :: 0 <= b < cache.rows && book.slotRequest[b].Some? ==> book.slotRequest[b].value < nextReq
      ensures Overruns(assign) ==> cache.cap < 2 * promptLen + book.maxNew + 3 && 1 < cache.rows
      ensures promptLen + promptLen >= cache.cap && !Overruns(assign) ==>
                next == nextReq + nReal == nextReq + cache.rows
    {
      hide Standing, Tracked, RangeOk, RequestOk, Admissible, TakesQueue, Given, InOrder, Placed;
      ChosenAdmissible(assign, next);
      TakesAll(assign, book.done, nReal, |book.requests|, nextReq, next);
      if Overruns(assign) {
        OverrunBound(assign);
      }
      assert forall b :: 0 <= b < cache.rows ==> SlotOk(b, Undrained(b), RowAt(b));
      NextIsFresh();
    }

    /** What a refill run keeps besides: its log, every pass in order and within the capacity. Where a
        row that has been through a cycle leaves no room for a prompt, only whole cohorts get in. */
    ghost predicate RefillOk()
      requires 1 <= nReal <= |book.slotRequest|
      reads this`nextReq, cache`cap, book`slotRequest, register
    {
      refill ==>
        && Enlisted() && AllTakeQueue(register.passes) && AllFit(register.passes, cache.cap)
        && 1 <= |register.passes|
        && (promptLen + promptLen >= cache.cap ==>
              (|register.passes| == 1 || nReal == cache.rows) && nextReq == |register.passes| * nReal)
    }

    /** The last pass, and no other, did not fit. */
    ghost predicate LastPassOverran()
      reads register`passes, cache`cap
    {
      && AllTakeQueue(register.passes) && register.passes != []
      && AllFit(register.passes[..|register.passes| - 1], cache.cap)
      && !register.passes[|register.passes| - 1].Fits(promptLen, cache.cap)
    }

    /** The slot serves what it served, or that is finished and the slot serves a new request. */
    ghost predicate TookTurn(b: nat, before: Option<nat>, from: nat)
      requires b < |book.slotRequest| && b < |book.done|
      reads this`nextReq, book
    {
      book.slotRequest[b] != before ==>
        && before.Some? && before.value < |book.finish| && book.finish[before.value].Some?
        && !book.done[b] && book.slotRequest[b].Some? && from <= book.slotRequest[b].value < nextReq
    }

    /** One more pass: in order, and the run goes on if and only if it fits. */
    lemma PassAdded(before: seq<Pass>, from: nat)
      requires refill && 1 <= nReal <= |book.slotRequest|
      requires AllTakeQueue(before) && AllFit(before, cache.cap)
      requires before < register.passes && |register.passes| == |before| + 1
      requires PassTakesQueue(register.passes[|before|])
      requires register.passes[|before|].Fits(promptLen, cache.cap) ==>
                 && Enlisted()
                 && (promptLen + promptLen >= cache.cap ==>
                       from == |before| * nReal && nextReq == from + nReal && nReal == cache.rows)
      ensures if register.passes[|before|].Fits(promptLen, cache.cap) then RefillOk() else LastPassOverran()
    {
      hide PassTakesQueue, Enlisted;
      assert (|before| + 1) * nReal == |before| * nReal + nReal;
    }

    lemma DoneIsFinished()
      requires Wired()
      ensures forall b :: 0 <= b < cache.rows && book.done[b] && book.slotRequest[b].Some? ==>
                book.slotRequest[b].value < |book.finish| && book.finish[book.slotRequest[b].value].Some?
    {
    }

    /** What an admission pass leaves: no finished real slot waits while a request is queued, and only
        slots that were finished serve another request. */
    ghost predicate Refilled(before: seq<Option<nat>>, from: nat)
      requires |before| == |book.slotRequest| == |book.done| && nReal <= |before|
      reads this`nextReq, book
    {
      && from < nextReq <= |book.requests|
      && (|book.finish| == |book.requests| ==> book.finish[from].None?)
      && (nextReq == |book.requests| || forall b :: 0 <= b < nReal ==> !book.done[b])
      && forall b :: 0 <= b < |before| ==> TookTurn(b, before[b], from)
    }

    lemma PassRefills(assign: seq<Option<nat>>, done: seq<bool>, before: seq<Option<nat>>, from: nat)
      requires |done| == |before| == |book.slotRequest| == |book.done| && nReal <= |done|
      requires TakesQueue(assign, done, nReal, |book.requests|, from, nextReq)
      requires from < |book.requests| && exists b :: 0 <= b < nReal && done[b]
      requires |book.finish| == |book.requests| ==> book.finish[from].None?
      requires forall b :: 0 <= b < |done| ==> Served(b, assign[b], before[b], done[b])
      requires forall b :: 0 <= b < nReal ==> before[b].Some?
      requires forall b :: 0 <= b < |done| && done[b] && before[b].Some? ==>
                 before[b].value < |book.finish| && book.finish[before[b].value].Some?
      ensures Refilled(before, from)
    {
      TakesAll(assign, done, nReal, |book.requests|, from, nextReq);
      hide TakesQueue, InOrder;
      forall b | 0 <= b < |done|
        ensures TookTurn(b, before[b], from)
        ensures nextReq == |book.requests| || b >= nReal || !book.done[b]
      {
        assert Served(b, assign[b], before[b], done[b]);
      }
    }

    method AdmitIntoFinished() returns (ok: bool)
      requires LoopOk() && refill && pending == None && Moved() && RefillOk()
      requires nextReq < |book.requests| && exists b :: 0 <= b < nReal && book.done[b]
      modifies this`logitsLast, this`replayFlags, this`nextReq, register
      modifies book`slotRequest, book`done, cache`kv, cache`offsets, cache`rec, cache`bound
      ensures Wired() && cache.cap == old(cache.cap)
      ensures |register.passes| == |old(register.passes)| + 1 && old(register.passes) < register.passes
      ensures var pass := register.passes[|old(register.passes)|];
              && pass.done == old(book.done) && pass.from == old(nextReq) && pass.offsets == old(cache.offsets)
              && PassTakesQueue(pass) && ok == pass.Fits(promptLen, cache.cap)
              && (ok ==> forall b :: 0 <= b < cache.rows ==>
                           Served(b, pass.assign[b], old(book.slotRequest[b]), old(book.done[b])))
      ensures if ok then LoopOk() && pending == None && RefillOk() && old(register.admissions) <= register.admissions
              else LastPassOverran()
      ensures ok ==> Refilled(old(book.slotRequest), old(nextReq))
      ensures !ok ==> cache.cap < 2 * promptLen + book.maxNew + 3 && 1 < cache.rows
    {
      hide Standing, Tracked, RangeOk, RequestOk, SlotOk, Overruns, Admissible, TakesQueue, Given, InOrder, Placed;
      hide Logged;
      hide AllTakeQueue, AllFit;
      var assign, next := ChooseAssign();
      ChosenReady(assign, next);
      DoneIsFinished();
      ghost var done, slotRequest, from, before := book.done, book.slotRequest, nextReq, register.passes;
      hide LoopOk, Kept, RefillOk, LastPassOverran, Refilled, Served;
      ok := AdmitRows(assign, next);
      PassAdded(before, from);
      if ok {
        PassRefills(assign, done, slotRequest, from);
      }
    }

    /** With a request queued and a finished real slot, an admission is due. */
    predicate PassDue()
      requires nReal <= |book.done|
      reads this`nextReq, book`done
    {
      nextReq < |book.requests| && exists b :: 0 <= b < nReal && book.done[b]
    }

    /** `admit_fn`: with requests queued and a slot finished, drain, then admit into every finished
        slot. A slot the drain finishes is admitted too; a slot with commits still held never is. */
    method AdmitQueued() returns (ok: bool)
      requires LoopOk() && refill && Moved() && RefillOk()
      modifies this`logitsLast, this`replayFlags, this`nextReq, this`pending, register
      modifies book`tokens, book`finish, book`slotRequest, book`done, cache`kv, cache`offsets, cache`rec, cache`bound
      ensures Wired() && cache.cap == old(cache.cap)
      ensures if ok then LoopOk() && RefillOk() && old(register.admissions) <= register.admissions
              else LastPassOverran()
      ensures |register.passes| == |old(register.passes)| + if old(PassDue()) then 1 else 0
      ensures old(register.passes) <= register.passes
      ensures ok && old(PassDue()) ==> Refilled(old(book.slotRequest), old(nextReq))
      ensures !old(PassDue()) ==>
                && ok && nextReq == old(nextReq) && book.done == old(book.done)
                && book.slotRequest == old(book.slotRequest)
      ensures forall r :: 0 <= r < |book.requests| && old(book.finish[r].Some?) ==> book.finish[r].Some?
      ensures !ok ==> cache.cap < 2 * promptLen + book.maxNew + 3 && 1 < cache.rows && old(nextReq) < |book.requests|
    {
      hide Standing, Tracked, RangeOk, RequestOk, SlotOk, RefillOk, PassTakesQueue, Refilled, LastPassOverran, Served;
      ok := true;
      if nextReq >= |book.requests| || !Any(book.done[..nReal]) {
        return;
      }
      FlushAtTop();
      ok := AdmitIntoFinished();
    }

    /** Draining with no cycle in flight. */
    method FlushAtTop()
      requires LoopOk()
      modifies this`pending, book`tokens, book`finish, book`done
      ensures LoopOk() && pending == None
      ensures forall r :: 0 <= r < |book.requests| && old(book.finish[r].Some?) ==> book.finish[r].Some?
      ensures forall b :: 0 <= b < cache.rows && old(book.done[b]) ==> book.done[b]
    {
      hide Standing, Tracked;
      forall b | 0 <= b < cache.rows
        ensures Holds(b)
      {
        assert SlotOk(b, Undrained(b), RowAt(b));
        if book.Live(b) {
          var r := book.slotRequest[b].value;
          assert Undrained(b) + [] == Undrained(b);
          StandingHolds(m, book.requests[r], book.tokens[r], Undrained(b), [], decided[r], RowAt(b));
        }
      }
      Flush();
      forall b | 0 <= b < cache.rows
        ensures SlotOk(b, [], RowAt(b)) && RangeOk(b)
      {
        assert old(SlotOk(b, Undrained(b), RowAt(b))) && old(RangeOk(b));
        if book.Live(b) {
          var r := book.slotRequest[b].value;
          assert old(Undrained(b)) + [] == old(Undrained(b));
          StandingHolds(m, book.requests[r], old(book.tokens[r]), old(Undrained(b)), [], decided[r], RowAt(b));
        }
      }
    }

    /* ---- how a run starts ---- */

    /** After the first prefill: nothing is decided, and slot b has request b. Without refill the real
        rows already stand right after their prompts; a refill run has prefilled dummy rows only. */
    ghost predicate AtStart()
      reads this, cache, book, register
    {
      && Wired() && pending == None && cycles == 0 && nextReq == nReal && register.admissions == []
      && register.passes == []
      && (forall b :: 0 <= b < cache.rows ==>
            && cache.offsets[b] == promptLen && !replayFlags[b]
            && book.slotRequest[b] == if b < nReal then Some(b) else None)
      && (forall r :: 0 <= r < |book.requests| ==> book.finish[r] == None && book.tokens[r] == [] && decided[r] == [])
      && (!refill ==> |book.requests| == nReal && cache.bound == promptLen)
      && (!refill ==> forall b :: 0 <= b < nReal ==> Standing(m, book.requests[b], [], [], [], RowAt(b)))
    }

    /** Without refill the run starts as it is; otherwise the initial cohort enters through the same
        admission pass as every queued request. */
    method Enter() returns (ok: bool)
      requires AtStart()
      modifies this`logitsLast, this`replayFlags, this`nextReq, register, book`slotRequest, book`done
      modifies cache`kv, cache`offsets, cache`rec, cache`bound
      ensures Wired() && cache.cap == old(cache.cap)
      ensures ok ==> LoopOk() && pending == None && cycles == 0 && nextReq == nReal
      ensures !ok ==> refill && cache.cap < 2 * promptLen + book.maxNew + 3
      ensures ok <==> !refill || cache.rows == nReal || 2 * promptLen <= cache.cap
      ensures if ok then RefillOk() else LastPassOverran()
      ensures ok && refill ==>
                |register.admissions| == nReal && forall b :: 0 <= b < nReal ==> register.admissions[b] == (b, b)
      ensures |register.passes| == if refill then 1 else 0
    {
      ok := true;
      if refill {
        ok := EnterCohort();
      } else {
        EnterAsPrefilled();
      }
    }

    method EnterCohort() returns (ok: bool)
      requires AtStart() && refill
      modifies this`logitsLast, this`replayFlags, this`nextReq, register, book`slotRequest, book`done
      modifies cache`kv, cache`offsets, cache`rec, cache`bound
      ensures Wired() && cache.cap == old(cache.cap)
      ensures ok ==> LoopOk() && pending == None && nextReq == nReal && Enlisted()
      ensures ok ==> |register.admissions| == nReal && forall b :: 0 <= b < nReal ==> register.admissions[b] == (b, b)
      ensures |register.passes| == 1 && ok == register.passes[0].Fits(promptLen, cache.cap)
      ensures ok == (cache.rows == nReal || 2 * promptLen <= cache.cap)
    {
      hide Standing, Tracked, LoopOk, RangeOk, SlotOk;
      var n, real0 := cache.rows, nReal;
      var assign := seq(n, b requires 0 <= b < n => if b < real0 then Some(b) else None);
      FirstPass(assign);
      ok := AdmitRows(assign, nReal);
      forall b | ok && 0 <= b < nReal
        ensures register.admissions[b] == (b, b)
      {
        assert Placed(b) && Served(b, assign[b], old(book.slotRequest[b]), old(book.done[b]));
      }
    }

    lemma FirstPass(assign: seq<Option<nat>>)
      requires AtStart() && refill && |assign| == cache.rows
      requires forall b :: 0 <= b < cache.rows ==> assign[b] == if b < nReal then Some(b) else None
      ensures Admissible(assign, nReal) && Logged() && InOrder(assign, |register.admissions|, nReal)
      ensures forall b :: 0 <= b < cache.rows ==> RangeOk(b) && (assign[b].None? ==> SlotOk(b, [], RowAt(b)))
      ensures Overruns(assign) <==> nReal < cache.rows && 2 * promptLen > cache.cap
    {
      hide Standing, Tracked, Given, InOrder;
      FirstInOrder(assign, nReal);
      assert forall r :: 0 <= r < nReal ==> assign[r] == Some(r);
      assert nReal < cache.rows ==> assign[nReal].None?;
    }

    lemma EnterAsPrefilled()
      requires AtStart() && !refill
      ensures LoopOk() && Enlisted()
    {
      hide Standing, Tracked;
      forall b | 0 <= b < cache.rows
        ensures SlotOk(b, Undrained(b), RowAt(b)) && RangeOk(b)
      {
        if b < nReal {
          assert Standing(m, book.requests[b], [], [], [], RowAt(b));
        }
      }
      forall r | 0 <= r < |book.requests|
        ensures RequestOk(r)
      {
        FreshTracked(m, book.requests[r], book.stop, book.maxNew);
        assert book.slotRequest[r] == Some(r);
      }
    }

    /* ---- the whole run ---- */

    /** The requests were admitted in order, each to one slot, the first ones to their own. */
    ghost predicate AdmittedAll()
      reads register`admissions
    {
      && Logged() && |register.admissions| == |book.requests|
      && nReal <= |book.requests| && forall b :: 0 <= b < nReal ==> register.admissions[b] == (b, b)
    }

    ghost predicate Reports(streams: seq<Stream>)
      reads book
    {
      |streams| == |book.tokens| == |book.finish| && forall r :: 0 <= r < |streams| ==> streams[r] == book.StreamOf(r)
    }

    predicate More()
      reads this, book
    {
      (refill && nextReq < |book.requests|) || !book.AllDone()
    }

    function MaxCycles(): nat
      reads this, book
    {
      if refill then (book.maxNew + 4) * (if |book.requests| > 1 then |book.requests| else 1)
      else match lane
           case Foldin => book.maxNew + 4
           case Plain => book.maxNew + 2
           case Pipelined => book.maxNew + 3
           case Serial => book.maxNew + 1
    }

    ghost function Slacks(): nat
      requires Wired()
      reads this, cache, book
    {
      TotalSlack(book.finish, decided, book.maxNew)
    }

    /** The cycle cap is out of reach: in a refill run every cycle uses up slack, in a plain run every
        unfinished request has decided a token per cycle. */
    ghost predicate Paced()
      requires Wired()
      reads this, cache, book
    {
      && (refill ==> cycles + Slacks() <= |book.requests| * (book.maxNew + 1))
      && (!refill ==> nextReq == |book.requests|)
      && (!refill ==> forall r :: 0 <= r < |book.requests| && book.finish[r].None? ==> cycles <= |decided[r]|)
    }

    /** A cycle with some admitted request unfinished. */
    method PacedStep(ghost r: nat)
      requires LoopOk() && Paced() && r < nextReq && book.finish[r].None?
      modifies this`decided, this`pending, this`replayFlags, this`logitsLast, this`replayA, this`replayB
      modifies this`prevSnapshot, this`cycles
      modifies cache`kv, cache`cap, cache`offsets, cache`rec, cache`bound, book`tokens, book`finish, book`done
      ensures LoopOk() && Paced() && pending.Some? && Moved() && nextReq == old(nextReq) && cycles == old(cycles) + 1
      ensures Grows(old(cache.cap))
      ensures old(RefillOk()) ==> RefillOk()
    {
      hide Standing, Tracked, RangeOk, RequestOk, SlotOk;
      ghost var f0, d0 := book.finish, decided;
      Step();
      TotalSlackDrops(f0, d0, book.finish, decided, book.maxNew, r);
    }

    /** An unfinished run has an unfinished admitted request, or everything admitted is finished and
        requests are queued. */
    lemma Unfinished()
      requires LoopOk() && !book.AllDone()
      ensures exists r :: 0 <= r < nextReq && book.finish[r].None?
    {
      var b :| 0 <= b < book.slots && !book.done[b];
      assert book.finish[book.slotRequest[b].value].None?;
    }

    lemma FinishedIsSolo()
      requires LoopOk() && !More() && (!refill ==> nextReq == |book.requests|)
      ensures forall r :: 0 <= r < |book.requests| ==>
                SoloResult(m, book.requests[r], book.stop, book.maxNew, book.StreamOf(r))
    {
      forall r | 0 <= r < |book.requests|
        ensures SoloResult(m, book.requests[r], book.stop, book.maxNew, book.StreamOf(r))
      {
        assert RequestOk(r);
        if !book.Unserved(r) {
          assert book.done[ServerOf(r)];
        }
      }
    }

    /** Work is left only while the cap is not reached. */
    lemma CapNeverBinds()
      requires LoopOk() && Paced() && More() && (lane.Serial? ==> pending == None)
      ensures cycles < MaxCycles()
    {
      var n, w := |book.requests|, book.maxNew;
      if refill {
        if book.AllDone() {
          NextIsFresh();
          TotalSlackPositive(book.finish, decided, w, nextReq);
        } else {
          Unfinished();
          var r :| 0 <= r < nextReq && book.finish[r].None?;
          TotalSlackPositive(book.finish, decided, w, r);
        }
        assert n * (w + 1) <= n * (w + 4);
        assert (w + 4) * n == n * (w + 4);
      } else {
        Unfinished();
        var r :| 0 <= r < nextReq && book.finish[r].None?;
        assert RequestOk(r);
        var b := ServerOf(r);
        assert SlotOk(b, Undrained(b), RowAt(b));
      }
    }

    /** Admission neither adds slack nor leaves a run with work without an unfinished request. */
    method AdmitPaced() returns (ok: bool, ghost r: nat)
      requires LoopOk() && Paced() && More() && refill && Moved() && RefillOk()
      modifies this`logitsLast, this`replayFlags, this`nextReq, this`pending, register
      modifies book`tokens, book`finish, book`slotRequest, book`done, cache`kv, cache`offsets, cache`rec, cache`bound
      ensures Wired() && cache.cap == old(cache.cap)
      ensures old(register.passes) <= register.passes
      ensures |register.passes| == |old(register.passes)| + (if old(PassDue()) then 1 else 0)
      ensures ok ==> LoopOk() && Paced() && r < nextReq && book.finish[r].None?
      ensures ok ==> RefillOk() && old(register.admissions) <= register.admissions
      ensures !ok ==>
                && cache.cap < 2 * promptLen + book.maxNew + 3 && 1 < cache.rows
                && old(nextReq) < |book.requests| && LastPassOverran()
    {
      hide Standing, Tracked, RangeOk, RequestOk, SlotOk, RefillOk, LastPassOverran, TookTurn;
      ghost var f0 := book.finish;
      if book.AllDone() {
        QueuedSlotIsDone();
      }
      ok := AdmitQueued();
      r := old(nextReq);
      if ok {
        TotalSlackDrops(f0, decided, book.finish, decided, book.maxNew, 0);
        if r == nextReq {
          Unfinished();
          r :| 0 <= r < nextReq && book.finish[r].None?;
        }
      }
    }

    /** One iteration of the loop: admit what can be admitted, then run a cycle. */
    method Iterate() returns (ok: bool)
      requires LoopOk() && Paced() && More() && Moved() && RefillOk()
      modifies this`logitsLast, this`replayFlags, this`replayA, this`replayB, this`prevSnapshot
      modifies this`pending, this`nextReq, this`cycles, this`decided, register
      modifies book`tokens, book`finish, book`slotRequest, book`done
      modifies cache`kv, cache`cap, cache`offsets, cache`rec, cache`bound
      ensures Wired() && Grows(old(cache.cap))
      ensures old(register.passes) <= register.passes
      ensures |register.passes| == |old(register.passes)| + (if refill && old(PassDue()) then 1 else 0)
      ensures ok ==> LoopOk() && Paced() && pending.Some? && cycles == old(cycles) + 1 && Moved()
      ensures ok ==>
                RefillOk() && old(register.admissions) <= register.admissions && (!refill ==> nextReq == old(nextReq))
      ensures !ok ==> refill && cache.cap < 2 * promptLen + book.maxNew + 3 && 1 < cache.rows
      ensures !ok ==> old(nextReq) < |book.requests| && LastPassOverran()
    {
      hide Standing, Tracked, RangeOk, RequestOk, SlotOk, Paced, RefillOk, LastPassOverran;
      ok := true;
      ghost var r;
      if refill {
        ok, r := AdmitPaced();
        if !ok {
          return;
        }
      } else {
        Unfinished();
        r :| 0 <= r < nextReq && book.finish[r].None?;
      }
      PacedStep(r);
    }

    lemma FreshIsPaced()
      requires Wired() && cycles == 0 && (!refill ==> nextReq == |book.requests|)
      requires forall r :: 0 <= r < |book.requests| ==> book.finish[r] == None && decided[r] == []
      ensures Paced()
    {
      TotalSlackFresh(book.finish, decided, book.maxNew);
    }

    lemma QueuedSlotIsDone()
      requires LoopOk() && book.AllDone()
      ensures exists b :: 0 <= b < nReal && book.done[b]
    {
      assert book.done[0];
    }

    /** `_run_foldin_loop`: a prologue cycle, then admit / cycle until no work is left, and a last
        drain. Refuses only when an admission prefill would be written past the capacity. */
    method Run() returns (ok: bool)
      requires LoopOk() && !lane.Serial? && pending == None && cycles == 0 && (!refill ==> nextReq == |book.requests|)
      requires forall r :: 0 <= r < |book.requests| ==> book.finish[r] == None && decided[r] == []
      requires RefillOk()
      modifies this`logitsLast, this`replayFlags, this`replayA, this`replayB, this`prevSnapshot
      modifies this`pending, this`nextReq, this`cycles, this`decided, register
      modifies book`tokens, book`finish, book`slotRequest, book`done
      modifies cache`kv, cache`cap, cache`offsets, cache`rec, cache`bound
      ensures Wired() && Grows(old(cache.cap)) && old(register.passes) <= register.passes
      ensures ok ==> nextReq == |book.requests| && RefillOk() && old(register.admissions) <= register.admissions
      ensures ok ==> forall r :: 0 <= r < |book.requests| ==>
                SoloResult(m, book.requests[r], book.stop, book.maxNew, book.StreamOf(r))
      ensures !ok ==> refill && cache.cap < 2 * promptLen + book.maxNew + 3 && 1 < cache.rows
      ensures !ok ==> nReal < |book.requests| && LastPassOverran()
    {
      hide Standing, Tracked, RangeOk, RequestOk, SlotOk, SoloResult, Paced, Slacks, RefillOk, LastPassOverran;
      ok := true;
      FreshIsPaced();
      PacedStep(0);
      while More() && cycles < MaxCycles()
        invariant LoopOk() && Paced() && RefillOk() && Moved() && Grows(old(cache.cap))
        invariant !refill ==> nextReq == |book.requests|
        invariant old(register.passes) <= register.passes && old(register.admissions) <= register.admissions
        decreases MaxCycles() - cycles
      {
        ok := Iterate();
        if !ok {
          return;
        }
      }
      if More() {
        CapNeverBinds();
      }
      FlushAtTop();
      FinishedIsSolo();
    }

    /** The serial baseline: the same repair cycle, its commits drained at once. */
    method RunSerial()
      requires LoopOk() && lane.Serial? && pending == None && cycles == 0 && nextReq == |book.requests|
      requires forall r :: 0 <= r < |book.requests| ==> book.finish[r] == None && decided[r] == []
      modifies this`logitsLast, this`replayFlags, this`replayA, this`replayB, this`prevSnapshot
      modifies this`pending, this`cycles, this`decided, book`tokens, book`finish, book`done
      modifies cache`kv, cache`cap, cache`offsets, cache`rec, cache`bound
      ensures Wired()
      ensures forall r :: 0 <= r < |book.requests| ==>
                SoloResult(m, book.requests[r], book.stop, book.maxNew, book.StreamOf(r))
    {
      hide Standing, Tracked, RangeOk, RequestOk, SlotOk, SoloResult;
      while More() && cycles < MaxCycles()
        invariant LoopOk() && Paced() && pending == None
        decreases MaxCycles() - cycles
      {
        Unfinished();
        ghost var r :| 0 <= r < nextReq && book.finish[r].None?;
        PacedStep(r);
        FlushAtTop();
      }
      if More() {
        CapNeverBinds();
      }
      FinishedIsSolo();
    }
  }
}
