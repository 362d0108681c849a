/** `generate_greedy_batched`: every loop reports each request's solo greedy result. */
module BatchedDecode {
  import opened Wrappers
  import opened TargetModel
  import opened Ledger
  import opened RaggedCache
  import opened FoldinRow
  import opened FoldinLoop

  const STOCK_STEP: nat := 256
  const REFILL_STEP: nat := 32
  const LAG_MARGIN: nat := 16

  /** A call is refused as invalid, an admission prefill would have been written past the physical
      capacity, or every request is reported. */
  datatype Outcome = Invalid | Overran | Served(streams: seq<Stream>)

  predicate SameLength(prompts: seq<seq<Token>>, n: nat) {
    forall i :: 0 <= i < |prompts| ==> |prompts[i]| == n
  }

  predicate ValidCall(prompts: seq<seq<Token>>, maxNew: nat, cohort: Option<nat>, queue: Option<seq<seq<Token>>>,
                      lane: Lane) {
    && prompts != [] && maxNew >= 1
    && |prompts[0]| >= 1 && SameLength(prompts, |prompts[0]|)
    && (cohort.Some? ==> |prompts| <= cohort.value)
    && (queue.Some? ==> (lane.Foldin? || lane.Plain?) && cohort.Some? && SameLength(queue.value, |prompts[0]|))
  }

  function Requests(prompts: seq<seq<Token>>, queue: Option<seq<seq<Token>>>): seq<seq<Token>> {
    prompts + if queue.Some? then queue.value else []
  }

  /** The physical KV capacity of a refill run: the stock prefill buffer, or the frozen capacity
      rounded up to the refill step if that is more. */
  function RefillCapacity(promptLen: nat, maxNew: nat): nat {
    var frozen, stock := promptLen + maxNew + LAG_MARGIN, RoundUp(promptLen, STOCK_STEP);
    if frozen <= stock then stock else RoundUp(frozen, REFILL_STEP)
  }

  /** Room for a neighbour's whole admission window above the furthest a row can stand. */
  predicate AdmissionsFit(promptLen: nat, maxNew: nat) {
    2 * promptLen + maxNew + 3 <= RefillCapacity(promptLen, maxNew)
  }

  /** Room for the initial admission of a cohort with pad rows: a pad row already stands at the prompt
      length when the others are prefilled. */
  predicate PaddedEntryFits(promptLen: nat, maxNew: nat) {
    2 * promptLen <= RefillCapacity(promptLen, maxNew)
  }

  /** Which prompts are short enough that no admission can be written past the frozen capacity. */
  lemma AdmissionRoom(promptLen: nat, maxNew: nat)
    ensures promptLen + 3 <= LAG_MARGIN ==> AdmissionsFit(promptLen, maxNew)
    ensures promptLen >= STOCK_STEP && promptLen >= maxNew + LAG_MARGIN + REFILL_STEP ==>
              !PaddedEntryFits(promptLen, maxNew)
  {
    RoundUpBounds(promptLen, STOCK_STEP);
    RoundUpBounds(promptLen + maxNew + LAG_MARGIN, REFILL_STEP);
  }

  /** The capacity has room for a prompt, its new tokens and a margin of 16: the least multiple of 256
      for the prompt alone if that is enough, and else the least multiple of 32 that is. */
  lemma CapacityIs(promptLen: nat, maxNew: nat)
    ensures var cap := RefillCapacity(promptLen, maxNew);
            && promptLen + maxNew + 16 <= cap
            && (|| (cap % 256 == 0 && promptLen <= cap < promptLen + 256)
                || (cap % 32 == 0 && cap < promptLen + maxNew + 16 + 32))
  {
    RoundUpBounds(promptLen, STOCK_STEP);
    RoundUpBounds(promptLen + maxNew + LAG_MARGIN, REFILL_STEP);
  }

  /** A 1000-token prompt with 100 new tokens, in a cohort wider than its first requests, is admitted
      into 1120 positions although the pad rows are written up to position 2000. */
  lemma PaddedEntryOverruns()
    ensures RefillCapacity(1000, 100) == 1120 && !PaddedEntryFits(1000, 100) && !AdmissionsFit(1000, 100)
  {
  }

  /** Calls whose admissions all fit, whatever the model decodes: there is room above the furthest a row
      can stand, or no pad row and nobody waits, or no other row. */
  predicate NeverOverruns(promptLen: nat, maxNew: nat, nReal: nat, cohort: nat, queued: nat) {
    || AdmissionsFit(promptLen, maxNew)
    || cohort == 1
    || (queued == 0 && (nReal == cohort || PaddedEntryFits(promptLen, maxNew)))
  }

  /** Calls of which some admission cannot fit: pad rows are in the way of the first one, or a row that
      has been through a cycle is in the way of every other and only whole cohorts get in. */
  predicate AlwaysOverruns(promptLen: nat, maxNew: nat, nReal: nat, cohort: nat, queued: nat) {
    || (nReal < cohort && !PaddedEntryFits(promptLen, maxNew))
    || (&& RefillCapacity(promptLen, maxNew) <= 2 * promptLen
        && cohort != 0 && queued != 0 && (nReal < cohort || queued % cohort != 0))
  }

  /** With nobody waiting the two conditions leave nothing open, and where the second capacity bound
      holds only queues of whole cohorts stay open. */
  lemma OverrunDecided(promptLen: nat, maxNew: nat, nReal: nat, cohort: nat, queued: nat)
    requires 1 <= nReal <= cohort
    ensures NeverOverruns(promptLen, maxNew, nReal, cohort, queued) ==>
              !AlwaysOverruns(promptLen, maxNew, nReal, cohort, queued)
    ensures queued == 0 || cohort == 1 ==>
              || NeverOverruns(promptLen, maxNew, nReal, cohort, queued)
              || AlwaysOverruns(promptLen, maxNew, nReal, cohort, queued)
    ensures RefillCapacity(promptLen, maxNew) <= 2 * promptLen && (nReal < cohort || queued % cohort != 0) ==>
              || NeverOverruns(promptLen, maxNew, nReal, cohort, queued)
              || AlwaysOverruns(promptLen, maxNew, nReal, cohort, queued)
  {
    hide RefillCapacity;
  }

  lemma WholeCohorts(passes: nat, cohort: nat, queued: nat)
    requires 1 <= cohort && 1 <= passes && cohort + queued == passes * cohort
    ensures queued % cohort == 0
  {
    assert queued == (passes - 1) * cohort;
    ModMultiple(passes - 1, cohort);
  }

  lemma ModMultiple(k: nat, n: nat)
    requires n >= 1
    ensures (k * n) % n == 0
  {
    var q, r := (k * n) / n, (k * n) % n;
    assert k * n == q * n + r;
    assert (k - q) * n == r;
    MultipleIsFar(k - q, n);
  }

  lemma MultipleIsFar(d: int, n: nat)
    ensures d >= 1 ==> d * n >= n
    ensures d <= -1 ==> d * n + n <= 0
  {
  }

  /** What a run reports about its passes decides both conditions. */
  lemma RunDecides(promptLen: nat, maxNew: nat, nReal: nat, cohort: nat, queued: nat, passes: nat, ok: bool)
    requires 1 <= nReal <= cohort
    requires !ok ==>
               && !AdmissionsFit(promptLen, maxNew)
               && (|| (nReal < cohort && !PaddedEntryFits(promptLen, maxNew))
                   || (0 < queued && 1 < cohort))
    requires ok && nReal < cohort ==> PaddedEntryFits(promptLen, maxNew)
    requires ok && RefillCapacity(promptLen, maxNew) <= 2 * promptLen ==>
               1 <= passes && (passes == 1 || nReal == cohort) && nReal + queued == passes * nReal
    ensures NeverOverruns(promptLen, maxNew, nReal, cohort, queued) ==> ok
    ensures AlwaysOverruns(promptLen, maxNew, nReal, cohort, queued) ==> !ok
  {
    hide RefillCapacity;
    if ok && RefillCapacity(promptLen, maxNew) <= 2 * promptLen && nReal == cohort {
      WholeCohorts(passes, cohort, queued);
    }
  }

  ghost predicate AllSolo(m: Model, requests: seq<seq<Token>>, stop: set<Token>, maxNew: nat, streams: seq<Stream>) {
    && |streams| == |requests|
    && forall r :: 0 <= r < |requests| ==> requests[r] != [] && SoloResult(m, requests[r], stop, maxNew, streams[r])
  }

  /** Two runs that report solo results report the same streams. */
  lemma AllSoloAgree(m: Model, requests: seq<seq<Token>>, stop: set<Token>, maxNew: nat, a: seq<Stream>, b: seq<Stream>)
    requires AllSolo(m, requests, stop, maxNew, a) && AllSolo(m, requests, stop, maxNew, b)
    ensures a == b
  {
    forall r | 0 <= r < |requests|
      ensures a[r] == b[r]
    {
      SoloResultUnique(m, requests[r], stop, maxNew, a[r], b[r]);
    }
  }

  /** Each prompt has its stream, in the caller's order: the first requests and then the queue. */
  lemma SoloByOrigin(m: Model, prompts: seq<seq<Token>>, queue: Option<seq<seq<Token>>>, stop: set<Token>, maxNew: nat,
                     streams: seq<Stream>)
    requires AllSolo(m, Requests(prompts, queue), stop, maxNew, streams)
    ensures |streams| == |prompts| + if queue.Some? then |queue.value| else 0
    ensures forall b :: 0 <= b < |prompts| ==>
              prompts[b] != [] && SoloResult(m, prompts[b], stop, maxNew, streams[b])
    ensures queue.Some? ==> forall j :: 0 <= j < |queue.value| ==>
              queue.value[j] != [] && SoloResult(m, queue.value[j], stop, maxNew, streams[|prompts| + j])
  {
    hide SoloResult;
    var requests := Requests(prompts, queue);
    assert forall b :: 0 <= b < |prompts| ==> requests[b] == prompts[b];
    assert queue.Some? ==> forall j :: 0 <= j < |queue.value| ==> requests[|prompts| + j] == queue.value[j];
  }

  /** Serial repair, pipelined repair, fold-in replay or plain decode, the last two with or without a
      refill queue, for any drafter, any dummy rows and any mix of requests. */
  method GenerateGreedyBatched(m: Model, prompts: seq<seq<Token>>, maxNew: nat, stop: set<Token>, cohort: Option<nat>,
                               padId: Token, queue: Option<seq<seq<Token>>>, lane: Lane, useDraft: bool,
                               drafter: (nat, nat, Output, Token) -> Token)
    returns (out: Outcome, ghost loop: Loop?)
    ensures out.Invalid? <==>
              || prompts == [] || maxNew < 1 || |prompts[0]| < 1
              || (exists b :: 0 <= b < |prompts| && |prompts[b]| != |prompts[0]|)
              || (cohort.Some? && cohort.value < |prompts|)
              || (queue.Some? && (lane.Pipelined? || lane.Serial? || cohort.None?))
              || (queue.Some? && exists j :: 0 <= j < |queue.value| && |queue.value[j]| != |prompts[0]|)
    ensures out.Served? ==> |out.streams| == |prompts| + if queue.Some? then |queue.value| else 0
    ensures out.Served? ==> forall b :: 0 <= b < |prompts| ==>
              prompts[b] != [] && SoloResult(m, prompts[b], stop, maxNew, out.streams[b])
    ensures out.Served? && queue.Some? ==> forall j :: 0 <= j < |queue.value| ==>
              queue.value[j] != [] && SoloResult(m, queue.value[j], stop, maxNew, out.streams[|prompts| + j])
    ensures out.Overran? ==> queue.Some?
    ensures !out.Invalid? && queue.Some? ==>
              && (NeverOverruns(|prompts[0]|, maxNew, |prompts|, cohort.value, |queue.value|) ==> out.Served?)
              && (AlwaysOverruns(|prompts[0]|, maxNew, |prompts|, cohort.value, |queue.value|) ==> out.Overran?)
    ensures !out.Invalid? && queue.Some? ==> loop != null
    ensures !out.Invalid? && queue.Some? ==>
              && loop.promptLen == |prompts[0]| && loop.nReal == |prompts|
              && loop.cache.cap == RefillCapacity(|prompts[0]|, maxNew)
              && loop.AllTakeQueue(loop.register.passes)
              && var passes := loop.register.passes;
                 out.Served? <==>
                   forall k :: 0 <= k < |passes| ==>
                     forall b :: 0 <= b < |passes[k].assign| && b < |passes[k].offsets| && passes[k].assign[b].None? ==>
                       passes[k].offsets[b] + |prompts[0]| <= loop.cache.cap
    ensures !out.Invalid? && queue.Some? ==>
              && |loop.book.requests| == |prompts| + |queue.value|
              && (forall b :: 0 <= b < |prompts| ==> loop.book.requests[b] == prompts[b])
              && forall j :: 0 <= j < |queue.value| ==> loop.book.requests[|prompts| + j] == queue.value[j]
    ensures out.Served? && queue.Some? ==> loop.Reports(out.streams)
    ensures out.Served? && queue.Some? ==>
              && |loop.register.admissions| == |prompts| + |queue.value|
              && forall r :: 0 <= r < |loop.register.admissions| ==>
                   && loop.register.admissions[r].1 == r && loop.register.admissions[r].0 < |prompts|
                   && (r < |prompts| ==> loop.register.admissions[r].0 == r)
  {
    hide SoloResult, RefillCapacity, AllSolo, NeverOverruns, AlwaysOverruns;
    loop := null;
    if !ValidCall(prompts, maxNew, cohort, queue, lane) {
      return Invalid, null;
    }
    hide SameLength;
    var run := Prepare(m, prompts, maxNew, stop, cohort, padId, queue, lane, useDraft, drafter);
    loop := run;
    var streams := Drive(run);
    out := if streams.Some? then Served(streams.value) else Overran;
    if queue.Some? {
      RunDecides(|prompts[0]|, maxNew, |prompts|, cohort.value, |queue.value|, |run.register.passes|, streams.Some?);
    }
    if streams.Some? {
      SoloByOrigin(m, prompts, queue, stop, maxNew, streams.value);
    }
  }

  /** Enter the cohort, run its loop, report. */
  method Drive(loop: Loop) returns (streams: Option<seq<Stream>>)
    requires loop.AtStart() && (loop.refill ==> !loop.lane.Serial?)
    modifies loop, loop.book, loop.cache, loop.register
    ensures loop.refill ==> loop.cache.cap == old(loop.cache.cap)
    ensures streams.None? ==>
              loop.refill && loop.LastPassOverran() && loop.cache.cap < 2 * loop.promptLen + loop.book.maxNew + 3
    ensures streams.None? ==>
              || (loop.nReal < loop.cache.rows && loop.cache.cap < 2 * loop.promptLen)
              || (loop.nReal < |loop.book.requests| && 1 < loop.cache.rows)
    ensures streams.Some? ==> AllSolo(loop.m, loop.book.requests, loop.book.stop, loop.book.maxNew, streams.value)
    ensures streams.Some? && loop.refill ==>
              && loop.AdmittedAll() && loop.AllTakeQueue(loop.register.passes)
              && loop.AllFit(loop.register.passes, loop.cache.cap)
              && loop.Reports(streams.value)
    ensures streams.Some? && loop.refill && loop.nReal < loop.cache.rows ==> 2 * loop.promptLen <= loop.cache.cap
    ensures streams.Some? && loop.refill && loop.cache.cap <= 2 * loop.promptLen ==>
              (|loop.register.passes| == 1 || loop.nReal == loop.cache.rows)
              && |loop.book.requests| == |loop.register.passes| * loop.nReal
  {
    hide SoloResult;
    var ok := loop.Enter();
    if ok && loop.lane.Serial? {
      loop.RunSerial();
    } else if ok {
      ok := loop.Run();
    }
    if !ok {
      return None;
    }
    var book := loop.book;
    var n := |book.tokens|;
    streams := Some(seq(n, r requires 0 <= r < |book.tokens| && 0 <= r < |book.finish| reads book => book.StreamOf(r)));
  }

  /** The batched prefill of equal-length prompts into stock buffers. */
  method Prefill(m: Model, rows: seq<seq<Token>>, p: nat) returns (cache: Cache, logits: seq<Output>)
    requires p >= 1 && SameLength(rows, p)
    ensures fresh(cache) && cache.Valid() && cache.m == m && cache.rows == |rows| == |logits|
    ensures cache.cap == RoundUp(p, STOCK_STEP) && p <= cache.cap && cache.frozen == None && cache.bound == p
    ensures forall b :: 0 <= b < |rows| ==>
              cache.offsets[b] == p && Prefilled(m, rows[b], cache.cap, cache.kv[b], cache.rec[b], logits[b])
  {
    hide RunRow;
    RoundUpBounds(p, STOCK_STEP);
    cache := new Cache(m, |rows|, RoundUp(p, STOCK_STEP), STOCK_STEP);
    var outs := cache.Forward(rows, p);
    logits := seq(|rows|, b requires 0 <= b < |rows| && |outs| == |rows| && |outs[b]| == p => outs[b][p - 1]);
  }

  ghost predicate Prefilled(m: Model, prompt: seq<Token>, cap: nat, buf: seq<Entry>, rec: Recurrent, ll: Output)
    requires 1 <= |prompt| <= cap
  {
    var run := RunRow(m, Fill(cap, m.pad), 0, m.zero, prompt);
    buf == run.buf && rec == run.rec && ll == run.outs[|prompt| - 1]
  }

  lemma PrefilledStanding(m: Model, prompt: seq<Token>, cap: nat, r: Row)
    requires 1 <= |prompt| <= cap && Prefilled(m, prompt, cap, r.buf, r.rec, r.ll) && r.off == |prompt| && !r.replay
    ensures Standing(m, prompt, [], [], [], r)
  {
    hide Standing, RunRow;
    AdmittedStanding(m, prompt, Fill(cap, m.pad), RunRow(m, Fill(cap, m.pad), 0, m.zero, prompt), r);
  }

  method FreezeForRefill(cache: Cache, p: nat, maxNew: nat)
    requires cache.Valid() && cache.cap == RoundUp(p, STOCK_STEP)
    modifies cache`step, cache`kv, cache`cap, cache`frozen
    ensures cache.Valid() && cache.frozen.Some? && cache.cap == RefillCapacity(p, maxNew) >= p + maxNew + LAG_MARGIN
  {
    cache.SetStep(REFILL_STEP);
    RoundUpBounds(p + maxNew + LAG_MARGIN, REFILL_STEP);
    cache.Freeze(p + maxNew + LAG_MARGIN);
  }

  /** Prefill and conversion to the ragged lane. A refill run prefills dummy rows only and freezes the
      capacity. */
  method Prepare(m: Model, prompts: seq<seq<Token>>, maxNew: nat, stop: set<Token>, cohort: Option<nat>, padId: Token,
                 queue: Option<seq<seq<Token>>>, lane: Lane, useDraft: bool,
                 drafter: (nat, nat, Output, Token) -> Token)
    returns (loop: Loop)
    requires ValidCall(prompts, maxNew, cohort, queue, lane)
    ensures fresh(loop) && fresh(loop.book) && fresh(loop.cache) && fresh(loop.register)
    ensures loop.m == m && loop.book.requests == Requests(prompts, queue) && loop.book.stop == stop
    ensures loop.book.maxNew == maxNew
    ensures loop.AtStart() && loop.nReal == |prompts|
    ensures loop.refill == queue.Some? && loop.lane == lane && loop.promptLen == |prompts[0]|
    ensures loop.refill ==> loop.cache.cap == RefillCapacity(|prompts[0]|, maxNew)
    ensures cohort.Some? ==> loop.cache.rows == cohort.value
  {
    hide Standing, Prefilled, RefillCapacity;
    var p, nReal := |prompts[0]|, |prompts|;
    var batch := if cohort.Some? then cohort.value else nReal;
    var dummy := Fill(p, padId);
    var rows := seq(batch, b requires 0 <= b < batch => if queue.Some? || b >= nReal then dummy else prompts[b]);
    var cache, logits := Prefill(m, rows, p);
    var book := new Book(Requests(prompts, queue), stop, maxNew, batch, nReal);
    if queue.Some? {
      FreezeForRefill(cache, p, maxNew);
    }
    loop := new Loop(cache, book, p, nReal, padId, queue.Some?, lane, useDraft, drafter, logits, nReal);
    assert forall r :: 0 <= r < |book.requests| ==> |book.requests[r]| == p;
    assert loop.Wired();
    if queue.None? {
      forall b | 0 <= b < nReal
        ensures Standing(m, book.requests[b], [], [], [], loop.RowAt(b))
      {
        PrefilledStanding(m, prompts[b], cache.cap, loop.RowAt(b));
      }
    }
  }
}
