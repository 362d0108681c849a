/** Which tokens a request has been given, and when it is finished. */
module Ledger {
  import opened Wrappers
  import opened TargetModel

  datatype Finish = Stopped | Length | CycleCap
  datatype Stream = Stream(tokens: seq<Token>, finish: Option<Finish>)

  function CommitOne(stop: set<Token>, maxNew: nat, s: Stream, tok: Token): Stream {
    if s.finish.Some? then s
    else
      var toks := s.tokens + [tok];
      Stream(toks, if tok in stop then Some(Stopped) else if |toks| >= maxNew then Some(Length) else None)
  }

  function CommitAll(stop: set<Token>, maxNew: nat, s: Stream, toks: seq<Token>): Stream
    decreases |toks|
  {
    if toks == [] then s else CommitAll(stop, maxNew, CommitOne(stop, maxNew, s, toks[0]), toks[1..])
  }

  /** An unfinished stream: a stop-free greedy continuation shorter than the limit. */
  ghost predicate Open(m: Model, prompt: seq<Token>, stop: set<Token>, maxNew: nat, s: Stream)
    requires prompt != []
  {
    && s.finish.None?
    && |s.tokens| < maxNew
    && IsGreedy(m, prompt, s.tokens)
    && forall i :: 0 <= i < |s.tokens| ==> s.tokens[i] !in stop
  }

  /** What plain greedy decoding of the prompt alone reports: its continuation cut at the first
      stop token or at the length limit, whichever comes first. */
  ghost predicate SoloResult(m: Model, prompt: seq<Token>, stop: set<Token>, maxNew: nat, s: Stream)
    requires prompt != []
  {
    var n := |s.tokens|;
    && 1 <= n <= maxNew
    && IsGreedy(m, prompt, s.tokens)
    && (forall i :: 0 <= i < n - 1 ==> s.tokens[i] !in stop)
    && if s.tokens[n - 1] in stop then s.finish == Some(Stopped)
       else n == maxNew && s.finish == Some(Length)
  }

  /** An admitted request is open or finished with its solo result. */
  ghost predicate Tracked(m: Model, prompt: seq<Token>, stop: set<Token>, maxNew: nat, s: Stream)
    requires prompt != []
  {
    if s.finish.Some? then SoloResult(m, prompt, stop, maxNew, s) else Open(m, prompt, stop, maxNew, s)
  }

  /** Every token of it is the model's next after the ones before, no token but the last is a stop token,
      and it says how it ended. */
  lemma SoloResultIs(m: Model, prompt: seq<Token>, stop: set<Token>, maxNew: nat, s: Stream)
    requires prompt != [] && SoloResult(m, prompt, stop, maxNew, s)
    ensures 1 <= |s.tokens| <= maxNew
    ensures forall i :: 0 <= i < |s.tokens| ==> s.tokens[i] == m.argmax(Last(m, prompt + s.tokens[..i]))
    ensures forall i :: 0 <= i < |s.tokens| - 1 ==> s.tokens[i] !in stop
    ensures s.tokens[|s.tokens| - 1] in stop ==> s.finish == Some(Stopped)
    ensures s.tokens[|s.tokens| - 1] !in stop ==> s.finish == Some(Length) && |s.tokens| == maxNew
  {
    hide Last;
    forall i | 0 <= i < |s.tokens|
      ensures s.tokens[i] == m.argmax(Last(m, prompt + s.tokens[..i]))
    {
      IsGreedyPrefix(m, prompt, s.tokens, i);
    }
  }

  /** A prompt has one such result. */
  lemma SoloResultUnique(m: Model, prompt: seq<Token>, stop: set<Token>, maxNew: nat, s: Stream, t: Stream)
    requires prompt != []
    requires SoloResult(m, prompt, stop, maxNew, s) && SoloResult(m, prompt, stop, maxNew, t)
    ensures s == t
  {
    SoloNotLonger(m, prompt, stop, maxNew, s, t);
    SoloNotLonger(m, prompt, stop, maxNew, t, s);
  }

  lemma SoloNotLonger(m: Model, prompt: seq<Token>, stop: set<Token>, maxNew: nat, s: Stream, t: Stream)
    requires prompt != []
    requires SoloResult(m, prompt, stop, maxNew, s) && SoloResult(m, prompt, stop, maxNew, t)
    ensures |t.tokens| <= |s.tokens|
  {
    if |s.tokens| < |t.tokens| {
      GreedyPrefix(m, prompt, |s.tokens|, |t.tokens|);
      assert false;
    }
  }

  lemma FreshTracked(m: Model, prompt: seq<Token>, stop: set<Token>, maxNew: nat)
    requires prompt != [] && maxNew >= 1
    ensures Tracked(m, prompt, stop, maxNew, Stream([], None))
  {
    assert Greedy(m, prompt, 0) == [];
  }

  lemma CommitAllFinished(stop: set<Token>, maxNew: nat, s: Stream, toks: seq<Token>)
    requires s.finish.Some?
    ensures CommitAll(stop, maxNew, s, toks) == s
    decreases |toks|
  {
    if toks != [] {
      CommitAllFinished(stop, maxNew, s, toks[1..]);
    }
  }

  /** Tokens after the one that finishes a request are not taken. */
  lemma {:induction false} CommitAllRest(stop: set<Token>, maxNew: nat, s: Stream, toks: seq<Token>, rest: seq<Token>)
    requires CommitAll(stop, maxNew, s, toks).finish.Some?
    ensures CommitAll(stop, maxNew, s, toks + rest) == CommitAll(stop, maxNew, s, toks)
    decreases |toks|
  {
    if toks == [] {
      assert toks + rest == rest;
      CommitAllFinished(stop, maxNew, s, rest);
    } else {
      assert (toks + rest)[1..] == toks[1..] + rest;
      CommitAllRest(stop, maxNew, CommitOne(stop, maxNew, s, toks[0]), toks[1..], rest);
    }
  }

  lemma CommitNone(stop: set<Token>, maxNew: nat, s: Stream)
    ensures CommitAll(stop, maxNew, s, []) == s
  {
  }

  lemma {:induction false} CommitAllSnoc(stop: set<Token>, maxNew: nat, s: Stream, toks: seq<Token>, t: Token)
    ensures CommitAll(stop, maxNew, s, toks + [t]) == CommitOne(stop, maxNew, CommitAll(stop, maxNew, s, toks), t)
    decreases |toks|
  {
    if toks == [] {
      assert toks + [t] == [t] && [t][1..] == [];
    } else {
      assert (toks + [t])[1..] == toks[1..] + [t];
      CommitAllSnoc(stop, maxNew, CommitOne(stop, maxNew, s, toks[0]), toks[1..], t);
    }
  }

  lemma CommitAllPair(stop: set<Token>, maxNew: nat, s: Stream, x: Token, y: Token)
    ensures CommitAll(stop, maxNew, s, [x]) == CommitOne(stop, maxNew, s, x)
    ensures CommitAll(stop, maxNew, s, [x, y]) == CommitOne(stop, maxNew, CommitOne(stop, maxNew, s, x), y)
  {
    assert [x][1..] == [] && [x, y][1..] == [y] && [y][1..] == [];
    var s1 := CommitOne(stop, maxNew, s, x);
    assert CommitAll(stop, maxNew, s1, [y]) == CommitAll(stop, maxNew, CommitOne(stop, maxNew, s1, y), []);
  }

  lemma CommitOneGreedy(m: Model, prompt: seq<Token>, stop: set<Token>, maxNew: nat, s: Stream, tok: Token)
    requires prompt != [] && Open(m, prompt, stop, maxNew, s) && tok == Next(m, prompt + s.tokens)
    ensures var t := CommitOne(stop, maxNew, s, tok);
            if t.finish.Some? then SoloResult(m, prompt, stop, maxNew, t) else Open(m, prompt, stop, maxNew, t)
  {
    GreedySnoc(m, prompt, s.tokens, tok);
  }

  /** Committing greedy tokens, of which some may lie past the end of the request, either leaves
      the stream open with all of them or finishes it with exactly the solo result. */
  lemma {:induction false} CommitAllGreedy(m: Model, prompt: seq<Token>, stop: set<Token>, maxNew: nat, s: Stream,
                                           toks: seq<Token>)
    requires prompt != [] && Open(m, prompt, stop, maxNew, s) && IsGreedy(m, prompt, s.tokens + toks)
    ensures var t := CommitAll(stop, maxNew, s, toks);
            if t.finish.Some? then SoloResult(m, prompt, stop, maxNew, t)
            else Open(m, prompt, stop, maxNew, t) && t.tokens == s.tokens + toks
    decreases |toks|
  {
    if toks == [] {
      assert s.tokens + toks == s.tokens;
    } else {
      var all := s.tokens + toks;
      IsGreedyPrefix(m, prompt, all, |s.tokens|);
      assert all[..|s.tokens|] == s.tokens && all[|s.tokens|] == toks[0];
      CommitOneGreedy(m, prompt, stop, maxNew, s, toks[0]);
      var t := CommitOne(stop, maxNew, s, toks[0]);
      if t.finish.Some? {
        CommitAllFinished(stop, maxNew, t, toks[1..]);
      } else {
        assert t.tokens + toks[1..] == all;
        CommitAllGreedy(m, prompt, stop, maxNew, t, toks[1..]);
      }
    }
  }

  /** Draining held tokens of a tracked stream keeps it tracked; it takes all of them or finishes. */
  lemma DrainHeld(m: Model, prompt: seq<Token>, stop: set<Token>, maxNew: nat, s: Stream, held: seq<Token>,
                  decided: seq<Token>)
    requires prompt != [] && Tracked(m, prompt, stop, maxNew, s)
    requires s.finish.None? ==> s.tokens + held <= decided && IsGreedy(m, prompt, decided)
    ensures var t := CommitAll(stop, maxNew, s, held);
            && Tracked(m, prompt, stop, maxNew, t)
            && (s.finish.Some? ==> t == s)
            && (t.finish.None? ==> s.finish.None? && t.tokens == s.tokens + held)
  {
    if s.finish.Some? {
      CommitAllFinished(stop, maxNew, s, held);
    } else {
      var all := s.tokens + held;
      assert decided[..|all|] == all;
      IsGreedyPrefix(m, prompt, decided, |all|);
      CommitAllGreedy(m, prompt, stop, maxNew, s, held);
    }
  }

  /* ---- how many cycles requests can still take ---- */

  /** At most this many more cycles can pass with the request unfinished: one per undecided token,
      and one for the commit lag. */
  function Slack(finish: Option<Finish>, decided: nat, maxNew: nat): nat {
    if finish.Some? then 0 else if decided < maxNew then maxNew + 1 - decided else 1
  }

  ghost function TotalSlack(finish: seq<Option<Finish>>, decided: seq<seq<Token>>, maxNew: nat): nat
    requires |finish| == |decided|
  {
    if finish == [] then 0
    else
      var n := |finish| - 1;
      TotalSlack(finish[..n], decided[..n], maxNew) + Slack(finish[n], |decided[n]|, maxNew)
  }

  lemma {:induction false} TotalSlackDrops(f0: seq<Option<Finish>>, d0: seq<seq<Token>>, f1: seq<Option<Finish>>,
                                           d1: seq<seq<Token>>,
                                           maxNew: nat, r: nat)
    requires |f0| == |d0| == |f1| == |d1|
    requires forall i :: 0 <= i < |f0| ==> Slack(f1[i], |d1[i]|, maxNew) <= Slack(f0[i], |d0[i]|, maxNew)
    ensures TotalSlack(f1, d1, maxNew) <= TotalSlack(f0, d0, maxNew)
    ensures r < |f0| && Slack(f1[r], |d1[r]|, maxNew) < Slack(f0[r], |d0[r]|, maxNew) ==>
              TotalSlack(f1, d1, maxNew) < TotalSlack(f0, d0, maxNew)
  {
    if f0 != [] {
      var n := |f0| - 1;
      TotalSlackDrops(f0[..n], d0[..n], f1[..n], d1[..n], maxNew, r);
    }
  }

  lemma {:induction false} TotalSlackFresh(f: seq<Option<Finish>>, d: seq<seq<Token>>, maxNew: nat)
    requires |f| == |d| && maxNew >= 1
    requires forall i :: 0 <= i < |f| ==> f[i] == None && d[i] == []
    ensures TotalSlack(f, d, maxNew) == |f| * (maxNew + 1)
  {
    if f != [] {
      var n := |f| - 1;
      TotalSlackFresh(f[..n], d[..n], maxNew);
      assert |f| * (maxNew + 1) == n * (maxNew + 1) + (maxNew + 1);
    }
  }

  lemma {:induction false} TotalSlackPositive(f: seq<Option<Finish>>, d: seq<seq<Token>>, maxNew: nat, r: nat)
    requires |f| == |d| && r < |f| && f[r].None?
    ensures TotalSlack(f, d, maxNew) >= 1
  {
    var n := |f| - 1;
    if r < n {
      TotalSlackPositive(f[..n], d[..n], maxNew, r);
    }
  }

  /** The commits of one cycle as the loops hold them: first tokens, second tokens, counts. */
  datatype Commits = Commits(c0: seq<Token>, c1: seq<Token>, nc: seq<nat>) {
    function Row(b: nat): (toks: seq<Token>)
      requires b < |c0| && b < |c1| && b < |nc|
    {
      if nc[b] >= 2 then [c0[b], c1[b]] else [c0[b]]
    }
  }

  /** The request and slot bookkeeping of `generate_greedy_batched`. */
  class Book {
    const requests: seq<seq<Token>>
    const stop: set<Token>
    const maxNew: nat
    const slots: nat
    var tokens: seq<seq<Token>>
    var finish: seq<Option<Finish>>
    var done: seq<bool>
    var slotRequest: seq<Option<nat>>

    /** Slots serve distinct requests; a serving slot is done exactly when its request is finished,
        an idle (dummy) slot is always done. */
    ghost predicate Valid()
      reads this
    {
      && |tokens| == |finish| == |requests|
      && |done| == |slotRequest| == slots
      && (forall b :: 0 <= b < slots ==>
            if slotRequest[b].None? then done[b]
            else slotRequest[b].value < |requests| && done[b] == finish[slotRequest[b].value].Some?)
      && (forall b, c :: 0 <= b < c < slots && slotRequest[b].Some? ==> slotRequest[b] != slotRequest[c])
    }

    function StreamOf(r: nat): Stream
      requires r < |tokens| && r < |finish|
      reads this
    {
      Stream(tokens[r], finish[r])
    }

    predicate Serves(b: nat, r: nat)
      requires b < |slotRequest|
      reads this`slotRequest
    {
      slotRequest[b] == Some(r)
    }

    ghost predicate Unserved(r: nat)
      reads this`slotRequest
    {
      forall b :: 0 <= b < |slotRequest| ==> slotRequest[b] != Some(r)
    }

    ghost predicate Live(b: nat)
      reads this
    {
      b < |done| && b < |slotRequest| && slotRequest[b].Some? && !done[b]
    }

    predicate AllDone()
      reads this
    {
      forall b :: 0 <= b < |done| ==> done[b]
    }

    /** The first `nReal` of the requests start in the slots, the remaining slots are dummies. */
    constructor (requests: seq<seq<Token>>, stop: set<Token>, maxNew: nat, slots: nat, nReal: nat)
      requires nReal <= |requests| && nReal <= slots
      ensures Valid()
      ensures this.requests == requests && this.stop == stop && this.maxNew == maxNew && this.slots == slots
      ensures forall r :: 0 <= r < |requests| ==> tokens[r] == [] && finish[r] == None
      ensures forall b :: 0 <= b < slots ==>
                slotRequest[b] == (if b < nReal then Some(b) else None) && done[b] == (b >= nReal)
    {
      this.requests := requests;
      this.stop := stop;
      this.maxNew := maxNew;
      this.slots := slots;
      tokens := seq(|requests|, _ => []);
      finish := seq(|requests|, _ => None);
      done := seq(slots, b => b >= nReal);
      slotRequest := seq(slots, b requires b >= 0 => if b < nReal then Some(b) else None);
    }

    /** Slot b starts serving an untouched request. */
    method Admit(b: nat, r: nat)
      requires Valid() && b < slots && r < |requests| && finish[r].None?
      requires forall c :: 0 <= c < slots && c != b ==> slotRequest[c] != Some(r)
      modifies this`slotRequest, this`done
      ensures Valid() && slotRequest == old(slotRequest)[b := Some(r)] && done == old(done)[b := false]
    {
      slotRequest := slotRequest[b := Some(r)];
      done := done[b := false];
    }

    method Commit(b: nat, tok: Token)
      requires Valid() && b < slots
      modifies this`tokens, this`finish, this`done
      ensures Valid()
      ensures forall r :: 0 <= r < |requests| ==>
                StreamOf(r) == if Serves(b, r) then CommitOne(stop, maxNew, old(StreamOf(r)), tok) else old(StreamOf(r))
    {
      if slotRequest[b].None? || done[b] {
        return;
      }
      var r := slotRequest[b].value;
      tokens := tokens[r := tokens[r] + [tok]];
      if tok in stop {
        done := done[b := true];
        finish := finish[r := Some(Stopped)];
      } else if |tokens[r]| >= maxNew {
        done := done[b := true];
        finish := finish[r := Some(Length)];
      }
    }

    /** One slot's commits of a held cycle. */
    method CommitRow(b: nat, pending: Commits)
      requires Valid() && b < slots && |pending.c0| == |pending.c1| == |pending.nc| == slots
      modifies this`tokens, this`finish, this`done
      ensures Valid()
      ensures forall r :: 0 <= r < |requests| ==>
                StreamOf(r) == if Serves(b, r) then CommitAll(stop, maxNew, old(StreamOf(r)), pending.Row(b))
                               else old(StreamOf(r))
    {
      if slotRequest[b].Some? {
        CommitAllPair(stop, maxNew, StreamOf(slotRequest[b].value), pending.c0[b], pending.c1[b]);
      }
      Commit(b, pending.c0[b]);
      if pending.nc[b] >= 2 {
        Commit(b, pending.c1[b]);
      }
    }

    /** `_drain`: each slot's request receives that slot's commits, in order, until it is finished;
        requests no slot serves are untouched. */
    method Drain(pending: Commits)
      requires Valid() && |pending.c0| == |pending.c1| == |pending.nc| == slots
      modifies this`tokens, this`finish, this`done
      ensures Valid()
      ensures forall b, r :: 0 <= b < slots && 0 <= r < |requests| && Serves(b, r) ==>
                StreamOf(r) == CommitAll(stop, maxNew, old(StreamOf(r)), pending.Row(b))
      ensures forall r :: 0 <= r < |requests| && Unserved(r) ==> StreamOf(r) == old(StreamOf(r))
    {
      for i := 0 to slots
        invariant Valid()
        invariant forall b, r :: 0 <= b < slots && 0 <= r < |requests| && Serves(b, r) ==>
                    StreamOf(r) == if b < i then CommitAll(stop, maxNew, old(StreamOf(r)), pending.Row(b))
                                   else old(StreamOf(r))
        invariant forall r :: 0 <= r < |requests| && Unserved(r) ==> StreamOf(r) == old(StreamOf(r))
      {
        assert forall b, r :: 0 <= b < slots && b != i && 0 <= r < |requests| && Serves(b, r) ==> !Serves(i, r);
        CommitRow(i, pending);
      }
    }
  }
}
