/** Causal attention over physical key blocks with a running maximum, denominator and accumulator, for
    one query and one value component, over the reals. */
module BlockAttention {
  import opened Wrappers

  function Mul(a: real, b: real): real {
    a * b
  }

  /** A score, or the mask's value: below every score, and level with itself. */
  datatype Score = Low | At(s: real)

  predicate Leq(a: Score, b: Score) {
    a.Low? || (b.At? && a.s <= b.s)
  }

  function Max(a: Score, b: Score): Score {
    if Leq(a, b) then b else a
  }

  ghost predicate IsExp(exp: real -> real) {
    && exp(0.0) == 1.0
    && (forall x :: exp(x) > 0.0)
    && (forall x, y :: exp(x + y) == exp(x) * exp(y))
  }

  /** The exponential of a score's distance below `b`: a masked score vanishes beside any other. */
  function Weight(exp: real -> real, a: Score, b: Score): real
    requires Leq(a, b)
  {
    match a
    case Low => if b.Low? then exp(0.0) else 0.0
    case At(s) => exp(s - b.s)
  }

  predicate Below(ss: seq<Score>, m: Score) {
    forall i :: 0 <= i < |ss| ==> Leq(ss[i], m)
  }

  function Highest(ss: seq<Score>): (m: Score)
    ensures Below(ss, m)
    ensures ss != [] ==> m in ss
  {
    if ss == [] then Low
    else
      var m := Highest(ss[..|ss| - 1]);
      Max(m, ss[|ss| - 1])
  }

  function Denominator(exp: real -> real, ss: seq<Score>, m: Score): real
    requires Below(ss, m)
  {
    if ss == [] then 0.0 else Denominator(exp, ss[..|ss| - 1], m) + Weight(exp, ss[|ss| - 1], m)
  }

  function Accumulator(exp: real -> real, ss: seq<Score>, vs: seq<real>, m: Score): real
    requires Below(ss, m) && |vs| == |ss|
  {
    if ss == [] then 0.0
    else Accumulator(exp, ss[..|ss| - 1], vs[..|ss| - 1], m) + Mul(Weight(exp, ss[|ss| - 1], m), vs[|ss| - 1])
  }

  /* ---- moving the reference maximum ---- */

  lemma WeightRescale(exp: real -> real, a: Score, m: Score, n: Score)
    requires IsExp(exp) && Leq(a, m) && Leq(m, n)
    ensures Leq(a, n) && Weight(exp, a, n) == Mul(Weight(exp, a, m), Weight(exp, m, n))
  {
    if a.At? {
      assert a.s - n.s == (a.s - m.s) + (m.s - n.s);
    }
  }

  lemma {:induction false} Rescale(exp: real -> real, ss: seq<Score>, vs: seq<real>, m: Score, n: Score)
    requires IsExp(exp) && Below(ss, m) && Leq(m, n) && |vs| == |ss|
    ensures Below(ss, n)
    ensures Denominator(exp, ss, n) == Mul(Denominator(exp, ss, m), Weight(exp, m, n))
    ensures Accumulator(exp, ss, vs, n) == Mul(Accumulator(exp, ss, vs, m), Weight(exp, m, n))
  {
    hide Mul, Weight, IsExp;
    if ss == [] {
      ZeroTimes(Weight(exp, m, n));
    } else {
      var k := |ss| - 1;
      Rescale(exp, ss[..k], vs[..k], m, n);
      WeightRescale(exp, ss[k], m, n);
      Distribute(Denominator(exp, ss[..k], m), Weight(exp, ss[k], m), Weight(exp, m, n));
      Distribute(Accumulator(exp, ss[..k], vs[..k], m), Mul(Weight(exp, ss[k], m), vs[k]), Weight(exp, m, n));
      Commute(Weight(exp, ss[k], m), vs[k], Weight(exp, m, n));
    }
  }

  lemma ZeroTimes(w: real)
    ensures Mul(0.0, w) == 0.0
  {
  }

  lemma Distribute(a: real, b: real, w: real)
    ensures Mul(a + b, w) == Mul(a, w) + Mul(b, w)
  {
  }

  lemma Commute(a: real, v: real, w: real)
    ensures Mul(Mul(a, v), w) == Mul(Mul(a, w), v)
  {
  }

  lemma {:induction false} Append(exp: real -> real, a: seq<Score>, b: seq<Score>, va: seq<real>, vb: seq<real>,
                                  m: Score)
    requires Below(a, m) && Below(b, m) && |va| == |a| && |vb| == |b|
    ensures Below(a + b, m)
    ensures Denominator(exp, a + b, m) == Denominator(exp, a, m) + Denominator(exp, b, m)
    ensures Accumulator(exp, a + b, va + vb, m) == Accumulator(exp, a, va, m) + Accumulator(exp, b, vb, m)
  {
    hide Mul, Weight;
    if b == [] {
      assert a + b == a && va + vb == va;
    } else {
      var k := |b| - 1;
      Append(exp, a, b[..k], va, vb[..k], m);
      assert (a + b)[..|a| + k] == a + b[..k] && (va + vb)[..|a| + k] == va + vb[..k];
    }
  }

  lemma {:induction false} HighestAppend(a: seq<Score>, b: seq<Score>)
    ensures Highest(a + b) == Max(Highest(a), Highest(b))
  {
    if b == [] {
      assert a + b == a;
    } else {
      HighestAppend(a, b[..|b| - 1]);
      assert (a + b)[..|a + b| - 1] == a + b[..|b| - 1];
    }
  }

  /* ---- the block loop ---- */

  datatype Block = Block(start: nat, scores: seq<real>, values: seq<real>)

  predicate BlockOk(b: Block) {
    b.scores != [] && |b.scores| == |b.values|
  }

  /** `_apply_causal_block_mask` for query `q`: a block wholly inside the prefix is left alone. */
  function Masked(b: Block, q: nat, prefix: nat): (ss: seq<Score>)
    ensures |ss| == |b.scores|
    ensures forall j :: 0 <= j < |ss| ==> ss[j] == if prefix + q >= b.start + j then At(b.scores[j]) else Low
  {
    seq(|b.scores|, j requires 0 <= j < |b.scores| =>
      if b.start + |b.scores| <= prefix || prefix + q >= b.start + j then At(b.scores[j]) else Low)
  }

  function AllScores(blocks: seq<Block>, q: nat, prefix: nat): seq<Score> {
    if blocks == [] then [] else AllScores(blocks[..|blocks| - 1], q, prefix) + Masked(blocks[|blocks| - 1], q, prefix)
  }

  function AllValues(blocks: seq<Block>): seq<real> {
    if blocks == [] then [] else AllValues(blocks[..|blocks| - 1]) + blocks[|blocks| - 1].values
  }

  lemma {:induction false} AllLengths(blocks: seq<Block>, q: nat, prefix: nat)
    requires forall i :: 0 <= i < |blocks| ==> BlockOk(blocks[i])
    ensures |AllScores(blocks, q, prefix)| == |AllValues(blocks)|
    ensures blocks != [] ==> AllScores(blocks, q, prefix) != []
  {
    if blocks != [] {
      AllLengths(blocks[..|blocks| - 1], q, prefix);
    }
  }

  /** The softmax-weighted sum over all keys at once, with the mask's scores in place. */
  function Dense(exp: real -> real, ss: seq<Score>, vs: seq<real>): real
    requires |vs| == |ss| && Denominator(exp, ss, Highest(ss)) != 0.0
  {
    Accumulator(exp, ss, vs, Highest(ss)) / Denominator(exp, ss, Highest(ss))
  }

  lemma {:induction false} DenominatorPositive(exp: real -> real, ss: seq<Score>, m: Score)
    requires IsExp(exp) && Below(ss, m)
    ensures Denominator(exp, ss, m) >= 0.0 && (m in ss ==> Denominator(exp, ss, m) > 0.0)
  {
    if ss != [] {
      DenominatorPositive(exp, ss[..|ss| - 1], m);
      assert m in ss ==> m in ss[..|ss| - 1] || m == ss[|ss| - 1];
    }
  }

  /** One block's own maximum, denominator and accumulator joined to the running ones. */
  lemma JoinBlock(exp: real -> real, a: seq<Score>, b: seq<Score>, va: seq<real>, vb: seq<real>)
    requires IsExp(exp) && |va| == |a| && |vb| == |b|
    ensures var ma, mb := Highest(a), Highest(b);
            var m := Max(ma, mb);
            && Leq(ma, m) && Leq(mb, m) && Highest(a + b) == m
            && Denominator(exp, a + b, m) ==
                 Mul(Denominator(exp, a, ma), Weight(exp, ma, m)) + Mul(Denominator(exp, b, mb), Weight(exp, mb, m))
            && Accumulator(exp, a + b, va + vb, m) ==
                 Mul(Accumulator(exp, a, va, ma), Weight(exp, ma, m))
                 + Mul(Accumulator(exp, b, vb, mb), Weight(exp, mb, m))
  {
    hide Denominator, Accumulator, Weight, IsExp, Mul;
    var ma, mb := Highest(a), Highest(b);
    var m := Max(ma, mb);
    HighestAppend(a, b);
    Rescale(exp, a, va, ma, m);
    Rescale(exp, b, vb, mb, m);
    Append(exp, a, b, va, vb, m);
  }

  /** `blockwise_attention`: for any partition into blocks, and with blocks masked entirely for the
      query, the running recurrence gives the dense masked softmax. */
  method BlockwiseAttention(exp: real -> real, blocks: seq<Block>, q: nat, prefix: nat) returns (out: Option<real>)
    requires IsExp(exp) && forall i :: 0 <= i < |blocks| ==> BlockOk(blocks[i])
    ensures out.None? <==> blocks == []
    ensures out.Some? ==>
              var ss, vs := AllScores(blocks, q, prefix), AllValues(blocks);
              |ss| == |vs| && Denominator(exp, ss, Highest(ss)) > 0.0 && out.value == Dense(exp, ss, vs)
  {
    hide IsExp, Denominator, Accumulator, Weight, Highest, Mul;
    if blocks == [] {
      return None;
    }
    var runningMax: Option<Score> := None;
    var runningDenom, runningAcc := 0.0, 0.0;
    for i := 0 to |blocks|
      invariant |AllScores(blocks[..i], q, prefix)| == |AllValues(blocks[..i])|
      invariant runningMax.None? <==> i == 0
      invariant i > 0 ==>
                  var ss, vs := AllScores(blocks[..i], q, prefix), AllValues(blocks[..i]);
                  && runningMax == Some(Highest(ss))
                  && runningDenom == Denominator(exp, ss, Highest(ss))
                  && runningAcc == Accumulator(exp, ss, vs, Highest(ss))
    {
      assert blocks[..i + 1][..i] == blocks[..i];
      var scores, values := Masked(blocks[i], q, prefix), blocks[i].values;
      var localMax := Highest(scores);
      var localDenom, localAcc := Denominator(exp, scores, localMax), Accumulator(exp, scores, values, localMax);
      ghost var ss, vs := AllScores(blocks[..i], q, prefix), AllValues(blocks[..i]);
      if runningMax.None? {
        runningMax, runningDenom, runningAcc := Some(localMax), localDenom, localAcc;
        assert blocks[..i] == [] && ss + scores == scores && vs + values == values;
      } else {
        JoinBlock(exp, ss, scores, vs, values);
        var newMax := Max(runningMax.value, localMax);
        var oldScale, newScale := Weight(exp, runningMax.value, newMax), Weight(exp, localMax, newMax);
        runningAcc := Mul(runningAcc, oldScale) + Mul(localAcc, newScale);
        runningDenom := Mul(runningDenom, oldScale) + Mul(localDenom, newScale);
        runningMax := Some(newMax);
      }
    }
    assert blocks[..|blocks|] == blocks;
    AllLengths(blocks, q, prefix);
    HighestIn(AllScores(blocks, q, prefix));
    DenominatorPositive(exp, AllScores(blocks, q, prefix), Highest(AllScores(blocks, q, prefix)));
    out := Some(runningAcc / runningDenom);
  }

  lemma HighestIn(ss: seq<Score>)
    requires ss != []
    ensures Highest(ss) in ss
  {
  }

  /* ---- the dense form is causal softmax ---- */

  /** The plain exponentials of the allowed scores. */
  function PlainSum(exp: real -> real, ss: seq<Score>): real {
    if ss == [] then 0.0
    else
      var s := ss[|ss| - 1];
      PlainSum(exp, ss[..|ss| - 1]) + if s.Low? then 0.0 else exp(s.s)
  }

  function PlainWeighted(exp: real -> real, ss: seq<Score>, vs: seq<real>): real
    requires |vs| == |ss|
  {
    if ss == [] then 0.0
    else
      var s := ss[|ss| - 1];
      PlainWeighted(exp, ss[..|ss| - 1], vs[..|ss| - 1]) + if s.Low? then 0.0 else Mul(exp(s.s), vs[|ss| - 1])
  }

  lemma {:induction false} ShiftOut(exp: real -> real, ss: seq<Score>, vs: seq<real>, m: Score)
    requires IsExp(exp) && Below(ss, m) && m.At? && |vs| == |ss|
    ensures PlainSum(exp, ss) == Mul(Denominator(exp, ss, m), exp(m.s))
    ensures PlainWeighted(exp, ss, vs) == Mul(Accumulator(exp, ss, vs, m), exp(m.s))
  {
    hide Mul, Weight, IsExp;
    if ss == [] {
      ZeroTimes(exp(m.s));
    } else {
      var k := |ss| - 1;
      ShiftOut(exp, ss[..k], vs[..k], m);
      var w := Weight(exp, ss[k], m);
      Distribute(Denominator(exp, ss[..k], m), w, exp(m.s));
      Distribute(Accumulator(exp, ss[..k], vs[..k], m), Mul(w, vs[k]), exp(m.s));
      Commute(w, vs[k], exp(m.s));
      WeightShift(exp, ss[k], m);
      ZeroTimes(vs[k]);
    }
  }

  lemma WeightShift(exp: real -> real, a: Score, m: Score)
    requires IsExp(exp) && Leq(a, m) && m.At?
    ensures Mul(Weight(exp, a, m), exp(m.s)) == if a.Low? then 0.0 else exp(a.s)
  {
    if a.At? {
      assert a.s == (a.s - m.s) + m.s;
    }
  }

  lemma SameRatio(a: real, d: real, e: real)
    requires d > 0.0 && e > 0.0
    ensures Mul(d, e) > 0.0 && a / d == Mul(a, e) / Mul(d, e)
  {
  }

  /** With one key allowed, the masked ones contribute nothing and the maximum cancels: the dense form
      is the softmax-weighted sum of the allowed keys. */
  lemma DenseIsCausalSoftmax(exp: real -> real, ss: seq<Score>, vs: seq<real>)
    requires IsExp(exp) && |vs| == |ss| && exists i :: 0 <= i < |ss| && ss[i].At?
    ensures Denominator(exp, ss, Highest(ss)) > 0.0 && PlainSum(exp, ss) > 0.0
    ensures Dense(exp, ss, vs) == PlainWeighted(exp, ss, vs) / PlainSum(exp, ss)
  {
    hide Denominator, Accumulator, Weight, PlainSum, PlainWeighted, Highest;
    var m := Highest(ss);
    var i :| 0 <= i < |ss| && ss[i].At?;
    assert Leq(ss[i], m);
    HighestIn(ss);
    DenominatorPositive(exp, ss, m);
    ShiftOut(exp, ss, vs, m);
    SameRatio(Accumulator(exp, ss, vs, m), Denominator(exp, ss, m), exp(m.s));
  }

  /* ---- contiguous blocks ---- */

  /** The blocks tile the key positions from zero on. */
  predicate Contiguous(blocks: seq<Block>) {
    forall i :: 0 <= i < |blocks| ==> blocks[i].start == |AllValues(blocks[..i])|
  }

  function AllRaw(blocks: seq<Block>): seq<real> {
    if blocks == [] then [] else AllRaw(blocks[..|blocks| - 1]) + blocks[|blocks| - 1].scores
  }

  /** The scores of a query that may look at positions up to `limit`. */
  function Causal(raw: seq<real>, limit: nat): (ss: seq<Score>)
    ensures |ss| == |raw|
  {
    seq(|raw|, j requires 0 <= j < |raw| => if j <= limit then At(raw[j]) else Low)
  }

  lemma {:induction false} BlocksAreCausal(blocks: seq<Block>, q: nat, prefix: nat)
    requires Contiguous(blocks) && forall i :: 0 <= i < |blocks| ==> BlockOk(blocks[i])
    ensures |AllRaw(blocks)| == |AllValues(blocks)|
    ensures AllScores(blocks, q, prefix) == Causal(AllRaw(blocks), prefix + q)
  {
    hide Causal, Masked;
    if blocks == [] {
      assert Causal([], prefix + q) == [];
    } else {
      var init, b := blocks[..|blocks| - 1], blocks[|blocks| - 1];
      assert forall i :: 0 <= i < |init| ==> init[i] == blocks[i] && init[..i] == blocks[..i];
      BlocksAreCausal(init, q, prefix);
      CausalJoin(AllRaw(init), b, q, prefix);
    }
  }

  /** Key `j` of a block stands at position start + j with its own value, and query `q` sees its score
      exactly up to its own position. */
  lemma {:induction false} KeyStands(blocks: seq<Block>, q: nat, prefix: nat, i: nat, j: nat)
    requires Contiguous(blocks) && (forall k :: 0 <= k < |blocks| ==> BlockOk(blocks[k]))
    requires i < |blocks| && j < |blocks[i].values|
    ensures |AllScores(blocks, q, prefix)| == |AllValues(blocks)| && j < |blocks[i].scores|
    ensures var at := blocks[i].start + j;
            && at < |AllValues(blocks)| && AllValues(blocks)[at] == blocks[i].values[j]
            && AllScores(blocks, q, prefix)[at] == if at <= prefix + q then At(blocks[i].scores[j]) else Low
  {
    var init, b := blocks[..|blocks| - 1], blocks[|blocks| - 1];
    AllLengths(init, q, prefix);
    ContiguousInit(blocks);
    assert b.start == |AllValues(init)| && |b.scores| == |b.values| && BlockOk(blocks[i]);
    assert AllValues(blocks) == AllValues(init) + b.values;
    assert AllScores(blocks, q, prefix) == AllScores(init, q, prefix) + Masked(b, q, prefix);
    hide AllValues, AllScores, Contiguous, Masked;
    if i < |init| {
      KeyStands(init, q, prefix, i, j);
    }
  }

  lemma ContiguousInit(blocks: seq<Block>)
    requires blocks != [] && Contiguous(blocks)
    ensures Contiguous(blocks[..|blocks| - 1])
  {
    var init := blocks[..|blocks| - 1];
    assert forall k :: 0 <= k < |init| ==> init[k] == blocks[k] && init[..k] == blocks[..k];
  }

  /** The blocks follow one another. */
  lemma BlocksTile(blocks: seq<Block>, i: nat)
    requires Contiguous(blocks) && i < |blocks|
    ensures blocks[i].start == if i == 0 then 0 else blocks[i - 1].start + |blocks[i - 1].values|
  {
    if i > 0 {
      assert blocks[..i][..i - 1] == blocks[..i - 1];
    }
  }

  lemma CausalJoin(raw: seq<real>, b: Block, q: nat, prefix: nat)
    requires b.start == |raw|
    ensures Causal(raw + b.scores, prefix + q) == Causal(raw, prefix + q) + Masked(b, q, prefix)
  {
  }

  /** Over contiguous blocks the result is causal softmax attention, however the keys are blocked: two
      partitions of the same keys agree. */
  lemma PartitionsAgree(exp: real -> real, a: seq<Block>, b: seq<Block>, q: nat, prefix: nat)
    requires IsExp(exp) && a != [] && b != [] && Contiguous(a) && Contiguous(b)
    requires (forall i :: 0 <= i < |a| ==> BlockOk(a[i])) && (forall i :: 0 <= i < |b| ==> BlockOk(b[i]))
    requires AllRaw(a) == AllRaw(b) && AllValues(a) == AllValues(b)
    ensures AllScores(a, q, prefix) == AllScores(b, q, prefix) == Causal(AllRaw(a), prefix + q)
    ensures var ss, vs := Causal(AllRaw(a), prefix + q), AllValues(a);
            && |ss| == |vs| && Denominator(exp, ss, Highest(ss)) > 0.0 && PlainSum(exp, ss) > 0.0
            && Dense(exp, ss, vs) == PlainWeighted(exp, ss, vs) / PlainSum(exp, ss)
  {
    hide Denominator, Dense, Highest, PlainSum, PlainWeighted, IsExp;
    BlocksAreCausal(a, q, prefix);
    BlocksAreCausal(b, q, prefix);
    AllLengths(a, q, prefix);
    assert Causal(AllRaw(a), prefix + q)[0].At?;
    DenseIsCausalSoftmax(exp, Causal(AllRaw(a), prefix + q), AllValues(a));
  }
}
