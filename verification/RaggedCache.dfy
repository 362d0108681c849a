/** The cohort's cache: per-row logical lengths over a shared-capacity KV buffer, beside a
    recurrent state that can only be rewound from a snapshot. */
module RaggedCache {
  import opened TargetModel
  import opened Wrappers

  /** Row-wise selection, `mx.where` over the batch axis. */
  function Where<T>(mask: seq<bool>, x: seq<T>, y: seq<T>): (r: seq<T>)
    requires |mask| == |x| == |y|
    ensures |r| == |mask|
    ensures forall i :: 0 <= i < |mask| ==> r[i] == if mask[i] then x[i] else y[i]
  {
    seq(|mask|, i requires 0 <= i < |mask| => if mask[i] then x[i] else y[i])
  }

  function Fill<T>(n: nat, x: T): (r: seq<T>)
    ensures |r| == n && forall i :: 0 <= i < n ==> r[i] == x
  {
    seq(n, _ => x)
  }

  function RoundUp(n: nat, step: nat): nat
    requires step > 0
  {
    (n + step - 1) / step * step
  }

  lemma RoundUpBounds(n: nat, step: nat)
    requires step > 0
    ensures n <= RoundUp(n, step) < n + step
  {
    var q := (n + step - 1) / step;
    assert q * step <= n + step - 1 < q * step + step;
  }

  class Cache {
    const m: Model
    const rows: nat
    var step: nat
    var kv: seq<seq<Entry>>
    var offsets: seq<int>
    var rec: seq<Recurrent>
    var cap: nat
    var bound: nat
    var frozen: Option<nat>

    ghost predicate Valid()
      reads this
    {
      && step > 0
      && |kv| == |offsets| == |rec| == rows
      && (forall b :: 0 <= b < rows ==> |kv[b]| == cap)
      && (frozen.Some? ==> frozen.value <= cap)
    }

    /** A buffer of `cap` unused positions and fresh recurrent rows. */
    constructor (m: Model, rows: nat, cap: nat, step: nat)
      requires step > 0
      ensures Valid() && this.m == m && this.rows == rows && this.step == step && this.cap == cap
      ensures bound == 0 && frozen == None && offsets == Fill(rows, 0) && rec == Fill(rows, m.zero)
      ensures kv == Fill(rows, Fill(cap, m.pad))
    {
      this.m, this.rows, this.step, this.cap := m, rows, step, cap;
      kv := Fill(rows, Fill(cap, m.pad));
      offsets := Fill(rows, 0);
      rec := Fill(rows, m.zero);
      bound, frozen := 0, None;
    }

    /** `_grow_to`: pad every slab up to a step-rounded capacity; nothing written is lost. */
    method GrowTo(required: nat)
      requires Valid()
      modifies this`kv, this`cap
      ensures Valid() && required <= cap && old(cap) <= cap
      ensures cap == if required <= old(cap) then old(cap) else RoundUp(required, step)
      ensures forall b :: 0 <= b < rows ==> kv[b][..old(cap)] == old(kv[b])
    {
      if required <= cap {
        return;
      }
      RoundUpBounds(required, step);
      var nSteps := (required + step - 1) / step;
      var newCap := nSteps * step;
      var before, pad := kv, Fill(newCap - cap, m.pad);
      kv := seq(rows, b requires 0 <= b < |before| => before[b] + pad);
      cap := newCap;
    }

    /** `reserve`: make room before a forward, so that none has to grow inside it. */
    method Reserve(more: nat)
      requires Valid()
      modifies this`kv, this`cap
      ensures Valid() && old(cap) <= cap
      ensures if frozen.Some? then cap == old(cap) else bound + more <= cap
      ensures forall b :: 0 <= b < rows ==> kv[b][..old(cap)] == old(kv[b])
    {
      if frozen.Some? {
        GrowTo(frozen.value);
      } else {
        GrowTo(bound + more);
      }
    }

    /** `freeze_capacity`: one constant capacity for the rest of the run. */
    method Freeze(capacity: nat)
      requires Valid()
      modifies this`kv, this`cap, this`frozen
      ensures Valid() && frozen == Some(capacity) && old(cap) <= cap
      ensures cap == if capacity <= old(cap) then old(cap) else RoundUp(capacity, step)
      ensures forall b :: 0 <= b < rows ==> kv[b][..old(cap)] == old(kv[b])
    {
      GrowTo(capacity);
      frozen := Some(capacity);
    }

    method SetStep(n: nat)
      requires Valid() && n > 0
      modifies this`step
      ensures Valid() && step == n
    {
      step := n;
    }

    method SetOffsets(offs: seq<int>)
      requires Valid() && |offs| == rows
      modifies this`offsets
      ensures Valid() && offsets == offs
    {
      offsets := offs;
    }

    /** `trim` of a uniform cache: every row forgets its last positions, which stay in the buffer. */
    method Trim(n: nat)
      requires Valid() && n <= bound
      modifies this`offsets, this`bound
      ensures Valid() && bound == old(bound) - n
      ensures forall b :: 0 <= b < rows ==> offsets[b] == old(offsets[b]) - n
    {
      var offs := offsets;
      offsets := seq(rows, b requires 0 <= b < |offs| => offs[b] - n);
      bound := bound - n;
    }

    /** `restore_untrimmable_cache_masked`: exactly the masked rows revert to the snapshot. */
    method RestoreMasked(snapshot: seq<Recurrent>, mask: seq<bool>)
      requires Valid() && |snapshot| == |mask| == rows
      modifies this`rec
      ensures Valid() && rec == Where(mask, snapshot, old(rec))
    {
      rec := Where(mask, snapshot, rec);
    }

    /** `_zero_untrimmable_rows`: exactly the masked rows get a fresh recurrent state. */
    method ZeroRows(mask: seq<bool>)
      requires Valid() && |mask| == rows
      modifies this`rec
      ensures Valid() && rec == Where(mask, Fill(rows, m.zero), old(rec))
    {
      rec := Where(mask, Fill(rows, m.zero), rec);
    }

    /** One batched forward of `q` tokens per row, each row written at its own offset. */
    method Forward(inp: seq<seq<Token>>, q: nat) returns (outs: seq<seq<Output>>)
      requires Valid() && |inp| == rows && forall b :: 0 <= b < rows ==> |inp[b]| == q
      requires forall b :: 0 <= b < rows ==> 0 <= offsets[b] && offsets[b] + q <= cap
      requires frozen.None? ==> bound + q <= cap
      modifies this`kv, this`offsets, this`rec, this`bound
      ensures Valid() && |outs| == rows
      ensures forall b :: 0 <= b < rows ==>
                && RunRow(m, old(kv[b]), old(offsets[b]), old(rec[b]), inp[b]) == RowRun(kv[b], rec[b], outs[b])
                && offsets[b] == old(offsets[b]) + q
      ensures bound == if frozen.Some? then old(bound) else old(bound) + q
    {
      var kv0, off0, rec0 := kv, offsets, rec;
      var runs := seq(rows, b requires 0 <= b < rows => RunRow(m, kv0[b], off0[b], rec0[b], inp[b]));
      kv := seq(rows, b requires 0 <= b < rows => runs[b].buf);
      rec := seq(rows, b requires 0 <= b < rows => runs[b].rec);
      outs := seq(rows, b requires 0 <= b < rows => runs[b].outs);
      offsets := seq(rows, b requires 0 <= b < rows => off0[b] + q);
      if frozen.None? {
        bound := bound + q;
      }
    }
  }
}
