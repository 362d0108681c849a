/** The per-segment encode memo: least recently used entries go first, bounded by tokens and count. */
module SegmentMemo {
  import opened Wrappers

  type Key(==,!new)

  const MAX_ENTRIES: nat := 4096

  /** The entries, least recently used first. */
  type Entries = seq<(Key, seq<int>)>

  function Total(es: Entries): nat {
    if es == [] then 0 else |es[0].1| + Total(es[1..])
  }

  lemma {:induction false} TotalAppend(a: Entries, b: Entries)
    ensures Total(a + b) == Total(a) + Total(b)
  {
    if a == [] {
      assert a + b == b;
    } else {
      TotalAppend(a[1..], b);
      assert (a + b)[1..] == a[1..] + b;
    }
  }

  predicate Fits(es: Entries, maxTokens: nat) {
    Total(es) <= maxTokens && |es| <= MAX_ENTRIES
  }

  ghost predicate Distinct(es: Entries) {
    forall i, j :: 0 <= i < j < |es| ==> es[i].0 != es[j].0
  }

  function Find(es: Entries, key: Key): (i: nat)
    ensures i <= |es| && (i < |es| ==> es[i].0 == key) && forall j :: 0 <= j < i ==> es[j].0 != key
  {
    if es == [] || es[0].0 == key then 0 else 1 + Find(es[1..], key)
  }

  function Lookup(es: Entries, key: Key): Option<seq<int>> {
    var i := Find(es, key);
    if i < |es| then Some(es[i].1) else None
  }

  function Without(es: Entries, key: Key): Entries {
    var i := Find(es, key);
    if i < |es| then es[..i] + es[i + 1..] else es
  }

  /** Dropping the oldest until the rest fits. */
  function Evicted(es: Entries, maxTokens: nat): Entries {
    if Fits(es, maxTokens) || es == [] then es else Evicted(es[1..], maxTokens)
  }

  /** What is left is the longest recency suffix that fits. */
  lemma {:induction false} EvictedIsLongest(es: Entries, maxTokens: nat)
    ensures var e := Evicted(es, maxTokens);
            && Fits(e, maxTokens) && |e| <= |es| && e == es[|es| - |e|..]
            && forall k :: 0 <= k < |es| - |e| ==> !Fits(es[k..], maxTokens)
  {
    if !Fits(es, maxTokens) && es != [] {
      EvictedIsLongest(es[1..], maxTokens);
      var e := Evicted(es, maxTokens);
      forall k | 0 <= k < |es| - |e|
        ensures !Fits(es[k..], maxTokens)
      {
        if k > 0 {
          assert es[k..] == es[1..][k - 1..];
        }
      }
    }
  }

  /* ---- the two operations ---- */

  datatype Op = Get(key: Key) | Put(key: Key, ids: seq<int>)

  predicate Int32(ids: seq<int>) {
    forall i :: 0 <= i < |ids| ==> -2147483648 <= ids[i] < 2147483648
  }

  /** A put is dropped when it could never fit, or when its ids do not fit an int32 array. */
  predicate Accepts(op: Op, maxTokens: nat) {
    op.Put? && |op.ids| <= maxTokens && Int32(op.ids)
  }

  function Used(es: Entries, key: Key): Entries {
    match Lookup(es, key)
    case None => es
    case Some(ids) => Without(es, key) + [(key, ids)]
  }

  function Step(es: Entries, op: Op, maxTokens: nat): Entries {
    match op
    case Get(key) => Used(es, key)
    case Put(key, ids) => if Accepts(op, maxTokens) then Evicted(Without(es, key) + [(key, ids)], maxTokens) else es
  }

  class Memo {
    const maxTokens: nat
    var entries: Entries
    var storedTokens: nat
    var hits: nat
    var misses: nat

    ghost predicate Valid()
      reads this
    {
      Distinct(entries) && storedTokens == Total(entries) && Fits(entries, maxTokens)
    }

    constructor (maxTokens: int)
      ensures Valid() && entries == [] && this.maxTokens == if maxTokens < 1 then 1 else maxTokens
    {
      this.maxTokens := if maxTokens < 1 then 1 else maxTokens;
      entries, storedTokens, hits, misses := [], 0, 0, 0;
    }

    /** A hit moves the entry to the recent end. */
    method Get(key: Key) returns (ids: Option<seq<int>>)
      requires Valid()
      modifies this
      ensures Valid() && ids == old(Lookup(entries, key)) && entries == Step(old(entries), Op.Get(key), maxTokens)
      ensures hits + misses == old(hits) + old(misses) + 1 && (ids.Some? <==> hits == old(hits) + 1)
    {
      var i := Find(entries, key);
      if i == |entries| {
        misses := misses + 1;
        return None;
      }
      ids := Some(entries[i].1);
      ghost var before := entries;
      WithoutKeeps(entries, key);
      TotalAppend(Without(entries, key), [entries[i]]);
      entries := entries[..i] + entries[i + 1..] + [entries[i]];
      hits := hits + 1;
      assert entries == Without(before, key) + [(key, before[i].1)];
    }

    /** An accepted put is the most recent entry, and only the oldest ones make room for it. */
    method Put(key: Key, ids: seq<int>)
      requires Valid()
      modifies this
      ensures Valid() && entries == Step(old(entries), Op.Put(key, ids), maxTokens)
      ensures Accepts(Op.Put(key, ids), maxTokens) ==> Lookup(entries, key) == Some(ids)
      ensures hits == old(hits) && misses == old(misses)
    {
      if |ids| > maxTokens {
        return;
      }
      if !Int32(ids) {
        return;
      }
      ghost var rest := Without(entries, key);
      WithoutKeeps(entries, key);
      Forget(key);
      entries := entries + [(key, ids)];
      storedTokens := storedTokens + |ids|;
      TotalAppend(rest, [(key, ids)]);
      EvictToBounds();
      NewestStays(rest, key, ids, maxTokens);
    }

    method Forget(key: Key)
      requires Distinct(entries) && storedTokens == Total(entries)
      modifies this`entries, this`storedTokens
      ensures entries == Without(old(entries), key) && Distinct(entries) && storedTokens == Total(entries)
    {
      WithoutKeeps(entries, key);
      var i := Find(entries, key);
      if i < |entries| {
        storedTokens := storedTokens - |entries[i].1|;
        entries := entries[..i] + entries[i + 1..];
      }
    }

    method EvictToBounds()
      requires Distinct(entries) && storedTokens == Total(entries)
      modifies this`entries, this`storedTokens
      ensures entries == Evicted(old(entries), maxTokens) && Valid()
    {
      while storedTokens > maxTokens || |entries| > MAX_ENTRIES
        invariant Distinct(entries) && storedTokens == Total(entries)
        invariant Evicted(entries, maxTokens) == Evicted(old(entries), maxTokens)
        decreases |entries|
      {
        storedTokens := storedTokens - |entries[0].1|;
        entries := entries[1..];
      }
    }
  }

  lemma WithoutKeeps(es: Entries, key: Key)
    requires Distinct(es)
    ensures var w, i := Without(es, key), Find(es, key);
            && Distinct(w) && (forall j :: 0 <= j < |w| ==> w[j].0 != key)
            && Total(w) + (if i < |es| then |es[i].1| else 0) == Total(es)
            && |w| <= |es| && forall e :: e in w ==> e in es
  {
    var w, i := Without(es, key), Find(es, key);
    if i < |es| {
      WithoutTotal(es, i);
      assert forall j :: 0 <= j < |w| ==> w[j] == es[if j < i then j else j + 1];
      forall j, k | 0 <= j < k < |w|
        ensures w[j].0 != w[k].0
      {
        assert w[j] == es[if j < i then j else j + 1] && w[k] == es[if k < i then k else k + 1];
      }
    }
  }

  lemma WithoutTotal(es: Entries, i: nat)
    requires i < |es|
    ensures Total(es[..i] + es[i + 1..]) + |es[i].1| == Total(es)
  {
    assert es == es[..i] + ([es[i]] + es[i + 1..]);
    TotalAppend(es[..i], [es[i]] + es[i + 1..]);
    TotalAppend([es[i]], es[i + 1..]);
    TotalAppend(es[..i], es[i + 1..]);
  }

  lemma LastFound(es: Entries, key: Key)
    requires es != [] && es[|es| - 1].0 == key && forall j :: 0 <= j < |es| - 1 ==> es[j].0 != key
    ensures Lookup(es, key) == Some(es[|es| - 1].1)
  {
  }

  lemma NewestStays(rest: Entries, key: Key, ids: seq<int>, maxTokens: nat)
    requires |ids| <= maxTokens && forall j :: 0 <= j < |rest| ==> rest[j].0 != key
    ensures Lookup(Evicted(rest + [(key, ids)], maxTokens), key) == Some(ids)
  {
    var all := rest + [(key, ids)];
    EvictedIsLongest(all, maxTokens);
    var e := Evicted(all, maxTokens);
    assert all[|rest|..] == [(key, ids)];
    assert Fits(all[|rest|..], maxTokens);
    LastFound(e, key);
  }

  /** A put that can fit leaves the old entries less its key's, in their order, and then the new one, of
      which as many of the oldest have gone as must for both bounds to hold and no more. */
  lemma PutLeaves(es: Entries, key: Key, ids: seq<int>, maxTokens: nat) returns (i: nat, n: nat)
    requires |ids| <= maxTokens && forall j :: 0 <= j < |ids| ==> -2147483648 <= ids[j] < 2147483648
    ensures i <= |es| && (forall j :: 0 <= j < i ==> es[j].0 != key) && (i < |es| ==> es[i].0 == key)
    ensures var all := (if i < |es| then es[..i] + es[i + 1..] else es) + [(key, ids)];
            && n < |all| && Step(es, Op.Put(key, ids), maxTokens) == all[n..]
            && Total(all[n..]) <= maxTokens && |all[n..]| <= 4096
            && forall k :: 0 <= k < n ==> maxTokens < Total(all[k..]) || 4096 < |all[k..]|
  {
    i := Find(es, key);
    var rest := Without(es, key);
    var all := rest + [(key, ids)];
    EvictedIsLongest(all, maxTokens);
    n := |all| - |Evicted(all, maxTokens)|;
    assert all[|rest|..] == [(key, ids)];
    assert Fits(all[|rest|..], maxTokens);
  }

  /** A put that cannot leaves the entries alone. */
  lemma PutRefused(es: Entries, key: Key, ids: seq<int>, maxTokens: nat)
    requires maxTokens < |ids| || exists j :: 0 <= j < |ids| && !(-2147483648 <= ids[j] < 2147483648)
    ensures Step(es, Op.Put(key, ids), maxTokens) == es
  {
  }

  /** A get moves its entry to the recent end and loses none. */
  lemma GetMoves(es: Entries, key: Key, maxTokens: nat) returns (i: nat)
    ensures i <= |es| && (forall j :: 0 <= j < i ==> es[j].0 != key) && (i < |es| ==> es[i].0 == key)
    ensures Step(es, Op.Get(key), maxTokens) == if i < |es| then es[..i] + es[i + 1..] + [es[i]] else es
  {
    i := Find(es, key);
  }

  /* ---- whole traces ---- */

  function After(ops: seq<Op>, n: nat, maxTokens: nat): Entries
    requires n <= |ops|
  {
    if n == 0 then [] else Step(After(ops, n - 1, maxTokens), ops[n - 1], maxTokens)
  }

  /** The ids of the last accepted put of a key among the first `n` operations. */
  function LastPut(ops: seq<Op>, n: nat, key: Key, maxTokens: nat): Option<seq<int>>
    requires n <= |ops|
  {
    if n == 0 then None
    else if Accepts(ops[n - 1], maxTokens) && ops[n - 1].key == key then Some(ops[n - 1].ids)
    else LastPut(ops, n - 1, key, maxTokens)
  }

  /** What one operation does to the entries: the bounds and distinctness stay, the used key comes last,
      and the others keep their order. */
  lemma StepKeeps(es: Entries, op: Op, maxTokens: nat)
    requires Distinct(es) && Fits(es, maxTokens)
    ensures var es' := Step(es, op, maxTokens); Distinct(es') && Fits(es', maxTokens)
  {
    WithoutKeeps(es, op.key);
    var w := Without(es, op.key);
    if op.Get? {
      if Lookup(es, op.key).Some? {
        TotalAppend(w, [(op.key, Lookup(es, op.key).value)]);
      }
    } else if Accepts(op, maxTokens) {
      EvictedIsLongest(w + [(op.key, op.ids)], maxTokens);
    }
  }

  /** Every entry afterwards is the used one or an old one of another key. */
  lemma StepEntries(es: Entries, op: Op, maxTokens: nat, e: (Key, seq<int>))
    requires Distinct(es) && e in Step(es, op, maxTokens)
    ensures e in es || (Accepts(op, maxTokens) && e == (op.key, op.ids))
    ensures Accepts(op, maxTokens) && e.0 == op.key ==> e.1 == op.ids
  {
    WithoutKeeps(es, op.key);
    var w := Without(es, op.key);
    if op.Get? {
      if Lookup(es, op.key).Some? {
        assert (op.key, Lookup(es, op.key).value) == es[Find(es, op.key)];
      }
    } else if Accepts(op, maxTokens) {
      EvictedIsLongest(w + [(op.key, op.ids)], maxTokens);
      assert e in w + [(op.key, op.ids)];
      assert e in w ==> exists j :: 0 <= j < |w| && w[j] == e;
    }
  }

  /** After any trace both bounds hold, keys are distinct, and every entry is the last accepted value
      of its key. */
  lemma {:induction false} MemoAgreesWithMap(ops: seq<Op>, n: nat, maxTokens: nat)
    requires n <= |ops| && maxTokens >= 1
    ensures var es := After(ops, n, maxTokens);
            && Distinct(es) && Fits(es, maxTokens)
            && forall e :: e in es ==> LastPut(ops, n, e.0, maxTokens) == Some(e.1)
  {
    hide Step, Accepts;
    if n > 0 {
      MemoAgreesWithMap(ops, n - 1, maxTokens);
      var es, op := After(ops, n - 1, maxTokens), ops[n - 1];
      StepKeeps(es, op, maxTokens);
      forall e | e in After(ops, n, maxTokens)
        ensures LastPut(ops, n, e.0, maxTokens) == Some(e.1)
      {
        StepEntries(es, op, maxTokens, e);
      }
    }
  }

  /** So a get answers with nothing or with the last accepted value. */
  lemma HitIsLastPut(ops: seq<Op>, n: nat, key: Key, maxTokens: nat)
    requires n <= |ops| && maxTokens >= 1
    ensures var es := After(ops, n, maxTokens); Lookup(es, key).Some? ==>
              Lookup(es, key) == LastPut(ops, n, key, maxTokens)
  {
    MemoAgreesWithMap(ops, n, maxTokens);
    var es := After(ops, n, maxTokens);
    if Lookup(es, key).Some? {
      assert es[Find(es, key)] in es;
    }
  }

  /** The last operation, among the first `n`, that used the key. */
  function LastUse(ops: seq<Op>, n: nat, key: Key, maxTokens: nat): (u: nat)
    requires n <= |ops|
    ensures u <= n
  {
    if n == 0 then 0
    else if ops[n - 1].key == key && (ops[n - 1].Get? || Accepts(ops[n - 1], maxTokens)) then n
    else LastUse(ops, n - 1, key, maxTokens)
  }

  ghost predicate ByRecency(es: Entries, ops: seq<Op>, n: nat, maxTokens: nat)
    requires n <= |ops|
  {
    forall i, j :: 0 <= i < j < |es| ==> LastUse(ops, n, es[i].0, maxTokens) < LastUse(ops, n, es[j].0, maxTokens)
  }

  /** Moving or adding the used key at the end keeps the order of last use. */
  lemma UsedIsNewest(es: Entries, ops: seq<Op>, n: nat, maxTokens: nat, ids: seq<int>)
    requires 0 < n <= |ops| && Distinct(es) && ByRecency(es, ops, n - 1, maxTokens)
    requires ops[n - 1].Get? || Accepts(ops[n - 1], maxTokens)
    ensures ByRecency(Without(es, ops[n - 1].key) + [(ops[n - 1].key, ids)], ops, n, maxTokens)
  {
    hide Accepts;
    var key := ops[n - 1].key;
    var w, k := Without(es, key), Find(es, key);
    WithoutKeeps(es, key);
    var all := w + [(key, ids)];
    forall i, j | 0 <= i < j < |all|
      ensures LastUse(ops, n, all[i].0, maxTokens) < LastUse(ops, n, all[j].0, maxTokens)
    {
      assert all[i] == w[i] && w[i].0 != key;
      assert LastUse(ops, n, w[i].0, maxTokens) == LastUse(ops, n - 1, w[i].0, maxTokens);
      if j < |w| {
        assert all[j] == w[j] && w[j].0 != key;
        assert w[i] == es[if k <= i then i + 1 else i] && w[j] == es[if k <= j then j + 1 else j];
      }
    }
  }

  /** The entries stand in the order of their last use, so eviction takes the least recently used. */
  lemma {:induction false} EntriesByRecency(ops: seq<Op>, n: nat, maxTokens: nat)
    requires n <= |ops| && maxTokens >= 1
    ensures ByRecency(After(ops, n, maxTokens), ops, n, maxTokens)
  {
    hide Int32, Without, Total;
    if n > 0 {
      EntriesByRecency(ops, n - 1, maxTokens);
      MemoAgreesWithMap(ops, n - 1, maxTokens);
      var es, op := After(ops, n - 1, maxTokens), ops[n - 1];
      if op.Get? && Lookup(es, op.key).Some? {
        UsedIsNewest(es, ops, n, maxTokens, Lookup(es, op.key).value);
      } else if Accepts(op, maxTokens) {
        UsedIsNewest(es, ops, n, maxTokens, op.ids);
        var all := Without(es, op.key) + [(op.key, op.ids)];
        EvictedIsLongest(all, maxTokens);
        SuffixByRecency(all, |all| - |Evicted(all, maxTokens)|, ops, n, maxTokens);
      } else {
        UnusedKeepsOrder(es, ops, n, maxTokens);
      }
    }
  }

  lemma SuffixByRecency(es: Entries, k: nat, ops: seq<Op>, n: nat, maxTokens: nat)
    requires k <= |es| && n <= |ops| && ByRecency(es, ops, n, maxTokens)
    ensures ByRecency(es[k..], ops, n, maxTokens)
  {
  }

  lemma UnusedKeepsOrder(es: Entries, ops: seq<Op>, n: nat, maxTokens: nat)
    requires 0 < n <= |ops| && ByRecency(es, ops, n - 1, maxTokens)
    requires !Accepts(ops[n - 1], maxTokens)
    requires ops[n - 1].Get? ==> Lookup(es, ops[n - 1].key).None?
    ensures ByRecency(es, ops, n, maxTokens)
  {
    var key := ops[n - 1].key;
    assert ops[n - 1].Get? ==> Find(es, key) == |es|;
    forall i, j | 0 <= i < j < |es|
      ensures LastUse(ops, n, es[i].0, maxTokens) < LastUse(ops, n, es[j].0, maxTokens)
    {
      assert LastUse(ops, n, es[i].0, maxTokens) == LastUse(ops, n - 1, es[i].0, maxTokens);
      assert LastUse(ops, n, es[j].0, maxTokens) == LastUse(ops, n - 1, es[j].0, maxTokens);
    }
  }
}
