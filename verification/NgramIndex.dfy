/** The copy lane's n-gram index over the prompt, and the token view it reads. */
module NgramIndex {
  import opened Wrappers
  import opened TargetModel

  type Gram = seq<Token>

  /** The gram that ends at position `e`. */
  function GramAt(history: seq<Token>, n: nat, e: nat): Gram
    requires n <= e <= |history|
  {
    history[e - n..e]
  }

  /** The end positions, ascending and up to `upto`, of a gram. */
  function Occurrences(history: seq<Token>, n: nat, upto: nat, gram: Gram): (r: seq<nat>)
    requires upto <= |history|
  {
    if upto < n || upto == 0 then []
    else
      var r := Occurrences(history, n, upto - 1, gram);
      if GramAt(history, n, upto) == gram then r + [upto] else r
  }

  /** They are exactly the positions where the gram ends, in order. */
  lemma {:induction false} OccurrencesExact(history: seq<Token>, n: nat, upto: nat, gram: Gram)
    requires n >= 1 && upto <= |history|
    ensures forall e: nat :: e in Occurrences(history, n, upto, gram) <==>
              n <= e <= upto && GramAt(history, n, e) == gram
  {
    hide GramAt;
    if upto >= n {
      OccurrencesExact(history, n, upto - 1, gram);
    }
  }

  lemma {:induction false} OccurrencesAscend(history: seq<Token>, n: nat, upto: nat, gram: Gram)
    requires n >= 1 && upto <= |history|
    ensures forall e :: e in Occurrences(history, n, upto, gram) ==> n <= e <= upto
    ensures Ascending(Occurrences(history, n, upto, gram))
  {
    hide GramAt;
    if upto >= n {
      OccurrencesAscend(history, n, upto - 1, gram);
      AscendingSnoc(Occurrences(history, n, upto - 1, gram), upto);
    }
  }

  predicate Ascending(r: seq<nat>) {
    forall i, j :: 0 <= i < j < |r| ==> r[i] < r[j]
  }

  lemma AscendingSnoc(r: seq<nat>, e: nat)
    requires Ascending(r) && forall x :: x in r ==> x < e
    ensures Ascending(r + [e])
  {
    assert forall i :: 0 <= i < |r| ==> r[i] in r;
  }

  lemma LastAscending(r: seq<nat>, k: nat, n: nat)
    requires Ascending(r) && forall x :: x in r ==> n <= x
    ensures var l := LastOf(r, k); Ascending(l) && forall i :: 0 <= i < |l| ==> n <= l[i]
  {
    var l := LastOf(r, k);
    assert forall i :: 0 <= i < |l| ==> l[i] == r[|r| - |l| + i] && l[i] in r;
  }

  lemma GramPrefix(a: seq<Token>, b: seq<Token>, n: nat, e: nat)
    requires a <= b && n <= e <= |a|
    ensures GramAt(a, n, e) == GramAt(b, n, e)
  {
    assert a == b[..|a|];
    assert b[..|a|][e - n..e] == b[e - n..e];
  }

  /** A longer history has the same occurrences within the shorter one. */
  lemma {:induction false} OccurrencesExtend(a: seq<Token>, b: seq<Token>, n: nat, upto: nat, gram: Gram)
    requires a <= b && upto <= |a|
    ensures Occurrences(b, n, upto, gram) == Occurrences(a, n, upto, gram)
  {
    hide GramAt;
    if upto >= n && upto > 0 {
      OccurrencesExtend(a, b, n, upto - 1, gram);
      GramPrefix(a, b, n, upto);
    }
  }

  /** How many tokens beyond the gram the match at `pos` runs backwards, from `ext` on, up to a cap. */
  function Extension(history: seq<Token>, n: nat, cap: int, pos: nat, ext: nat): (r: nat)
    requires n + ext <= pos < |history|
    ensures r >= ext
    decreases pos - ext
  {
    if ext < cap && pos - n - 1 - ext >= 0 && history[pos - n - 1 - ext] == history[|history| - n - 1 - ext]
    then Extension(history, n, cap, pos, ext + 1) else ext
  }

  /** The `j`-th token before the gram at `pos` is the one before the history's last gram. */
  predicate Agrees(history: seq<Token>, n: nat, pos: nat, j: nat)
    requires n + j < pos < |history|
  {
    history[pos - n - 1 - j] == history[|history| - n - 1 - j]
  }

  /** The `k` tokens before the gram at `pos` are those before the history's last gram. */
  predicate Matches(history: seq<Token>, n: nat, pos: nat, k: nat)
    requires n <= pos < |history|
  {
    n + k <= pos && forall j :: 0 <= j < k ==> Agrees(history, n, pos, j)
  }

  lemma {:induction false} ExtensionIsMatch(history: seq<Token>, n: nat, cap: int, pos: nat, ext: nat)
    requires n + ext <= pos < |history| && Matches(history, n, pos, ext)
    ensures var r := Extension(history, n, cap, pos, ext);
            && Matches(history, n, pos, r)
            && (r < cap ==> !Matches(history, n, pos, r + 1))
            && (r > ext ==> r <= cap)
    decreases pos - ext
  {
    if ext < cap && n + ext < pos && Agrees(history, n, pos, ext) {
      ExtensionIsMatch(history, n, cap, pos, ext + 1);
    }
  }

  /** The extension is the longest match up to the cap. */
  lemma ExtensionIsLongest(history: seq<Token>, n: nat, cap: int, pos: nat, k: nat)
    requires n <= pos < |history|
    ensures k <= Extension(history, n, cap, pos, 0) <==> k == 0 || (k <= cap && Matches(history, n, pos, k))
  {
    ExtensionIsMatch(history, n, cap, pos, 0);
  }

  /** A candidate with extension `k` is followed by what followed the last `n + k` tokens. */
  lemma MatchIsSuffix(history: seq<Token>, n: nat, pos: nat, k: nat)
    requires n <= pos < |history| && GramAt(history, n, pos) == GramAt(history, n, |history|)
    requires Matches(history, n, pos, k)
    ensures history[pos - n - k..pos] == history[|history| - n - k..]
  {
    var a, b := history[pos - n - k..pos], history[|history| - n - k..];
    forall i | 0 <= i < n + k
      ensures a[i] == b[i]
    {
      if i < k {
        assert Agrees(history, n, pos, k - 1 - i);
      } else {
        assert GramAt(history, n, pos)[i - k] == GramAt(history, n, |history|)[i - k];
      }
    }
  }

  /** Python's `xs[-k:]`. */
  function LastOf<T>(xs: seq<T>, k: nat): seq<T> {
    if k == 0 || k >= |xs| then xs else xs[|xs| - k..]
  }

  /** Of ascending positions these are the most recent: none later than one of them is left out, and there
      are as many as asked for, or all. */
  lemma LastAreLatest(all: seq<nat>, k: nat)
    requires Ascending(all)
    ensures var last := LastOf(all, k);
            && (forall x :: x in last ==> x in all)
            && (forall x, y :: x in last && y in all && x < y ==> y in last)
            && |last| == if k == 0 || |all| < k then |all| else k
  {
    var d := |all| - |LastOf(all, k)|;
    assert LastOf(all, k) == all[d..];
    hide LastOf, Ascending;
    forall x, y | x in all[d..] && y in all && x < y
      ensures y in all[d..]
    {
      LaterStays(all, d, x, y);
    }
  }

  lemma LaterStays(all: seq<nat>, d: nat, x: nat, y: nat)
    requires Ascending(all) && d <= |all| && x in all[d..] && y in all && x < y
    ensures y in all[d..]
  {
    var i :| 0 <= i < |all[d..]| && all[d..][i] == x;
    var j :| 0 <= j < |all| && all[j] == y;
    OrderReflects(all, d + i, j);
    assert all[d..][j - d] == y;
  }

  lemma OrderReflects(all: seq<nat>, a: nat, b: nat)
    requires Ascending(all) && a < |all| && b < |all| && all[a] < all[b]
    ensures a < b
  {
  }

  predicate Eligible(history: seq<Token>, maxPos: Option<nat>, pos: nat) {
    pos < |history| && (maxPos.Some? ==> pos < maxPos.value)
  }

  /** Among the eligible candidates, the longest extension and then the most recent. */
  ghost predicate BestOf(history: seq<Token>, n: nat, cap: int, maxPos: Option<nat>, cands: seq<nat>,
                         best: Option<(nat, nat)>)
    requires forall i :: 0 <= i < |cands| ==> n <= cands[i]
  {
    match best
    case None => forall i :: 0 <= i < |cands| ==> !Eligible(history, maxPos, cands[i])
    case Some(b) =>
      && b.0 in cands && Eligible(history, maxPos, b.0) && b.1 == Extension(history, n, cap, b.0, 0)
      && forall i :: 0 <= i < |cands| && Eligible(history, maxPos, cands[i]) ==>
           var e := Extension(history, n, cap, cands[i], 0);
           e < b.1 || (e == b.1 && cands[i] <= b.0)
  }

  lemma BestIsUnique(history: seq<Token>, n: nat, cap: int, maxPos: Option<nat>, cands: seq<nat>, a: Option<(nat, nat)>,
                     b: Option<(nat, nat)>)
    requires forall i :: 0 <= i < |cands| ==> n <= cands[i]
    requires BestOf(history, n, cap, maxPos, cands, a) && BestOf(history, n, cap, maxPos, cands, b)
    ensures a == b
  {
    if a.Some? {
      var i :| 0 <= i < |cands| && cands[i] == a.value.0;
    }
    if b.Some? {
      var i :| 0 <= i < |cands| && cands[i] == b.value.0;
    }
  }

  /** One more candidate, older than the others. */
  lemma BestStep(history: seq<Token>, n: nat, cap: int, maxPos: Option<nat>, pos: nat, rest: seq<nat>,
                 best: Option<(nat, nat)>)
    requires n <= pos && (forall i :: 0 <= i < |rest| ==> pos < rest[i]) && BestOf(history, n, cap, maxPos, rest, best)
    ensures var best' := if !Eligible(history, maxPos, pos) then best
                         else
                           var ext := Extension(history, n, cap, pos, 0);
                           if best.None? || ext > best.value.1 then Some((pos, ext)) else best;
            BestOf(history, n, cap, maxPos, [pos] + rest, best')
  {
    hide Extension;
    var all := [pos] + rest;
    assert forall i :: 0 <= i < |all| ==> all[i] == if i == 0 then pos else rest[i - 1];
    assert pos == all[0];
  }

  /** Nothing older beats a full extension. */
  lemma CapIsBest(history: seq<Token>, n: nat, cap: int, maxPos: Option<nat>, older: seq<nat>, rest: seq<nat>,
                  b: (nat, nat))
    requires (forall i :: 0 <= i < |older| ==> n <= older[i] < b.0) && (forall i :: 0 <= i < |rest| ==> n <= rest[i])
    requires BestOf(history, n, cap, maxPos, rest, Some(b)) && b.1 == cap
    ensures forall i :: 0 <= i < |older + rest| ==> n <= (older + rest)[i]
    ensures BestOf(history, n, cap, maxPos, older + rest, Some(b))
  {
    forall i | 0 <= i < |older| && Eligible(history, maxPos, older[i])
      ensures Extension(history, n, cap, older[i], 0) <= cap
    {
      ExtensionIsMatch(history, n, cap, older[i], 0);
    }
  }

  /* ---- the index ---- */

  type Grams = map<Gram, seq<nat>>

  /** Exactly the grams that end up to `upto` are filed, each under all its positions in order. */
  ghost predicate Filed(grams: Grams, history: seq<Token>, n: nat, upto: nat)
    requires upto <= |history|
  {
    forall gram: Gram :: FiledAt(grams, history, n, upto, gram)
  }

  ghost predicate FiledAt(grams: Grams, history: seq<Token>, n: nat, upto: nat, gram: Gram)
    requires upto <= |history|
  {
    var occ := Occurrences(history, n, upto, gram);
    if gram in grams then grams[gram] == occ && occ != [] else occ == []
  }

  lemma FiledStep(grams: Grams, history: seq<Token>, n: nat, e: nat)
    requires 1 <= n <= e <= |history| && Filed(grams, history, n, e - 1)
    ensures var g := GramAt(history, n, e);
            Filed(grams[g := (if g in grams then grams[g] else []) + [e]], history, n, e)
  {
    hide GramAt;
    var g := GramAt(history, n, e);
    var more := grams[g := (if g in grams then grams[g] else []) + [e]];
    forall gram: Gram
      ensures FiledAt(more, history, n, e, gram)
    {
      assert FiledAt(grams, history, n, e - 1, gram);
    }
  }

  /** The positions between the indexed part and the first one that can end a gram hold none. */
  lemma FiledFrom(grams: Grams, before: seq<Token>, history: seq<Token>, n: nat, upto: nat)
    requires n >= 1 && before <= history && Filed(grams, before, n, |before|)
    requires |before| <= upto <= |history| && (upto == |before| || upto < n)
    ensures Filed(grams, history, n, upto)
  {
    forall gram: Gram
      ensures FiledAt(grams, history, n, upto, gram)
    {
      assert FiledAt(grams, before, n, |before|, gram);
      OccurrencesExtend(before, history, n, |before|, gram);
    }
  }

  lemma FiledUnique(a: Grams, b: Grams, history: seq<Token>, n: nat, upto: nat)
    requires upto <= |history| && Filed(a, history, n, upto) && Filed(b, history, n, upto)
    ensures a == b
  {
    forall gram | gram in a
      ensures gram in b && a[gram] == b[gram]
    {
      assert FiledAt(a, history, n, upto, gram) && FiledAt(b, history, n, upto, gram);
    }
    forall gram | gram in b
      ensures gram in a
    {
      assert FiledAt(a, history, n, upto, gram) && FiledAt(b, history, n, upto, gram);
    }
  }

  class Index {
    const ngMin: nat
    const ngMax: nat
    const maxCandidates: nat
    var grams: map<Gram, seq<nat>>
    var indexed: nat

    constructor (ngMin: nat, ngMax: nat, maxCandidates: nat)
      ensures this.ngMin == ngMin && this.ngMax == ngMax && this.maxCandidates == maxCandidates
      ensures Indexes([])
    {
      this.ngMin, this.ngMax, this.maxCandidates := ngMin, ngMax, maxCandidates;
      grams, indexed := map[], 0;
    }

    ghost predicate Indexes(history: seq<Token>)
      reads this
    {
      indexed == |history| && Filed(grams, history, ngMin, |history|)
    }

    /** Filing the grams that end past the indexed part leaves the index one sync of the whole history
        would build. */
    method Sync(ghost before: seq<Token>, history: seq<Token>)
      requires ngMin >= 1 && Indexes(before) && before <= history
      modifies this`grams, this`indexed
      ensures Indexes(history)
    {
      hide Filed;
      var from := if indexed + 1 < ngMin then ngMin else indexed + 1;
      FiledFrom(grams, before, history, ngMin, if from - 1 <= |history| then from - 1 else |history|);
      var e := from;
      while e <= |history|
        invariant from <= e && (from <= |history| + 1 ==> e <= |history| + 1)
        invariant Filed(grams, history, ngMin, if e <= |history| + 1 then e - 1 else |history|)
        decreases |history| + 1 - e
      {
        FiledStep(grams, history, ngMin, e);
        var gram := history[e - ngMin..e];
        grams := grams[gram := (if gram in grams then grams[gram] else []) + [e]];
        e := e + 1;
      }
      indexed := |history|;
    }

    /** Two indexes of one history hold the same grams, however often they were synced. */
    lemma IndexIsUnique(other: Index, history: seq<Token>)
      requires ngMin == other.ngMin && Indexes(history) && other.Indexes(history)
      ensures grams == other.grams && indexed == other.indexed
    {
      FiledUnique(grams, other.grams, history, ngMin, |history|);
    }

    /** `_find_exact`: with the prompt indexed and a history extending it, the best of the most recent
        occurrences of the history's last gram. */
    method FindExact(ghost prompt: seq<Token>, history: seq<Token>, maxPos: Option<nat>)
      returns (best: Option<(nat, nat)>)
      requires ngMin >= 1 && Indexes(prompt) && prompt <= history
      ensures |history| < ngMin + 1 ==> best == None
      ensures |history| >= ngMin + 1 ==>
                var cands := LastOf(Occurrences(history, ngMin, |prompt|, GramAt(history, ngMin, |history|)),
                                    maxCandidates);
                && (forall i :: 0 <= i < |cands| ==> ngMin <= cands[i])
                && BestOf(history, ngMin, ngMax - ngMin, maxPos, cands, best)
                && match best
                   case None =>
                     forall c :: c in cands ==> |history| <= c || (maxPos.Some? && maxPos.value <= c)
                   case Some((pos, ext)) =>
                     && pos in cands && pos < |history| && (maxPos.Some? ==> pos < maxPos.value)
                     && ext == Extension(history, ngMin, ngMax - ngMin, pos, 0)
                     && forall c :: c in cands && c < |history| && (maxPos.Some? ==> c < maxPos.value) ==>
                          && ngMin <= c
                          && var e := Extension(history, ngMin, ngMax - ngMin, c, 0);
                             e < ext || (e == ext && c <= pos)
    {
      hide Filed, Extension, Occurrences;
      best := None;
      var l := |history|;
      if l < ngMin + 1 {
        return;
      }
      var gram := history[l - ngMin..];
      assert gram == GramAt(history, ngMin, l);
      OccurrencesExtend(prompt, history, ngMin, |prompt|, gram);
      OccurrencesAscend(history, ngMin, |prompt|, gram);
      LastAscending(Occurrences(history, ngMin, |prompt|, gram), maxCandidates, ngMin);
      FiledGram(grams, prompt, ngMin, gram);
      if gram !in grams {
        return;
      }
      best := Scan(history, LastOf(grams[gram], maxCandidates), maxPos);
    }

    /** The loop over the candidates, most recent first, keeping the best so far. */
    method Scan(history: seq<Token>, cands: seq<nat>, maxPos: Option<nat>) returns (best: Option<(nat, nat)>)
      requires (forall i :: 0 <= i < |cands| ==> ngMin <= cands[i]) && Ascending(cands)
      ensures BestOf(history, ngMin, ngMax - ngMin, maxPos, cands, best)
    {
      hide BestOf, Extension;
      var cap := ngMax - ngMin;
      best := None;
      NoneBest(history, ngMin, cap, maxPos);
      var i := |cands|;
      assert cands[i..] == [];
      while i > 0
        invariant 0 <= i <= |cands|
        invariant BestOf(history, ngMin, cap, maxPos, cands[i..], best)
      {
        i := i - 1;
        var pos := cands[i];
        assert cands[i..] == [pos] + cands[i + 1..];
        BestStep(history, ngMin, cap, maxPos, pos, cands[i + 1..], best);
        if pos < |history| && (maxPos.Some? ==> pos < maxPos.value) {
          var ext := ExtendBack(history, pos, cap);
          if best.None? || ext > best.value.1 {
            best := Some((pos, ext));
            if ext == cap {
              CapIsBest(history, ngMin, cap, maxPos, cands[..i], cands[i..], (pos, ext));
              assert cands[..i] + cands[i..] == cands;
              return;
            }
          }
        }
      }
      assert cands[0..] == cands;
    }

    /** The backward match of one candidate. */
    method ExtendBack(history: seq<Token>, pos: nat, cap: int) returns (ext: nat)
      requires ngMin <= pos < |history|
      ensures ext == Extension(history, ngMin, cap, pos, 0)
    {
      ext := 0;
      while ext < cap && pos - ngMin - 1 - ext >= 0
        && history[pos - ngMin - 1 - ext] == history[|history| - ngMin - 1 - ext]
        invariant ngMin + ext <= pos
        invariant Extension(history, ngMin, cap, pos, ext) == Extension(history, ngMin, cap, pos, 0)
      {
        ext := ext + 1;
      }
    }
  }

  lemma NoneBest(history: seq<Token>, n: nat, cap: int, maxPos: Option<nat>)
    ensures BestOf(history, n, cap, maxPos, [], None)
  {
  }

  lemma FiledGram(grams: Grams, history: seq<Token>, n: nat, gram: Gram)
    requires Filed(grams, history, n, |history|)
    ensures FiledAt(grams, history, n, |history|, gram)
  {
  }

  /* ---- prompt and generated tokens as one sequence ---- */

  datatype JoinedTokens = JoinedTokens(head: seq<Token>, tail: seq<Token>) {
    function Length(): nat {
      |head| + |tail|
    }

    /** Indexing with Python's negative indices; None is its `IndexError`. */
    function At(index: int): Option<Token> {
      var i := if index < 0 then index + Length() else index;
      if i < 0 || i >= Length() then None
      else if i < |head| then Some(head[i]) else Some(tail[i - |head|])
    }

    /** `[self[i] for i in range(start, stop, step)]`. */
    function Range(start: int, stop: int, step: int): seq<Option<Token>>
      requires step != 0
      decreases if step > 0 then stop - start else start - stop
    {
      if (step > 0 && start >= stop) || (step < 0 && start <= stop) then []
      else [At(start)] + Range(start + step, stop, step)
    }

    /** Reading a slice; None is Python's `ValueError` for a zero step. */
    function Slice(start: Option<int>, stop: Option<int>, step: Option<int>): Option<seq<Option<Token>>> {
      if step == Some(0) then None
      else
        var b := Bounds(start, stop, step, Length());
        Some(Range(b.0, b.1, b.2))
    }
  }

  /** `slice.indices`: absent bounds are the ends, negative ones count from the end, all are clamped. */
  function Bounds(start: Option<int>, stop: Option<int>, step: Option<int>, length: nat): (b: (int, int, int))
    requires step != Some(0)
    ensures b.2 != 0
    ensures if b.2 > 0 then 0 <= b.0 <= length && 0 <= b.1 <= length else -1 <= b.0 < length && -1 <= b.1 < length
  {
    var stride := if step.Some? then step.value else 1;
    var lower, upper := if stride < 0 then -1 else 0, if stride < 0 then length - 1 else length;
    var first := if start.Some? then Clamp(start.value, length, lower, upper) else if stride < 0 then upper else lower;
    var last := if stop.Some? then Clamp(stop.value, length, lower, upper) else if stride < 0 then lower else upper;
    (first, last, stride)
  }

  function Clamp(index: int, length: nat, lower: int, upper: int): (i: int)
    requires lower <= upper
    ensures lower <= i <= upper
  {
    var i := if index < 0 then index + length else index;
    if i < lower then lower else if i > upper then upper else i
  }

  /** The bounds case by case. */
  lemma BoundsAre(start: Option<int>, stop: Option<int>, step: Option<int>, length: nat)
    requires step != Some(0)
    ensures var (first, last, stride) := Bounds(start, stop, step, length);
            && stride == (if step.Some? then step.value else 1)
            && (stride > 0 && start.None? ==> first == 0) && (stride > 0 && stop.None? ==> last == length)
            && (stride < 0 && start.None? ==> first == length - 1) && (stride < 0 && stop.None? ==> last == -1)
            && (start.Some? ==> ClampedTo(first, start.value, length, stride))
            && (stop.Some? ==> ClampedTo(last, stop.value, length, stride))
  {
  }

  /** `i` is the index, counted from the end if negative, or the nearest bound of the stride. */
  predicate ClampedTo(i: int, index: int, length: nat, stride: int) {
    if stride > 0 then
      if index >= length then i == length else if index >= 0 then i == index
      else if index + length >= 0 then i == index + length else i == 0
    else
      if index >= length then i == length - 1 else if index >= 0 then i == index
      else if index + length >= 0 then i == index + length else i == -1
  }

  /** How many positions `range(start, stop, step)` has. */
  function RangeLength(start: int, stop: int, step: int): nat
    requires step != 0
  {
    if step > 0 then (if start < stop then (stop - start - 1) / step + 1 else 0)
    else (if stop < start then (start - stop - 1) / -step + 1 else 0)
  }

  function Nth(start: int, step: int, i: nat): int {
    start + i * step
  }

  /** The slice of a list by its definition: every step-th element from the first bound on. */
  function ListSlice(all: seq<Token>, start: Option<int>, stop: Option<int>, step: Option<int>): Option<seq<Token>> {
    if step == Some(0) then None
    else
      var b := Bounds(start, stop, step, |all|);
      Some(seq(RangeLength(b.0, b.1, b.2), i requires 0 <= i < RangeLength(b.0, b.1, b.2) =>
        RangeInside(b.0, b.1, b.2, |all|, i);
        all[Nth(b.0, b.2, i)]))
  }

  lemma RangeInside(start: int, stop: int, step: int, length: nat, i: nat)
    requires step != 0 && i < RangeLength(start, stop, step)
    requires if step > 0 then 0 <= start <= length && 0 <= stop <= length
             else -1 <= start < length && -1 <= stop < length
    ensures 0 <= Nth(start, step, i) < length
  {
    var stride := if step > 0 then step else -step;
    var span := if step > 0 then stop - start else start - stop;
    WithinSpan(span, stride, i);
    assert step < 0 ==> i * step == -(i * stride);
  }

  /** The i-th step of a range stays inside its span. */
  lemma WithinSpan(span: int, stride: int, i: nat)
    requires span > 0 && stride > 0 && i <= (span - 1) / stride
    ensures 0 <= i * stride < span
  {
    var q := (span - 1) / stride;
    assert q * stride <= span - 1;
    assert (q - i) * stride >= 0;
    assert q * stride == i * stride + (q - i) * stride;
  }

  lemma LengthStep(start: int, stop: int, step: int)
    requires step != 0 && RangeLength(start, stop, step) > 0
    ensures RangeLength(start, stop, step) == 1 + RangeLength(start + step, stop, step)
  {
    var stride := if step > 0 then step else -step;
    var span := if step > 0 then stop - start else start - stop;
    if span > stride {
      assert (span - 1) / stride == (span - 1 - stride) / stride + 1 by {
        DivStep(span - 1 - stride, stride);
      }
    } else {
      DivSmall(span - 1, stride);
    }
  }

  lemma DivStep(a: nat, stride: int)
    requires stride > 0
    ensures (a + stride) / stride == a / stride + 1
  {
    var q, r := a / stride, a % stride;
    assert a + stride == (q + 1) * stride + r;
    DivIs(a + stride, stride, q + 1, r);
  }

  lemma DivSmall(a: nat, stride: int)
    requires a < stride
    ensures a / stride == 0
  {
    DivIs(a, stride, 0, a);
  }

  lemma DivIs(a: nat, stride: int, q: int, r: int)
    requires 0 <= r < stride && a == q * stride + r
    ensures a / stride == q
  {
    assert a == (a / stride) * stride + a % stride;
    assert (a / stride - q) * stride == r - a % stride;
    MultipleIsFar(a / stride - q, stride);
  }

  lemma MultipleIsFar(d: int, n: int)
    requires n > 0
    ensures d >= 1 ==> d * n >= n
    ensures d <= -1 ==> d * n <= -n
  {
  }

  /** Reads agree with the concatenated list. */
  lemma JoinedAt(j: JoinedTokens, index: int)
    ensures var all := j.head + j.tail;
            j.At(index) == if 0 <= index < |all| then Some(all[index])
                           else if -|all| <= index < 0 then Some(all[|all| + index]) else None
  {
  }

  /** The i-th element of a range read is the element i steps on, for every step. */
  lemma {:induction false} JoinedRange(j: JoinedTokens, start: int, stop: int, step: int)
    requires step != 0
    ensures |j.Range(start, stop, step)| == RangeLength(start, stop, step)
    ensures forall i :: 0 <= i < RangeLength(start, stop, step) ==>
              j.Range(start, stop, step)[i] == j.At(Nth(start, step, i))
    decreases if step > 0 then stop - start else start - stop
  {
    if RangeLength(start, stop, step) > 0 {
      LengthStep(start, stop, step);
      JoinedRange(j, start + step, stop, step);
      forall i | 0 <= i < RangeLength(start, stop, step)
        ensures j.Range(start, stop, step)[i] == j.At(Nth(start, step, i))
      {
        if i > 0 {
          assert start + step + (i - 1) * step == start + i * step;
        }
      }
    }
  }

  /** For every pair of bounds, present or not, and every step, slicing is slicing the concatenated list:
      the same elements, none of them an `IndexError`, and a `ValueError` for the same step. */
  lemma JoinedSlice(j: JoinedTokens, start: Option<int>, stop: Option<int>, step: Option<int>)
    ensures var s, t := j.Slice(start, stop, step), ListSlice(j.head + j.tail, start, stop, step);
            && (s.None? <==> t.None?)
            && (s.Some? ==> |s.value| == |t.value| && forall i :: 0 <= i < |s.value| ==> s.value[i] == Some(t.value[i]))
  {
    hide Nth, RangeLength, Bounds, Clamp;
    if step != Some(0) {
      var b := Bounds(start, stop, step, j.Length());
      JoinedRead(j, b.0, b.1, b.2);
    }
  }

  lemma JoinedRead(j: JoinedTokens, start: int, stop: int, step: int)
    requires step != 0
    requires if step > 0 then 0 <= start <= j.Length() && 0 <= stop <= j.Length()
             else -1 <= start < j.Length() && -1 <= stop < j.Length()
    ensures var r, all := j.Range(start, stop, step), j.head + j.tail;
            && |r| == RangeLength(start, stop, step)
            && forall i :: 0 <= i < |r| ==> 0 <= Nth(start, step, i) < |all| && r[i] == Some(all[Nth(start, step, i)])
  {
    JoinedRange(j, start, stop, step);
    forall i | 0 <= i < RangeLength(start, stop, step)
      ensures 0 <= Nth(start, step, i) < |j.head + j.tail|
      ensures j.At(Nth(start, step, i)) == Some((j.head + j.tail)[Nth(start, step, i)])
    {
      RangeInside(start, stop, step, j.Length(), i);
      JoinedAt(j, Nth(start, step, i));
    }
  }
}
