/** Conversion of INT4 checkpoints to MLX affine weights: nibbles, permutation, transpose and repack. */
module Int4Weights {
  import opened Wrappers

  const UINT32: nat := 4294967296

  type Matrix<T> = seq<seq<T>>

  predicate IsMatrix<T>(m: Matrix<T>, rows: nat, cols: nat) {
    |m| == rows && forall r :: 0 <= r < rows ==> |m[r]| == cols
  }

  /* ---- words and nibbles ---- */

  /** The bits of an int32 as a uint32, by `view` or by `astype`. */
  function Unsigned(w: int): (u: nat)
    ensures u < UINT32
    ensures 0 <= w < 4294967296 ==> u == w
    ensures -2147483648 <= w < 0 ==> u == w + 4294967296
  {
    w % UINT32
  }

  /** `w >> (4 * i)`. */
  function Shr4(w: nat, i: nat): nat
    decreases i
  {
    if i == 0 then w else Shr4(w / 16, i - 1)
  }

  /** `v << (4 * i)`, not yet reduced to 32 bits. */
  function Shl4(v: nat, i: nat): nat {
    if i == 0 then v else 16 * Shl4(v, i - 1)
  }

  function Nibble(w: nat, i: nat): (v: nat)
    ensures v < 16
  {
    Shr4(w, i) % 16
  }

  lemma {:induction false} ShrStep(w: nat, i: nat)
    ensures Shr4(w, i) == 16 * Shr4(w, i + 1) + Nibble(w, i)
    decreases i
  {
    if i > 0 {
      ShrStep(w / 16, i - 1);
    }
  }

  /** A word is its eight nibbles, the lowest first. */
  lemma WordIsNibbles(w: nat)
    requires w < 4294967296
    ensures w == Nibble(w, 0) + 16 * Nibble(w, 1) + 256 * Nibble(w, 2) + 4096 * Nibble(w, 3) + 65536 * Nibble(w, 4)
                 + 1048576 * Nibble(w, 5) + 16777216 * Nibble(w, 6) + 268435456 * Nibble(w, 7)
  {
    assert Shr4(w, 0) == w;
    hide Shr4, Nibble;
    FourNibbles(w, 0);
    FourNibbles(w, 4);
  }

  lemma FourNibbles(w: nat, i: nat)
    ensures Shr4(w, i) == Nibble(w, i) + 16 * Nibble(w, i + 1) + 256 * Nibble(w, i + 2) + 4096 * Nibble(w, i + 3)
                            + 65536 * Shr4(w, i + 4)
  {
    hide Shr4, Nibble;
    ShrStep(w, i);
    ShrStep(w, i + 1);
    ShrStep(w, i + 2);
    ShrStep(w, i + 3);
  }

  /** `sum(values << shifts)` with the shifts starting at nibble `from`. */
  function SumShifted(vs: seq<nat>, from: nat): nat {
    if vs == [] then 0 else Shl4(vs[0], from) + SumShifted(vs[1..], from + 1)
  }

  function Pow16(n: nat): nat {
    if n == 0 then 1 else 16 * Pow16(n - 1)
  }

  predicate Nibbles(vs: seq<nat>) {
    forall i :: 0 <= i < |vs| ==> vs[i] < 16
  }

  lemma {:induction false} SumShiftedUp(vs: seq<nat>, from: nat)
    ensures SumShifted(vs, from + 1) == 16 * SumShifted(vs, from)
  {
    if vs != [] {
      SumShiftedUp(vs[1..], from + 1);
    }
  }

  /** A packed word fits its nibbles' width, and every nibble comes back. */
  lemma {:induction false} PackedNibbles(vs: seq<nat>)
    requires Nibbles(vs)
    ensures SumShifted(vs, 0) < Pow16(|vs|)
    ensures forall i :: 0 <= i < |vs| ==> Nibble(SumShifted(vs, 0), i) == vs[i]
  {
    if vs != [] {
      PackedNibbles(vs[1..]);
      SumShiftedUp(vs[1..], 0);
      var w, rest := SumShifted(vs, 0), SumShifted(vs[1..], 0);
      assert w == vs[0] + 16 * rest && w % 16 == vs[0] && w / 16 == rest;
      forall i | 0 <= i < |vs|
        ensures Nibble(w, i) == vs[i]
      {
        if i > 0 {
          assert Nibble(rest, i - 1) == vs[1..][i - 1];
        }
      }
    }
  }

  /** Eight nibbles stay below 2^32: the uint32 sum does not wrap. */
  lemma EightNibblesFit(vs: seq<nat>)
    requires Nibbles(vs) && |vs| == 8
    ensures SumShifted(vs, 0) < UINT32
  {
    PackedNibbles(vs);
    assert Pow16(8) == UINT32 by {
      assert Pow16(2) == 256 && Pow16(4) == 65536 && Pow16(6) == 16777216;
    }
  }

  /* ---- array shapes ---- */

  function Transpose<T>(m: Matrix<T>, rows: nat, cols: nat): (t: Matrix<T>)
    requires IsMatrix(m, rows, cols)
    ensures IsMatrix(t, cols, rows)
    ensures forall r, c :: 0 <= r < rows && 0 <= c < cols ==> t[c][r] == m[r][c]
  {
    seq(cols, c requires 0 <= c < cols => seq(rows, r requires 0 <= r < rows => m[r][c]))
  }

  /** `reshape` that joins the two leading axes of `[a][b]...`. */
  function Flatten<T>(m: seq<seq<T>>): seq<T> {
    if m == [] then [] else m[0] + Flatten(m[1..])
  }

  lemma {:induction false} FlattenAt<T>(m: seq<seq<T>>, k: nat)
    requires (forall i :: 0 <= i < |m| ==> |m[i]| == 8) && k < |m| * 8
    ensures |Flatten(m)| == |m| * 8 && Flatten(m)[k] == m[k / 8][k % 8]
    decreases |m|
  {
    FlattenLength(m);
    if k >= 8 {
      FlattenAt(m[1..], k - 8);
      assert (k - 8) / 8 == k / 8 - 1 && (k - 8) % 8 == k % 8;
    }
  }

  lemma {:induction false} FlattenLength<T>(m: seq<seq<T>>)
    requires forall i :: 0 <= i < |m| ==> |m[i]| == 8
    ensures |Flatten(m)| == |m| * 8
  {
    if m != [] {
      FlattenLength(m[1..]);
    }
  }

  /** `reshape` of the last axis into groups of eight. */
  function Grouped<T>(row: seq<T>): (g: seq<seq<T>>)
    requires |row| % 8 == 0
    ensures |g| == |row| / 8 && forall i :: 0 <= i < |g| ==> |g[i]| == 8 && g[i] == row[8 * i..8 * i + 8]
  {
    seq(|row| / 8, i requires 0 <= i < |row| / 8 => row[8 * i..8 * i + 8])
  }

  /* ---- MLX's own layout ---- */

  /** An affine weight matrix: packed words, and a scale and a bias per row and group of columns. */
  datatype Affine = Affine(weight: Matrix<nat>, scales: Matrix<real>, biases: Matrix<real>)

  function MlxNibble(weight: Matrix<nat>, r: nat, c: nat): nat
    requires r < |weight| && c / 8 < |weight[r]|
  {
    Nibble(weight[r][c / 8], c % 8)
  }

  /** What MLX computes with for row `r`, column `c` of group `g`. */
  function MlxValue(a: Affine, r: nat, c: nat, g: nat): real
    requires r < |a.weight| && c / 8 < |a.weight[r]|
    requires r < |a.scales| && g < |a.scales[r]| && r < |a.biases| && g < |a.biases[r]|
  {
    MlxNibble(a.weight, r, c) as real * a.scales[r][g] + a.biases[r][g]
  }

  /** What a quantised element stands for. */
  function Dequantised(q: nat, zero: nat, scale: real): real {
    (q - zero) as real * scale
  }

  /** The two sides of the conversion, spelled out. */
  lemma ValuesMean(a: Affine, r: nat, c: nat, g: nat, q: nat, zero: nat, scale: real)
    requires r < |a.weight| && c / 8 < |a.weight[r]|
    requires r < |a.scales| && g < |a.scales[r]| && r < |a.biases| && g < |a.biases[r]|
    ensures MlxValue(a, r, c, g) == Nibble(a.weight[r][c / 8], c % 8) as real * a.scales[r][g] + a.biases[r][g]
    ensures Dequantised(q, zero, scale) == (q as real - zero as real) * scale
  {
    hide Nibble;
  }

  lemma AffineIsDequantised(q: nat, zero: nat, scale: real)
    ensures q as real * scale + -(zero as real * scale) == Dequantised(q, zero, scale)
    ensures q as real * scale + -8.0 * scale == Dequantised(q, 8, scale)
  {
    assert (q - zero) as real == q as real - zero as real;
    assert (q - 8) as real == q as real - 8.0;
  }

  function Biases(zeros: Matrix<nat>, scales: Matrix<real>, rows: nat, groups: nat): (b: Matrix<real>)
    requires IsMatrix(zeros, rows, groups) && IsMatrix(scales, rows, groups)
    ensures IsMatrix(b, rows, groups)
    ensures forall r, g :: 0 <= r < rows && 0 <= g < groups ==> b[r][g] == -(zeros[r][g] as real * scales[r][g])
  {
    seq(rows,
        r requires 0 <= r < rows => seq(groups, g requires 0 <= g < groups => -(zeros[r][g] as real * scales[r][g])))
  }

  function DefaultBiases(scales: Matrix<real>, rows: nat, groups: nat): (b: Matrix<real>)
    requires IsMatrix(scales, rows, groups)
    ensures IsMatrix(b, rows, groups)
    ensures forall r, g :: 0 <= r < rows && 0 <= g < groups ==> b[r][g] == -8.0 * scales[r][g]
  {
    seq(rows, r requires 0 <= r < rows => seq(groups, g requires 0 <= g < groups => -8.0 * scales[r][g]))
  }

  /* ---- compressed-tensors ---- */

  function View(m: Matrix<int>): (v: Matrix<nat>)
    ensures |v| == |m| && forall r :: 0 <= r < |m| ==> |v[r]| == |m[r]| && forall c :: 0 <= c < |m[r]| ==>
              v[r][c] == Unsigned(m[r][c])
  {
    seq(|m|, r requires 0 <= r < |m| => seq(|m[r]|, c requires 0 <= c < |m[r]| => Unsigned(m[r][c])))
  }

  /** `[..., None] >> shifts`: eight nibbles per word along a new last axis. */
  function Spread(row: seq<nat>): (s: seq<seq<nat>>)
    ensures |s| == |row| && forall c :: 0 <= c < |row| ==> |s[c]| == 8 && forall i :: 0 <= i < 8 ==>
              s[c][i] == Nibble(row[c], i)
  {
    seq(|row|, c requires 0 <= c < |row| => seq(8, i requires 0 <= i < 8 => Nibble(row[c], i)))
  }

  datatype Converted<T> = Fine(value: T) | Mismatch

  /** `_unpack_zero_points`: the words hold eight rows each. */
  function UnpackZeroPoints(zeros: Matrix<int>, zrows: nat, zgroups: nat, rows: nat,
                            groups: nat): (u: Converted<Matrix<nat>>)
    requires IsMatrix(zeros, zrows, zgroups)
    ensures u.Mismatch? <==> zgroups != groups || zrows * 8 != rows
  {
    if zgroups != groups || zrows * 8 != rows then Mismatch
    else
      var words := View(zeros);
      Fine(Flatten(seq(zrows, a requires 0 <= a < zrows => Transpose(Spread(words[a]), groups, 8))))
  }

  /** Row `r` of the zero points is nibble `r % 8` of word row `r / 8`. */
  lemma ZeroPointAt(zeros: Matrix<int>, zrows: nat, groups: nat, r: nat, g: nat)
    requires IsMatrix(zeros, zrows, groups) && r < zrows * 8 && g < groups
    ensures var u := UnpackZeroPoints(zeros, zrows, groups, zrows * 8, groups).value;
            IsMatrix(u, zrows * 8, groups) && u[r][g] == Nibble(Unsigned(zeros[r / 8][g]), r % 8)
  {
    ZeroPointShape(zeros, zrows, groups);
    var blocks := seq(zrows, a requires 0 <= a < zrows => Transpose(Spread(View(zeros)[a]), groups, 8));
    FlattenAt(blocks, r);
  }

  /** `_convert_packed`. */
  function ConvertPacked(packed: Matrix<int>, scales: Matrix<real>, zeros: Option<Matrix<int>>, rows: nat, groups: nat,
                         zrows: nat, zgroups: nat)
    : (c: Converted<Affine>)
    requires IsMatrix(scales, rows, groups) && (zeros.Some? ==> IsMatrix(zeros.value, zrows, zgroups))
    ensures c.Mismatch? <==> zeros.Some? && (zgroups != groups || zrows * 8 != rows)
  {
    match zeros
    case None => Fine(Affine(View(packed), scales, DefaultBiases(scales, rows, groups)))
    case Some(z) =>
      match UnpackZeroPoints(z, zrows, zgroups, rows, groups)
      case Mismatch => Mismatch
      case Fine(zp) =>
        ZeroPointShape(z, zrows, groups);
        Fine(Affine(View(packed), scales, Biases(zp, scales, rows, groups)))
  }

  lemma ZeroPointShape(zeros: Matrix<int>, zrows: nat, groups: nat)
    requires IsMatrix(zeros, zrows, groups)
    ensures IsMatrix(UnpackZeroPoints(zeros, zrows, groups, zrows * 8, groups).value, zrows * 8, groups)
  {
    var blocks := seq(zrows, a requires 0 <= a < zrows => Transpose(Spread(View(zeros)[a]), groups, 8));
    FlattenLength(blocks);
    forall k | 0 <= k < zrows * 8
      ensures |Flatten(blocks)[k]| == groups
    {
      FlattenAt(blocks, k);
    }
  }

  /** Every element keeps its meaning: the source packs eight columns a word and eight zero-point rows a
      word, both low nibble first, and without zero points centres the range at 8. */
  lemma ConvertPackedKeepsValues(packed: Matrix<int>, scales: Matrix<real>, zeros: Option<Matrix<int>>, rows: nat,
                                 groups: nat,
                                 zrows: nat, words: nat, r: nat, c: nat, g: nat)
    requires IsMatrix(packed, rows, words) && IsMatrix(scales, rows, groups)
    requires zeros.Some? ==> IsMatrix(zeros.value, zrows, groups) && zrows * 8 == rows
    requires r < rows && c < words * 8 && g < groups
    ensures var a := ConvertPacked(packed, scales, zeros, rows, groups, zrows, groups).value;
            && IsMatrix(a.weight, rows, words) && IsMatrix(a.scales, rows, groups) && IsMatrix(a.biases, rows, groups)
            && var q := Nibble(Unsigned(packed[r][c / 8]), c % 8);
               var zero := if zeros.Some? then Nibble(Unsigned(zeros.value[r / 8][g]), r % 8) else 8;
               MlxValue(a, r, c, g) == Dequantised(q, zero, scales[r][g])
  {
    hide Nibble, UnpackZeroPoints, Dequantised;
    var q := Nibble(Unsigned(packed[r][c / 8]), c % 8);
    if zeros.Some? {
      ZeroPointShape(zeros.value, zrows, groups);
      ZeroPointAt(zeros.value, zrows, groups, r, g);
      AffineIsDequantised(q, Nibble(Unsigned(zeros.value[r / 8][g]), r % 8), scales[r][g]);
    } else {
      AffineIsDequantised(q, 8, scales[r][g]);
    }
  }

  /* ---- AutoAWQ ---- */

  /** Which column each nibble of an AutoAWQ word holds. */
  const ORDER: seq<nat> := [0, 2, 4, 6, 1, 3, 5, 7]

  lemma AwqNibbleIs(k: nat)
    requires k < 8
    ensures AwqNibble(k) == [0, 4, 1, 5, 2, 6, 3, 7][k]
  {
  }

  /** Which nibble holds column `k`. */
  function AwqNibble(k: nat): nat {
    if k % 2 == 0 then k / 2 else 4 + k / 2
  }

  /** The loop that fills the columns of a word, after its first `n` steps. */
  function Columns(w: nat, n: nat): (cs: seq<nat>)
    requires n <= 8
    ensures |cs| == 8
  {
    if n == 0 then seq(8, _ => 0)
    else
      assert ORDER[n - 1] < 8;
      Columns(w, n - 1)[ORDER[n - 1] := Nibble(w, n - 1)]
  }

  lemma {:induction false} ColumnsAt(w: nat, n: nat, p: nat)
    requires p < n <= 8
    ensures Columns(w, n)[ORDER[p]] == Nibble(w, p)
  {
    if p < n - 1 {
      ColumnsAt(w, n - 1, p);
      assert ORDER[p] != ORDER[n - 1];
    }
  }

  /** The fill undoes the permutation: column `k` is nibble `AwqNibble(k)`. */
  lemma ColumnIsNibble(w: nat, k: nat)
    requires k < 8
    ensures Columns(w, 8)[k] == Nibble(w, AwqNibble(k)) && Nibbles(Columns(w, 8))
  {
    forall j | 0 <= j < 8
      ensures Columns(w, 8)[j] == Nibble(w, AwqNibble(j))
    {
      assert ORDER[AwqNibble(j)] == j;
      ColumnsAt(w, 8, AwqNibble(j));
    }
  }

  /** `_unpack_autoawq_int4` of one row. */
  function UnpackRow(words: seq<nat>): seq<nat> {
    Flatten(seq(|words|, i requires 0 <= i < |words| => Columns(words[i], 8)))
  }

  lemma UnpackRowAt(words: seq<nat>, c: nat)
    requires c < |words| * 8
    ensures |UnpackRow(words)| == |words| * 8 && UnpackRow(words)[c] == Nibble(words[c / 8], AwqNibble(c % 8))
  {
    var cols := seq(|words|, i requires 0 <= i < |words| => Columns(words[i], 8));
    FlattenAt(cols, c);
    ColumnIsNibble(words[c / 8], c % 8);
  }

  function UnpackAutoAwq(m: Matrix<int>): (u: Matrix<nat>)
    ensures |u| == |m| && forall r :: 0 <= r < |m| ==> u[r] == UnpackRow(View(m)[r])
  {
    seq(|m|, r requires 0 <= r < |m| => UnpackRow(View(m)[r]))
  }

  lemma UnpackAutoAwqAt(m: Matrix<int>, rows: nat, words: nat)
    requires IsMatrix(m, rows, words)
    ensures IsMatrix(UnpackAutoAwq(m), rows, words * 8)
    ensures forall r, c :: 0 <= r < rows && 0 <= c < words * 8 ==>
              UnpackAutoAwq(m)[r][c] == Nibble(Unsigned(m[r][c / 8]), AwqNibble(c % 8))
  {
    hide UnpackRow, Nibble, AwqNibble, Unsigned;
    forall r | 0 <= r < rows
      ensures |UnpackAutoAwq(m)[r]| == words * 8
      ensures forall c :: 0 <= c < words * 8 ==>
                UnpackAutoAwq(m)[r][c] == Nibble(Unsigned(m[r][c / 8]), AwqNibble(c % 8))
    {
      UnpackRowLength(View(m)[r]);
      forall c | 0 <= c < words * 8
        ensures UnpackRow(View(m)[r])[c] == Nibble(Unsigned(m[r][c / 8]), AwqNibble(c % 8))
      {
        UnpackRowAt(View(m)[r], c);
      }
    }
  }

  lemma UnpackRowLength(words: seq<nat>)
    ensures |UnpackRow(words)| == |words| * 8
  {
    FlattenLength(seq(|words|, i requires 0 <= i < |words| => Columns(words[i], 8)));
  }

  /** `_pack_mlx_int4_rows` of one row. */
  function PackRow(row: seq<nat>): (w: seq<nat>)
    requires |row| % 8 == 0
    ensures |w| == |row| / 8
  {
    var g := Grouped(row);
    seq(|g|, i requires 0 <= i < |g| => SumShifted(g[i], 0) % UINT32)
  }

  /** Packing loses nothing. */
  lemma PackRowAt(row: seq<nat>, c: nat)
    requires |row| % 8 == 0 && Nibbles(row) && c < |row|
    ensures Nibble(PackRow(row)[c / 8], c % 8) == row[c]
  {
    var g := Grouped(row)[c / 8];
    assert Nibbles(g) && g[c % 8] == row[c];
    EightNibblesFit(g);
    PackedNibbles(g);
    hide Nibble, SumShifted, Nibbles, Pow16;
    assert PackRow(row)[c / 8] == SumShifted(g, 0) % UINT32 == SumShifted(g, 0);
  }

  function PackMlxRows(m: Matrix<nat>, rows: nat, cols: nat): (p: Converted<Matrix<nat>>)
    requires IsMatrix(m, rows, cols)
    ensures p.Mismatch? <==> cols % 8 != 0
    ensures p.Fine? ==> IsMatrix(p.value, rows, cols / 8) && forall r :: 0 <= r < rows ==> p.value[r] == PackRow(m[r])
  {
    if cols % 8 != 0 then Mismatch
    else Fine(seq(rows, r requires 0 <= r < rows => PackRow(m[r])))
  }

  /** `_convert_autoawq`: inputs by rows, eight outputs a word; scales and zero points by groups. */
  function ConvertAutoAwq(qweight: Matrix<int>, scales: Matrix<real>, qzeros: Option<Matrix<int>>, inputs: nat,
                          words: nat, groups: nat)
    : (c: Converted<Affine>)
    requires IsMatrix(qweight, inputs, words) && IsMatrix(scales, groups, words * 8)
    requires qzeros.Some? ==> IsMatrix(qzeros.value, groups, words)
    ensures c.Mismatch? <==> inputs % 8 != 0
  {
    UnpackAutoAwqAt(qweight, inputs, words);
    var outputs := words * 8;
    match PackMlxRows(Transpose(UnpackAutoAwq(qweight), inputs, outputs), outputs, inputs)
    case Mismatch => Mismatch
    case Fine(weight) =>
      var st := Transpose(scales, groups, outputs);
      match qzeros
      case None => Fine(Affine(weight, st, DefaultBiases(st, outputs, groups)))
      case Some(z) =>
        UnpackAutoAwqAt(z, groups, words);
        Fine(Affine(weight, st, Biases(Transpose(UnpackAutoAwq(z), groups, outputs), st, outputs, groups)))
  }

  lemma OutputNibbles(qweight: Matrix<int>, inputs: nat, words: nat, o: nat)
    requires IsMatrix(qweight, inputs, words) && o < words * 8
    ensures IsMatrix(UnpackAutoAwq(qweight), inputs, words * 8)
    ensures Nibbles(Transpose(UnpackAutoAwq(qweight), inputs, words * 8)[o])
  {
    UnpackAutoAwqAt(qweight, inputs, words);
    var u := UnpackAutoAwq(qweight);
    forall k | 0 <= k < inputs
      ensures Transpose(u, inputs, words * 8)[o][k] < 16
    {
      assert u[k][o] == Nibble(Unsigned(qweight[k][o / 8]), AwqNibble(o % 8)) < 16;
    }
  }

  /** Every element keeps its meaning through permutation, transpose and repack: input `i` of output
      `o`, in group `g`. */
  lemma ConvertAutoAwqKeepsValues(qweight: Matrix<int>, scales: Matrix<real>, qzeros: Option<Matrix<int>>, inputs: nat,
                                  words: nat,
                                  groups: nat, i: nat, o: nat, g: nat)
    requires IsMatrix(qweight, inputs, words) && IsMatrix(scales, groups, words * 8) && inputs % 8 == 0
    requires qzeros.Some? ==> IsMatrix(qzeros.value, groups, words)
    requires i < inputs && o < words * 8 && g < groups
    ensures var a := ConvertAutoAwq(qweight, scales, qzeros, inputs, words, groups).value;
            && IsMatrix(a.weight, words * 8, inputs / 8) && IsMatrix(a.scales, words * 8, groups)
            && IsMatrix(a.biases, words * 8, groups)
            && var q := Nibble(Unsigned(qweight[i][o / 8]), AwqNibble(o % 8));
               var zero := if qzeros.Some? then Nibble(Unsigned(qzeros.value[g][o / 8]), AwqNibble(o % 8)) else 8;
               MlxValue(a, o, i, g) == Dequantised(q, zero, scales[g][o])
  {
    hide Nibble, UnpackAutoAwq, Dequantised, PackRow, AwqNibble, Unsigned;
    UnpackAutoAwqAt(qweight, inputs, words);
    var t := Transpose(UnpackAutoAwq(qweight), inputs, words * 8);
    OutputNibbles(qweight, inputs, words, o);
    PackRowAt(t[o], i);
    var q := Nibble(Unsigned(qweight[i][o / 8]), AwqNibble(o % 8));
    if qzeros.Some? {
      UnpackAutoAwqAt(qzeros.value, groups, words);
      AffineIsDequantised(q, Nibble(Unsigned(qzeros.value[g][o / 8]), AwqNibble(o % 8)), scales[g][o]);
    } else {
      AffineIsDequantised(q, 8, scales[g][o]);
    }
  }
}
