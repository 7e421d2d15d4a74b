// The block readers and value checks of the Chi cross-section file parser
// (SingleStateMGXS::MakeFromChiXSFile): a block runs from a "<KEYWORD>_BEGIN"
// line to its "<KEYWORD>_END" line, and each reader fills a freshly sized
// destination from the entry lines in between.
module XSBlocks {
  import opened Wrappers

  /** A "i value" line of a one-dimensional block. */
  datatype IndexedValue = IndexedValue(index: int, value: real)

  /** A "group high low" line of the GROUP_STRUCTURE block. */
  datatype GroupBound = GroupBound(group: int, high: real, low: real)

  /** A line of a two-dimensional block: its first word, then "i j value".
    * A line whose first word is not the entry keyword carries no data. */
  datatype MatrixEntry = MatrixEntry(tag: string, row: int, col: int, value: real)

  /** A line of the TRANSFER_MOMENTS block: its first word, then
    * "ell gprime group value". */
  datatype TransferEntry = TransferEntry(tag: string, moment: int, gprime: nat, group: nat, value: real)

  /** chi_math::SparseMatrix(G, G): its dimensions and the entries inserted. */
  datatype SparseMatrix = SparseMatrix(rows: nat, cols: nat, entries: map<(nat, nat), real>)

  const PrecursorEntry: string := "G_PRECURSOR_VAL"
  const ProductionEntry: string := "GPRIME_G_VAL"
  const TransferTag: string := "M_GPRIME_G_VAL"

  function Zeros(n: nat): (r: seq<real>)
    ensures |r| == n && forall i :: 0 <= i < n ==> r[i] == 0.0
  {
    seq(n, _ => 0.0)
  }

  /** Element g of a vector, or 0 past its end. */
  function At(v: seq<real>, g: nat): real
  {
    if g < |v| then v[g] else 0.0
  }

  predicate IndicesBelow(entries: seq<IndexedValue>, n: nat)
  {
    forall k :: 0 <= k < |entries| ==> 0 <= entries[k].index < n
  }

  // ---------------------------------------------------------------------
  // Read1DData

  /** Read1DData over the lines of a block: the destination starts as N zeros;
    * each line stores `destination.at(i) = value` (out_of_range for an index
    * outside [0, N)) and then the entry count is checked (runtime_error for
    * the line after the N-th, once it has been stored). */
  function Read1D(n: nat, entries: seq<IndexedValue>): (r: Result<seq<real>>)
    ensures r.Success? ==> |r.value| == n
    decreases |entries|
  {
    if entries == [] then Success(Zeros(n))
    else
      var k := |entries| - 1;
      match Read1D(n, entries[..k])
      case Failure(e) => Failure(e)
      case Success(d) =>
        if !(0 <= entries[k].index < n) then Failure(OutOfRange)
        else if k >= n then Failure(RuntimeError)
        else Success(d[entries[k].index := entries[k].value])
  }

  method ReadVectorData(n: nat, entries: seq<IndexedValue>) returns (r: Result<seq<real>>)
    ensures r == Read1D(n, entries)
  {
    var destination := Zeros(n);
    var count := 0;
    while count < |entries|
      invariant 0 <= count <= |entries|
      invariant Read1D(n, entries[..count]) == Success(destination)
    {
      assert entries[..count + 1][..count] == entries[..count];
      var i := entries[count].index;
      if !(0 <= i < n) {
        Read1DStops(n, entries, count + 1);
        return Failure(OutOfRange);
      }
      destination := destination[i := entries[count].value];
      if count >= n {
        Read1DStops(n, entries, count + 1);
        return Failure(RuntimeError);
      }
      count := count + 1;
    }
    assert entries[..|entries|] == entries;
    r := Success(destination);
  }

  /** Once a prefix of the block fails, the whole block fails the same way. */
  lemma {:induction false} Read1DStops(n: nat, entries: seq<IndexedValue>, k: nat)
    requires k <= |entries| && Read1D(n, entries[..k]).Failure?
    ensures Read1D(n, entries) == Read1D(n, entries[..k])
    decreases |entries| - k
  {
    if k < |entries| {
      var m := k + 1;
      assert entries[..m][..k] == entries[..k];
      Read1DStops(n, entries, m);
    } else {
      assert entries[..k] == entries;
    }
  }

  /** A block reads without error exactly when it has at most N lines and
    * every index is below N. */
  lemma {:induction false} Read1DSucceeds(n: nat, entries: seq<IndexedValue>)
    ensures Read1D(n, entries).Success? <==> |entries| <= n && IndicesBelow(entries, n)
    decreases |entries|
  {
    if entries != [] {
      var k := |entries| - 1;
      Read1DSucceeds(n, entries[..k]);
      assert forall j :: 0 <= j < k ==> entries[..k][j] == entries[j];
    }
  }

  /** The line after the N-th raises runtime_error when every index up to it
    * is in range. */
  lemma Read1DTooMany(n: nat, entries: seq<IndexedValue>)
    requires |entries| > n && IndicesBelow(entries[..n + 1], n)
    ensures Read1D(n, entries) == Failure(RuntimeError)
  {
    var p := entries[..n + 1];
    assert p[..n] == entries[..n];
    Read1DSucceeds(n, entries[..n]);
    assert forall j :: 0 <= j < n ==> entries[..n][j] == p[j];
    Read1DStops(n, entries, n + 1);
  }

  /** The first out-of-range index, on one of the first N + 1 lines, raises
    * out_of_range. */
  lemma Read1DBadIndex(n: nat, entries: seq<IndexedValue>, k: nat)
    requires k <= n && k < |entries| && IndicesBelow(entries[..k], n)
    requires !(0 <= entries[k].index < n)
    ensures Read1D(n, entries) == Failure(OutOfRange)
  {
    Read1DSucceeds(n, entries[..k]);
    assert entries[..k + 1][..k] == entries[..k];
    Read1DStops(n, entries, k + 1);
  }

  /** Line k is the last line of the block naming position i. */
  predicate LastNaming(entries: seq<IndexedValue>, k: nat, i: nat)
    requires k < |entries|
  {
    entries[k].index == i && forall l :: k < l < |entries| ==> entries[l].index != i
  }

  /** Each position holds the value of the last line naming it, and zero when
    * no line names it. */
  lemma {:induction false} Read1DValues(n: nat, entries: seq<IndexedValue>, i: nat)
    requires Read1D(n, entries).Success? && i < n
    ensures (forall k :: 0 <= k < |entries| ==> entries[k].index != i) ==> Read1D(n, entries).value[i] == 0.0
    ensures forall k :: 0 <= k < |entries| && LastNaming(entries, k, i) ==>
      Read1D(n, entries).value[i] == entries[k].value
    decreases |entries|
  {
    if entries != [] {
      var m := |entries| - 1;
      var p := entries[..m];
      assert forall j :: 0 <= j < m ==> p[j] == entries[j];
      Read1DValues(n, p, i);
    }
  }

  // ---------------------------------------------------------------------
  // ReadGroupStructure

  /** ReadGroupStructure: G rows of [high, low], filled with the same
    * at-then-count discipline as Read1DData. */
  function ReadBounds(g: nat, entries: seq<GroupBound>): (r: Result<seq<seq<real>>>)
    ensures r.Success? ==> |r.value| == g && forall i :: 0 <= i < g ==> |r.value[i]| == 2
    decreases |entries|
  {
    if entries == [] then Success(seq(g, _ => [0.0, 0.0]))
    else
      var k := |entries| - 1;
      match ReadBounds(g, entries[..k])
      case Failure(e) => Failure(e)
      case Success(d) =>
        if !(0 <= entries[k].group < g) then Failure(OutOfRange)
        else if k >= g then Failure(RuntimeError)
        else Success(d[entries[k].group := [entries[k].high, entries[k].low]])
  }

  method ReadGroupStructure(g: nat, entries: seq<GroupBound>) returns (r: Result<seq<seq<real>>>)
    ensures r == ReadBounds(g, entries)
  {
    var destination := seq(g, _ => [0.0, 0.0]);
    var count := 0;
    while count < |entries|
      invariant 0 <= count <= |entries|
      invariant ReadBounds(g, entries[..count]) == Success(destination)
    {
      assert entries[..count + 1][..count] == entries[..count];
      var group := entries[count].group;
      if !(0 <= group < g) {
        ReadBoundsStops(g, entries, count + 1);
        return Failure(OutOfRange);
      }
      destination := destination[group := [entries[count].high, entries[count].low]];
      if count >= g {
        ReadBoundsStops(g, entries, count + 1);
        return Failure(RuntimeError);
      }
      count := count + 1;
    }
    assert entries[..|entries|] == entries;
    r := Success(destination);
  }

  lemma {:induction false} ReadBoundsStops(g: nat, entries: seq<GroupBound>, k: nat)
    requires k <= |entries| && ReadBounds(g, entries[..k]).Failure?
    ensures ReadBounds(g, entries) == ReadBounds(g, entries[..k])
    decreases |entries| - k
  {
    if k < |entries| {
      assert entries[..k + 1][..k] == entries[..k];
      ReadBoundsStops(g, entries, k + 1);
    } else {
      assert entries[..k] == entries;
    }
  }

  /** The group structure reads without error exactly when it has at most G
    * lines, every one naming a group below G. */
  lemma {:induction false} ReadBoundsSucceeds(g: nat, entries: seq<GroupBound>)
    ensures ReadBounds(g, entries).Success? <==>
      |entries| <= g && forall k :: 0 <= k < |entries| ==> 0 <= entries[k].group < g
    decreases |entries|
  {
    if entries != [] {
      var k := |entries| - 1;
      ReadBoundsSucceeds(g, entries[..k]);
      assert forall j :: 0 <= j < k ==> entries[..k][j] == entries[j];
    }
  }

  // ---------------------------------------------------------------------
  // Read2DData

  /** The destination position of an entry: G_PRECURSOR_VAL lines give the
    * column first ("i j" stored at [j][i]), every other keyword row first. */
  function Target(prefix: string, e: MatrixEntry): (int, int)
  {
    if prefix == PrecursorEntry then (e.col, e.row) else (e.row, e.col)
  }

  /** Read2DData: an n_rows x n_cols zero matrix; lines whose first word is
    * the entry keyword store their value (out_of_range outside the matrix);
    * all other lines are skipped. There is no entry count. */
  function Read2D(rows: nat, cols: nat, prefix: string, entries: seq<MatrixEntry>): (r: Result<seq<seq<real>>>)
    ensures r.Success? ==> |r.value| == rows && forall i :: 0 <= i < rows ==> |r.value[i]| == cols
    decreases |entries|
  {
    if entries == [] then Success(seq(rows, _ => Zeros(cols)))
    else
      var k := |entries| - 1;
      match Read2D(rows, cols, prefix, entries[..k])
      case Failure(e) => Failure(e)
      case Success(d) =>
        if entries[k].tag != prefix then Success(d)
        else
          var (i, j) := Target(prefix, entries[k]);
          if !(0 <= i < rows && 0 <= j < cols) then Failure(OutOfRange)
          else Success(d[i := d[i][j := entries[k].value]])
  }

  method ReadMatrixData(rows: nat, cols: nat, prefix: string, entries: seq<MatrixEntry>)
    returns (r: Result<seq<seq<real>>>)
    ensures r == Read2D(rows, cols, prefix, entries)
  {
    var destination: seq<seq<real>> := [];
    var i := 0;
    while i < rows
      invariant 0 <= i <= rows && |destination| == i
      invariant forall l :: 0 <= l < i ==> destination[l] == Zeros(cols)
    {
      destination := destination + [Zeros(cols)];
      i := i + 1;
    }
    assert destination == seq(rows, _ => Zeros(cols));
    var k := 0;
    while k < |entries|
      invariant 0 <= k <= |entries|
      invariant Read2D(rows, cols, prefix, entries[..k]) == Success(destination)
    {
      assert entries[..k + 1][..k] == entries[..k];
      if entries[k].tag == prefix {
        var (a, b) := Target(prefix, entries[k]);
        if !(0 <= a < rows && 0 <= b < cols) {
          Read2DStops(rows, cols, prefix, entries, k + 1);
          return Failure(OutOfRange);
        }
        destination := destination[a := destination[a][b := entries[k].value]];
      }
      k := k + 1;
    }
    assert entries[..|entries|] == entries;
    r := Success(destination);
  }

  lemma {:induction false} Read2DStops(rows: nat, cols: nat, prefix: string, entries: seq<MatrixEntry>, k: nat)
    requires k <= |entries| && Read2D(rows, cols, prefix, entries[..k]).Failure?
    ensures Read2D(rows, cols, prefix, entries) == Read2D(rows, cols, prefix, entries[..k])
    decreases |entries| - k
  {
    if k < |entries| {
      assert entries[..k + 1][..k] == entries[..k];
      Read2DStops(rows, cols, prefix, entries, k + 1);
    } else {
      assert entries[..k] == entries;
    }
  }

  /** The lines of a block whose first word is the entry keyword. */
  function Tagged(entries: seq<MatrixEntry>, prefix: string): (r: seq<MatrixEntry>)
    ensures |r| <= |entries|
    ensures forall k :: 0 <= k < |r| ==> r[k].tag == prefix
  {
    if entries == [] then []
    else if entries[|entries| - 1].tag == prefix then Tagged(entries[..|entries| - 1], prefix) + [entries[|entries| - 1]]
    else Tagged(entries[..|entries| - 1], prefix)
  }

  /** Lines without the entry keyword have no effect: reading the block gives
    * what reading only its keyword lines gives. */
  lemma {:induction false} Read2DOnlyTagged(rows: nat, cols: nat, prefix: string, entries: seq<MatrixEntry>)
    ensures Read2D(rows, cols, prefix, entries) == Read2D(rows, cols, prefix, Tagged(entries, prefix))
    decreases |entries|
  {
    if entries != [] {
      var k := |entries| - 1;
      var t := Tagged(entries[..k], prefix);
      Read2DOnlyTagged(rows, cols, prefix, entries[..k]);
      if entries[k].tag == prefix {
        assert (t + [entries[k]])[..|t|] == t;
      }
    }
  }

  /** A two-dimensional block reads without error exactly when every keyword
    * line names a position inside the matrix. */
  lemma {:induction false} Read2DSucceeds(rows: nat, cols: nat, prefix: string, entries: seq<MatrixEntry>)
    ensures Read2D(rows, cols, prefix, entries).Success? <==>
      forall k :: 0 <= k < |entries| && entries[k].tag == prefix ==>
        0 <= Target(prefix, entries[k]).0 < rows && 0 <= Target(prefix, entries[k]).1 < cols
    decreases |entries|
  {
    if entries != [] {
      var k := |entries| - 1;
      Read2DSucceeds(rows, cols, prefix, entries[..k]);
      assert forall j :: 0 <= j < k ==> entries[..k][j] == entries[j];
    }
  }

  // ---------------------------------------------------------------------
  // ReadTransferMatrices

  /** ReadTransferMatrices: M empty G x G sparse matrices; each
    * M_GPRIME_G_VAL line inserts its value into matrix ell at
    * (group, gprime), out_of_range for ell outside [0, M); other lines are
    * skipped. */
  function ReadTransfer(m: nat, g: nat, entries: seq<TransferEntry>): (r: Result<seq<SparseMatrix>>)
    ensures r.Success? ==> |r.value| == m && forall l :: 0 <= l < m ==> r.value[l].rows == g && r.value[l].cols == g
    decreases |entries|
  {
    if entries == [] then Success(seq(m, _ => SparseMatrix(g, g, map[])))
    else
      var k := |entries| - 1;
      match ReadTransfer(m, g, entries[..k])
      case Failure(e) => Failure(e)
      case Success(d) =>
        var e := entries[k];
        if e.tag != TransferTag then Success(d)
        else if !(0 <= e.moment < m) then Failure(OutOfRange)
        else Success(d[e.moment := Insert(d[e.moment], e.group, e.gprime, e.value)])
  }

  function Insert(a: SparseMatrix, i: nat, j: nat, v: real): (r: SparseMatrix)
    ensures r.rows == a.rows && r.cols == a.cols && (i, j) in r.entries && r.entries[(i, j)] == v
    ensures forall p :: p in a.entries && p != (i, j) ==> p in r.entries && r.entries[p] == a.entries[p]
  {
    a.(entries := a.entries[(i, j) := v])
  }

  method ReadTransferMatrices(m: nat, g: nat, entries: seq<TransferEntry>) returns (r: Result<seq<SparseMatrix>>)
    ensures r == ReadTransfer(m, g, entries)
  {
    var destination: seq<SparseMatrix> := [];
    var i := 0;
    while i < m
      invariant 0 <= i <= m && |destination| == i
      invariant forall l :: 0 <= l < i ==> destination[l] == SparseMatrix(g, g, map[])
    {
      destination := destination + [SparseMatrix(g, g, map[])];
      i := i + 1;
    }
    assert destination == seq(m, _ => SparseMatrix(g, g, map[]));
    var k := 0;
    while k < |entries|
      invariant 0 <= k <= |entries|
      invariant ReadTransfer(m, g, entries[..k]) == Success(destination)
    {
      assert entries[..k + 1][..k] == entries[..k];
      var e := entries[k];
      if e.tag == TransferTag {
        if !(0 <= e.moment < m) {
          ReadTransferStops(m, g, entries, k + 1);
          return Failure(OutOfRange);
        }
        destination := destination[e.moment := Insert(destination[e.moment], e.group, e.gprime, e.value)];
      }
      k := k + 1;
    }
    assert entries[..|entries|] == entries;
    r := Success(destination);
  }

  lemma {:induction false} ReadTransferStops(m: nat, g: nat, entries: seq<TransferEntry>, k: nat)
    requires k <= |entries| && ReadTransfer(m, g, entries[..k]).Failure?
    ensures ReadTransfer(m, g, entries) == ReadTransfer(m, g, entries[..k])
    decreases |entries| - k
  {
    if k < |entries| {
      assert entries[..k + 1][..k] == entries[..k];
      ReadTransferStops(m, g, entries, k + 1);
    } else {
      assert entries[..k] == entries;
    }
  }

  /** The transfer block reads without error exactly when every
    * M_GPRIME_G_VAL line names a moment below M; the other lines are never
    * looked at. */
  lemma {:induction false} ReadTransferSucceeds(m: nat, g: nat, entries: seq<TransferEntry>)
    ensures ReadTransfer(m, g, entries).Success? <==>
      forall k :: 0 <= k < |entries| && entries[k].tag == TransferTag ==> 0 <= entries[k].moment < m
    decreases |entries|
  {
    if entries != [] {
      var k := |entries| - 1;
      ReadTransferSucceeds(m, g, entries[..k]);
      assert forall j :: 0 <= j < k ==> entries[..k][j] == entries[j];
    }
  }

  /** The last M_GPRIME_G_VAL line of a block is found in its matrix. */
  lemma ReadTransferStoresLast(m: nat, g: nat, entries: seq<TransferEntry>)
    requires ReadTransfer(m, g, entries).Success? && entries != []
    requires entries[|entries| - 1].tag == TransferTag
    ensures var e := entries[|entries| - 1];
      0 <= e.moment < m &&
      (e.group, e.gprime) in ReadTransfer(m, g, entries).value[e.moment].entries &&
      ReadTransfer(m, g, entries).value[e.moment].entries[(e.group, e.gprime)] == e.value
  {
  }

  // ---------------------------------------------------------------------
  // Value checks (the IsNonNegative, IsPositive and HasNonZero lambdas)

  predicate IsNonNegative(v: seq<real>)
  {
    forall i :: 0 <= i < |v| ==> v[i] >= 0.0
  }

  predicate IsPositive(v: seq<real>)
  {
    forall i :: 0 <= i < |v| ==> v[i] > 0.0
  }

  /** Despite its name, the source's HasNonZero looks for a strictly
    * positive entry. */
  predicate HasNonZero(v: seq<real>)
  {
    exists i :: 0 <= i < |v| && v[i] > 0.0
  }

  /** Fission neutron yields: each entry zero or strictly above one. */
  predicate YieldsValid(v: seq<real>)
  {
    forall i :: 0 <= i < |v| ==> v[i] == 0.0 || v[i] > 1.0
  }

  /** Fractions (delayed neutron fractions, fractional yields): each entry in
    * [0, 1]. */
  predicate Fractions(v: seq<real>)
  {
    forall i :: 0 <= i < |v| ==> 0.0 <= v[i] <= 1.0
  }

  // ---------------------------------------------------------------------
  // Normalisation (std::accumulate, then std::transform dividing by the sum)

  /** std::accumulate from the front. */
  function Sum(v: seq<real>): real
  {
    if v == [] then 0.0 else Sum(v[..|v| - 1]) + v[|v| - 1]
  }

  function Scaled(v: seq<real>, s: real): (r: seq<real>)
    requires s != 0.0
    ensures |r| == |v|
  {
    seq(|v|, i requires 0 <= i < |v| => v[i] / s)
  }

  lemma {:induction false} SumPositive(v: seq<real>)
    requires IsNonNegative(v) && HasNonZero(v)
    ensures Sum(v) > 0.0
    decreases |v|
  {
    var k := |v| - 1;
    var p := v[..k];
    assert IsNonNegative(p) by {
      assert forall j :: 0 <= j < k ==> p[j] == v[j];
    }
    SumNonNegative(p);
    if v[k] <= 0.0 {
      var i :| 0 <= i < |v| && v[i] > 0.0;
      assert p[i] == v[i];
      SumPositive(p);
    }
  }

  lemma {:induction false} SumNonNegative(v: seq<real>)
    requires IsNonNegative(v)
    ensures Sum(v) >= 0.0
    decreases |v|
  {
    if v != [] {
      var k := |v| - 1;
      assert forall j :: 0 <= j < k ==> v[..k][j] == v[j];
      SumNonNegative(v[..k]);
    }
  }

  /** Every entry of a non-negative vector is at most its sum. */
  lemma {:induction false} EntryBelowSum(v: seq<real>, i: nat)
    requires IsNonNegative(v) && i < |v|
    ensures v[i] <= Sum(v)
    decreases |v|
  {
    var k := |v| - 1;
    var p := v[..k];
    assert forall j :: 0 <= j < k ==> p[j] == v[j];
    SumNonNegative(p);
    if i < k {
      EntryBelowSum(p, i);
    }
  }

  lemma {:induction false} SumScaled(v: seq<real>, s: real)
    requires s != 0.0
    ensures Sum(Scaled(v, s)) == Sum(v) / s
    decreases |v|
  {
    if v != [] {
      var k := |v| - 1;
      assert Scaled(v, s)[..k] == Scaled(v[..k], s);
      SumScaled(v[..k], s);
      assert Sum(Scaled(v, s)) == Sum(v[..k]) / s + v[k] / s;
    }
  }

  /** A checked spectrum (some positive entry, none negative) divided by its
    * sum. */
  function Normalised(v: seq<real>): (r: seq<real>)
    requires IsNonNegative(v) && HasNonZero(v)
    ensures |r| == |v|
  {
    SumPositive(v);
    Scaled(v, Sum(v))
  }

  /** A normalised spectrum sums to one, every entry lies in [0, 1], and the
    * entries keep their proportions to the original. */
  lemma NormalisedIsDistribution(v: seq<real>)
    requires IsNonNegative(v) && HasNonZero(v)
    ensures Sum(Normalised(v)) == 1.0
    ensures Fractions(Normalised(v))
    ensures Sum(v) > 0.0 && forall i :: 0 <= i < |v| ==> Normalised(v)[i] == v[i] / Sum(v)
  {
    NormalisedSums(v);
    SumPositive(v);
  }

  lemma NormalisedSums(v: seq<real>)
    requires IsNonNegative(v) && HasNonZero(v)
    ensures Sum(Normalised(v)) == 1.0
    ensures Fractions(Normalised(v))
  {
    var s := Sum(v);
    SumPositive(v);
    SumScaled(v, s);
    DivSelf(s);
    forall i | 0 <= i < |v|
      ensures v[i] <= s
    {
      EntryBelowSum(v, i);
    }
    ScaledFractions(v, s);
    assert Normalised(v) == Scaled(v, s);
  }

  lemma DivSelf(s: real)
    requires s > 0.0
    ensures s / s == 1.0
  {
  }

  lemma ScaledFractions(v: seq<real>, s: real)
    requires s > 0.0 && IsNonNegative(v)
    requires forall i :: 0 <= i < |v| ==> v[i] <= s
    ensures Fractions(Scaled(v, s))
  {
    forall i | 0 <= i < |v|
      ensures 0.0 <= Scaled(v, s)[i] <= 1.0
    {
      var a := v[i];
      assert Scaled(v, s)[i] == a / s;
      FractionOfSum(a, s);
    }
  }

  lemma FractionOfSum(a: real, s: real)
    requires 0.0 <= a <= s && s > 0.0
    ensures 0.0 <= a / s <= 1.0
  {
  }

  method Normalise(v: seq<real>) returns (r: seq<real>)
    requires IsNonNegative(v) && HasNonZero(v)
    ensures r == Normalised(v)
  {
    var sum := 0.0;
    var i := 0;
    while i < |v|
      invariant 0 <= i <= |v| && sum == Sum(v[..i])
    {
      assert v[..i + 1][..i] == v[..i];
      sum := sum + v[i];
      i := i + 1;
    }
    assert v[..|v|] == v;
    SumPositive(v);
    r := v;
    i := 0;
    while i < |v|
      invariant 0 <= i <= |v| && |r| == |v|
      invariant forall j :: 0 <= j < i ==> r[j] == v[j] / sum
      invariant forall j :: i <= j < |v| ==> r[j] == v[j]
    {
      r := r[i := r[i] / sum];
      i := i + 1;
    }
  }

  // ---------------------------------------------------------------------
  // Velocity inversion and the prompt/delayed yield split

  function Inverted(v: seq<real>): (r: seq<real>)
    requires IsPositive(v)
    ensures |r| == |v|
    ensures IsPositive(r)
    ensures forall g :: 0 <= g < |v| ==> r[g] * v[g] == 1.0
  {
    seq(|v|, g requires 0 <= g < |v| => 1.0 / v[g])
  }

  /** The VELOCITY loop: each of the first numGroups entries becomes its
    * reciprocal. */
  method Invert(v: seq<real>) returns (r: seq<real>)
    requires IsPositive(v)
    ensures r == Inverted(v)
  {
    r := v;
    var g := 0;
    while g < |v|
      invariant 0 <= g <= |v| && |r| == |v|
      invariant forall j :: 0 <= j < g ==> r[j] == 1.0 / v[j]
      invariant forall j :: g <= j < |v| ==> r[j] == v[j]
    {
      r := r[g := 1.0 / r[g]];
      g := g + 1;
    }
  }

  /** nu_prompt = (1 - beta) nu and nu_delayed = beta nu over G groups. */
  function Split(nu: seq<real>, beta: seq<real>, g: nat): (r: (seq<real>, seq<real>))
    ensures |r.0| == g && |r.1| == g
  {
    (seq(g, i requires 0 <= i => (1.0 - At(beta, i)) * At(nu, i)),
     seq(g, i requires 0 <= i => At(beta, i) * At(nu, i)))
  }

  /** The prompt and delayed yields add back up to the total yield, and a
    * fraction in [0, 1] of a valid yield gives two non-negative parts. */
  lemma SplitAddsUp(nu: seq<real>, beta: seq<real>, g: nat)
    requires |nu| == g && |beta| == g && Fractions(beta) && IsNonNegative(nu)
    ensures forall i :: 0 <= i < g ==> Split(nu, beta, g).0[i] + Split(nu, beta, g).1[i] == nu[i]
    ensures IsNonNegative(Split(nu, beta, g).0) && IsNonNegative(Split(nu, beta, g).1)
  {
    var (p, d) := Split(nu, beta, g);
    forall i | 0 <= i < g
      ensures p[i] + d[i] == nu[i] && p[i] >= 0.0 && d[i] >= 0.0
    {
      assert p[i] == (1.0 - beta[i]) * nu[i] && d[i] == beta[i] * nu[i];
    }
  }

  method SplitYield(nu: seq<real>, beta: seq<real>, g: nat) returns (prompt: seq<real>, delayed: seq<real>)
    ensures (prompt, delayed) == Split(nu, beta, g)
  {
    prompt := Zeros(g);
    delayed := Zeros(g);
    var i := 0;
    while i < g
      invariant 0 <= i <= g && |prompt| == g && |delayed| == g
      invariant forall j :: 0 <= j < i ==> prompt[j] == (1.0 - At(beta, j)) * At(nu, j) && delayed[j] == At(beta, j) * At(nu, j)
    {
      prompt := prompt[i := (1.0 - At(beta, i)) * At(nu, i)];
      delayed := delayed[i := At(beta, i) * At(nu, i)];
      i := i + 1;
    }
    assert forall j :: 0 <= j < g ==> Split(nu, beta, g).0[j] == prompt[j] && Split(nu, beta, g).1[j] == delayed[j];
    assert prompt == Split(nu, beta, g).0;
    assert delayed == Split(nu, beta, g).1;
  }
}
