// chi_mesh::MeshContinuum utilities: the face-size histogram used to size
// face buffers, cell locality and dimension queries, matching the vertices
// and faces shared by two adjacent cells, boundary-id allocation and the
// orthogonal-mesh extents query.
module MeshContinuum {
  import opened Wrappers
  import opened OrderedSets
  import opened MeshTypes
  import OrthoMesh

  /** The parts of a mesh continuum these utilities read. */
  datatype MeshContinuum = MeshContinuum(
    attributes: set<MeshAttribute>,
    orthoNx: nat, orthoNy: nat, orthoNz: nat,
    boundaryIdMap: map<nat, string>,
    globalToLocal: map<nat, nat>,
    localCells: seq<Cell>)

  // ---------------------------------------------------------------------
  // Face-size histogram

  /** Vertex counts of a list of faces, in order. */
  function FaceSizes(faces: seq<Face>): (r: seq<nat>)
    ensures |r| == |faces|
  {
    if faces == [] then [] else FaceSizes(faces[..|faces| - 1]) + [|faces[|faces| - 1].vertexIds|]
  }

  /** Vertex counts of every face of every cell, cell by cell. */
  function CellFaceSizes(cells: seq<Cell>): seq<nat>
  {
    if cells == [] then [] else CellFaceSizes(cells[..|cells| - 1]) + FaceSizes(cells[|cells| - 1].faces)
  }

  /** Each size is at least the one before it. */
  predicate Sorted(s: seq<nat>)
  {
    forall k :: 0 < k < |s| ==> s[k - 1] <= s[k]
  }

  /** In a sorted list the last size is the largest. */
  lemma {:induction false} SortedLastIsMax(s: seq<nat>)
    requires Sorted(s) && |s| > 0
    ensures forall k :: 0 <= k < |s| ==> s[k] <= s[|s| - 1]
  {
    if |s| > 1 {
      var t := s[..|s| - 1];
      assert Sorted(t) by {
        forall k | 0 < k < |t| ensures t[k - 1] <= t[k] {
          assert t[k - 1] == s[k - 1] && t[k] == s[k];
        }
      }
      SortedLastIsMax(t);
      forall k | 0 <= k < |s| ensures s[k] <= s[|s| - 1] {
        if k < |s| - 1 {
          assert s[k] == t[k] && t[|t| - 1] == s[|s| - 2];
        }
      }
    }
  }

  function Sum(s: seq<nat>): nat
  {
    if s == [] then 0 else Sum(s[..|s| - 1]) + s[|s| - 1]
  }

  /** Total count over a list of (size, count) categories. */
  function CountSum(categories: seq<(nat, nat)>): nat
  {
    if categories == [] then 0 else CountSum(categories[..|categories| - 1]) + categories[|categories| - 1].1
  }

  function InsertSorted(x: nat, s: seq<nat>): (r: seq<nat>)
    ensures |r| == |s| + 1 && (r[0] == x || (|s| > 0 && r[0] == s[0]))
  {
    if s == [] then [x]
    else if x <= s[0] then [x] + s
    else [s[0]] + InsertSorted(x, s[1..])
  }

  /** Inserting into a sorted list keeps it sorted. */
  lemma {:induction false} InsertSortedSorted(x: nat, s: seq<nat>)
    requires Sorted(s)
    ensures Sorted(InsertSorted(x, s))
  {
    if s != [] && x > s[0] {
      var tail := s[1..];
      var rest := InsertSorted(x, tail);
      assert Sorted(tail) by {
        forall k | 0 < k < |tail| ensures tail[k - 1] <= tail[k] {
          assert tail[k - 1] == s[k] && tail[k] == s[k + 1];
        }
      }
      InsertSortedSorted(x, tail);
      var r := [s[0]] + rest;
      assert InsertSorted(x, s) == r;
      assert s[0] <= rest[0] by {
        if tail != [] { assert tail[0] == s[1]; }
      }
      forall k | 0 < k < |r| ensures r[k - 1] <= r[k] {
        if k > 1 { assert r[k - 1] == rest[k - 2] && r[k] == rest[k - 1]; }
      }
    } else if s != [] {
      var r := [x] + s;
      assert InsertSorted(x, s) == r;
      forall k | 0 < k < |r| ensures r[k - 1] <= r[k] {
        if k > 1 { assert r[k - 1] == s[k - 2] && r[k] == s[k - 1]; }
      }
    }
  }

  /** Insertion adds exactly the new element. */
  lemma {:induction false} InsertSortedPermutes(x: nat, s: seq<nat>)
    ensures multiset(InsertSorted(x, s)) == multiset(s) + multiset{x}
  {
    if s != [] && x > s[0] {
      var tail := s[1..];
      InsertSortedPermutes(x, tail);
      assert InsertSorted(x, s) == [s[0]] + InsertSorted(x, tail);
      assert s == [s[0]] + tail;
    }
  }

  /** std::stable_sort on face sizes (equal sizes are indistinguishable, so
    * stability does not show). */
  function SortSizes(s: seq<nat>): (r: seq<nat>)
    ensures |r| == |s| && Sorted(r) && multiset(r) == multiset(s)
  {
    if s == [] then []
    else
      assert s == [s[0]] + s[1..];
      var t := SortSizes(s[1..]);
      InsertSortedSorted(s[0], t);
      InsertSortedPermutes(s[0], t);
      InsertSorted(s[0], t)
  }

  /** The double-precision test a / b > tol for b >= 0: x / 0 is +infinity
    * for x > 0 (which exceeds any finite tolerance) and NaN for x = 0
    * (which exceeds nothing). */
  predicate RatioExceeds(a: real, b: real, tol: real)
  {
    if b == 0.0 then a > 0.0 else a / b > tol
  }

  /** Collects the size of every face of every local cell. */
  method CollectFaceSizes(cells: seq<Cell>) returns (hist: seq<nat>)
    ensures hist == CellFaceSizes(cells)
  {
    hist := [];
    for c := 0 to |cells|
      invariant hist == CellFaceSizes(cells[..c])
    {
      var faces := cells[c].faces;
      for f := 0 to |faces|
        invariant hist == CellFaceSizes(cells[..c]) + FaceSizes(faces[..f])
      {
        assert faces[..f + 1][..f] == faces[..f];
        hist := hist + [|faces[f].vertexIds|];
      }
      assert faces[..|faces|] == faces;
      assert cells[..c + 1][..c] == cells[..c];
    }
    assert cells[..|cells|] == cells;
  }

  /** The categories built so far while scanning the sorted sizes. */
  ghost predicate BinsSoFar(sorted: seq<nat>, categories: seq<(nat, nat)>, f: nat, runningSize: nat, runningCount: nat)
  {
    f <= |sorted| && |sorted| > 0 &&
    CountSum(categories) + runningCount == f &&
    runningSize == sorted[if f == 0 then 0 else f - 1] &&
    (forall b :: 0 <= b < |categories| ==> categories[b].0 in multiset(sorted) && categories[b].0 <= runningSize) &&
    (forall b, b' :: 0 <= b < b' < |categories| ==> categories[b].0 <= categories[b'].0)
  }

  lemma BinsStart(sorted: seq<nat>)
    requires |sorted| > 0
    ensures BinsSoFar(sorted, [], 0, sorted[0], 0)
  {
  }

  lemma BinsClose(sorted: seq<nat>, categories: seq<(nat, nat)>, f: nat, runningSize: nat, runningCount: nat)
    requires BinsSoFar(sorted, categories, f, runningSize, runningCount)
    ensures BinsSoFar(sorted, categories + [(runningSize, runningCount)], f, runningSize, 0)
  {
    var cs := categories + [(runningSize, runningCount)];
    assert cs[..|cs| - 1] == categories;
    assert runningSize in multiset(sorted);
  }

  lemma BinsAdd(sorted: seq<nat>, categories: seq<(nat, nat)>, f: nat, runningSize: nat, runningCount: nat)
    requires BinsSoFar(sorted, categories, f, runningSize, runningCount) && f < |sorted| && Sorted(sorted)
    ensures BinsSoFar(sorted, categories, f + 1, sorted[f], runningCount + 1)
  {
  }

  // The bins of the scan. cuts[i] is the position at which category i is
  // closed; bin i runs from BinStart(cuts, i) up to that position, and the
  // bin still open after the last cut runs to the end of the sorted sizes.

  function BinStart(cuts: seq<nat>, i: nat): nat
    requires i <= |cuts|
  {
    if i == 0 then 0 else cuts[i - 1]
  }

  /** The running average that size f is compared with while the bin starting
    * at s is open: the first size before any size is read, else the mean of
    * the sizes read into the bin. */
  function UsedAverage(sorted: seq<nat>, s: nat, f: nat): real
    requires s <= f < |sorted| && (s < f || f == 0)
  {
    if f == 0 then sorted[0] as real else Sum(sorted[s..f]) as real / (f - s) as real
  }

  /** Size f closes the bin that starts at s. */
  predicate ClosesAt(sorted: seq<nat>, tol: real, s: nat, f: nat)
    requires s <= f < |sorted| && (s < f || f == 0)
  {
    RatioExceeds(sorted[f] as real, UsedAverage(sorted, s, f), tol)
  }

  /** The size the scan holds when it closes a bin at position c: the last size read. */
  function SizeBefore(sorted: seq<nat>, c: nat): nat
    requires 0 < |sorted| && c <= |sorted|
  {
    if c == 0 then sorted[0] else sorted[c - 1]
  }

  /** No size read into the bin that starts at s, before position e, closed
    * it. A bin other than the first starts with the size that closed the bin
    * before it, so that size is not compared again. */
  ghost predicate BinQuiet(sorted: seq<nat>, tol: real, s: nat, first: bool, e: nat)
  {
    s <= e <= |sorted| &&
    forall g :: s <= g < e && (s < g || (first && g == 0)) ==> !ClosesAt(sorted, tol, s, g)
  }

  /** The closed categories are the bins cut at the positions in cuts: each bin
    * is cut where the next size exceeds the tolerance times its running
    * average, no size inside it does, and its category records the last size
    * read and the number of sizes in the bin. */
  ghost predicate ClosedBins(sorted: seq<nat>, tol: real, categories: seq<(nat, nat)>, cuts: seq<nat>)
    decreases |cuts|
  {
    |sorted| > 0 && |cuts| == |categories| &&
    if cuts == [] then true
    else
      var n := |cuts| - 1;
      var s := BinStart(cuts, n);
      ClosedBins(sorted, tol, categories[..n], cuts[..n]) &&
      cuts[n] < |sorted| && (n == 0 || s < cuts[n]) &&
      categories[n] == (SizeBefore(sorted, cuts[n]), cuts[n] - s) &&
      ClosesAt(sorted, tol, s, cuts[n]) &&
      BinQuiet(sorted, tol, s, n == 0, cuts[n])
  }

  /** No size read into the open bin before position f closed it. */
  ghost predicate OpenBinQuiet(sorted: seq<nat>, tol: real, cuts: seq<nat>, f: nat)
  {
    BinQuiet(sorted, tol, BinStart(cuts, |cuts|), cuts == [], f)
  }

  /** The whole scan: the closed categories, and the bin left open at the end
    * holding lastBinNumFaces sizes. */
  ghost predicate Binned(sorted: seq<nat>, tol: real, categories: seq<(nat, nat)>, lastBinNumFaces: nat, cuts: seq<nat>)
  {
    ClosedBins(sorted, tol, categories, cuts) && OpenBinQuiet(sorted, tol, cuts, |sorted|) &&
    lastBinNumFaces == |sorted| - BinStart(cuts, |cuts|)
  }

  /** The categories of a histogram: the binned categories followed by one
    * for the bin left open, holding the largest size. */
  ghost predicate HistogramBins(sorted: seq<nat>, tol: real, categories: seq<(nat, nat)>, cuts: seq<nat>)
  {
    |categories| > 0 &&
    Binned(sorted, tol, categories[..|categories| - 1], categories[|categories| - 1].1, cuts)
  }

  /** The histogram of sorted sizes: when the largest size exceeds the master
    * tolerance times the average, the binned categories followed by (largest
    * size, faces of the last bin); otherwise the single category (largest
    * size, all faces). */
  ghost predicate Histogram(sorted: seq<nat>, masterTolerance: real, slaveTolerance: real, categories: seq<(nat, nat)>)
    requires |sorted| > 0
  {
    |categories| > 0 && categories[|categories| - 1].0 == sorted[|sorted| - 1] &&
    if RatioExceeds(sorted[|sorted| - 1] as real, Sum(sorted) as real / |sorted| as real, masterTolerance)
    then exists cuts :: HistogramBins(sorted, slaveTolerance, categories, cuts)
    else categories == [(sorted[|sorted| - 1], |sorted|)]
  }

  /** The state of the binning scan before it reads size f. */
  ghost predicate Scanning(sorted: seq<nat>, tol: real, categories: seq<(nat, nat)>, cuts: seq<nat>, f: nat,
                           runningTotal: nat, runningCount: nat, runningAverage: real)
  {
    ClosedBins(sorted, tol, categories, cuts) && OpenBinQuiet(sorted, tol, cuts, f) &&
    ((f > 0 || |cuts| > 0) ==> BinStart(cuts, |cuts|) < f) &&
    runningCount == f - BinStart(cuts, |cuts|) &&
    runningTotal == Sum(sorted[BinStart(cuts, |cuts|)..f]) &&
    (f < |sorted| ==> runningAverage == UsedAverage(sorted, BinStart(cuts, |cuts|), f))
  }

  lemma ScanStart(sorted: seq<nat>, tol: real)
    requires |sorted| > 0
    ensures Scanning(sorted, tol, [], [], 0, 0, 0, sorted[0] as real)
  {
  }

  /** Closing a bin at f appends its category and cut. */
  lemma BinnedClose(sorted: seq<nat>, tol: real, categories: seq<(nat, nat)>, cuts: seq<nat>, f: nat)
    requires ClosedBins(sorted, tol, categories, cuts) && OpenBinQuiet(sorted, tol, cuts, f) && f < |sorted|
    requires (f > 0 || |cuts| > 0) ==> BinStart(cuts, |cuts|) < f
    requires ClosesAt(sorted, tol, BinStart(cuts, |cuts|), f)
    ensures ClosedBins(sorted, tol, categories + [(SizeBefore(sorted, f), f - BinStart(cuts, |cuts|))], cuts + [f])
  {
    var cuts' := cuts + [f];
    var categories' := categories + [(SizeBefore(sorted, f), f - BinStart(cuts, |cuts|))];
    assert cuts'[..|cuts|] == cuts && categories'[..|cuts|] == categories;
    assert BinStart(cuts', |cuts|) == BinStart(cuts, |cuts|);
  }

  /** Size f closes the open bin, and the scan restarts the bin with f alone. */
  lemma ScanCloses(sorted: seq<nat>, tol: real, categories: seq<(nat, nat)>, cuts: seq<nat>, f: nat,
                   runningTotal: nat, runningCount: nat, runningAverage: real)
    requires Scanning(sorted, tol, categories, cuts, f, runningTotal, runningCount, runningAverage) && f < |sorted|
    requires RatioExceeds(sorted[f] as real, runningAverage, tol)
    ensures Scanning(sorted, tol, categories + [(SizeBefore(sorted, f), runningCount)], cuts + [f], f + 1,
                     sorted[f], 1, sorted[f] as real / 1 as real)
  {
    BinnedClose(sorted, tol, categories, cuts, f);
    var cuts' := cuts + [f];
    assert BinStart(cuts', |cuts'|) == f;
    assert sorted[f..f + 1] == [sorted[f]];
    assert Sum([sorted[f]]) == sorted[f] by { assert [sorted[f]][..0] == []; }
  }

  /** Size f does not close the open bin and joins it. */
  lemma ScanJoins(sorted: seq<nat>, tol: real, categories: seq<(nat, nat)>, cuts: seq<nat>, f: nat,
                  runningTotal: nat, runningCount: nat, runningAverage: real)
    requires Scanning(sorted, tol, categories, cuts, f, runningTotal, runningCount, runningAverage) && f < |sorted|
    requires !RatioExceeds(sorted[f] as real, runningAverage, tol)
    ensures Scanning(sorted, tol, categories, cuts, f + 1, runningTotal + sorted[f], runningCount + 1,
                     (runningTotal + sorted[f]) as real / (runningCount + 1) as real)
  {
    SumExtend(sorted, BinStart(cuts, |cuts|), f);
  }

  /** The variables of the binning scan before it reads a size. */
  datatype ScanState = ScanState(categories: seq<(nat, nat)>, cuts: seq<nat>, runningSize: nat,
                                 runningTotal: nat, runningCount: nat, runningAverage: real)

  /** The scan after reading the first f sorted sizes. */
  function ScanTo(sorted: seq<nat>, tol: real, f: nat): ScanState
    requires 0 < |sorted| && f <= |sorted|
    decreases f
  {
    if f == 0 then ScanState([], [], sorted[0], 0, 0, sorted[0] as real)
    else
      var st := ScanTo(sorted, tol, f - 1);
      var closes := RatioExceeds(sorted[f - 1] as real, st.runningAverage, tol);
      var categories := if closes then st.categories + [(st.runningSize, st.runningCount)] else st.categories;
      var cuts := if closes then st.cuts + [f - 1] else st.cuts;
      var total := (if closes then 0 else st.runningTotal) + sorted[f - 1];
      var count := (if closes then 0 else st.runningCount) + 1;
      ScanState(categories, cuts, sorted[f - 1], total, count, total as real / count as real)
  }

  /** The scan keeps the sizes and counts of the bins built so far. */
  lemma {:induction false} ScanToBins(sorted: seq<nat>, tol: real, f: nat)
    requires Sorted(sorted) && 0 < |sorted| && f <= |sorted|
    ensures var st := ScanTo(sorted, tol, f);
            BinsSoFar(sorted, st.categories, f, st.runningSize, st.runningCount)
    decreases f
  {
    if f == 0 {
      BinsStart(sorted);
    } else {
      var g := f - 1;
      ScanToBins(sorted, tol, g);
      var st := ScanTo(sorted, tol, g);
      if RatioExceeds(sorted[g] as real, st.runningAverage, tol) {
        BinsClose(sorted, st.categories, g, st.runningSize, st.runningCount);
        BinsAdd(sorted, st.categories + [(st.runningSize, st.runningCount)], g, st.runningSize, 0);
      } else {
        BinsAdd(sorted, st.categories, g, st.runningSize, st.runningCount);
      }
    }
  }

  /** The scan state st is where the scan stands before reading size f. */
  ghost predicate ScanInv(sorted: seq<nat>, tol: real, f: nat, st: ScanState)
  {
    0 < |sorted| && f <= |sorted| &&
    Scanning(sorted, tol, st.categories, st.cuts, f, st.runningTotal, st.runningCount, st.runningAverage) &&
    st.runningSize == SizeBefore(sorted, f)
  }

  /** The step of the scan that closes the open bin at g. */
  lemma ScanStepCloses(sorted: seq<nat>, tol: real, g: nat, st: ScanState)
    requires g < |sorted| && ScanInv(sorted, tol, g, st)
    requires RatioExceeds(sorted[g] as real, st.runningAverage, tol)
    ensures ScanInv(sorted, tol, g + 1, ScanState(st.categories + [(st.runningSize, st.runningCount)], st.cuts + [g],
                                                  sorted[g], sorted[g], 1, sorted[g] as real / 1 as real))
  {
    ScanCloses(sorted, tol, st.categories, st.cuts, g, st.runningTotal, st.runningCount, st.runningAverage);
  }

  /** The step of the scan that adds size g to the open bin. */
  lemma ScanStepJoins(sorted: seq<nat>, tol: real, g: nat, st: ScanState)
    requires g < |sorted| && ScanInv(sorted, tol, g, st)
    requires !RatioExceeds(sorted[g] as real, st.runningAverage, tol)
    ensures ScanInv(sorted, tol, g + 1, ScanState(st.categories, st.cuts, sorted[g], st.runningTotal + sorted[g],
                                                  st.runningCount + 1,
                                                  (st.runningTotal + sorted[g]) as real / (st.runningCount + 1) as real))
  {
    ScanJoins(sorted, tol, st.categories, st.cuts, g, st.runningTotal, st.runningCount, st.runningAverage);
  }

  /** The scan cuts the bins where the tolerance says. */
  lemma {:induction false} ScanToCuts(sorted: seq<nat>, tol: real, f: nat)
    requires 0 < |sorted| && f <= |sorted|
    ensures ScanInv(sorted, tol, f, ScanTo(sorted, tol, f))
    decreases f
  {
    if f == 0 {
      ScanStart(sorted, tol);
    } else {
      var g := f - 1;
      ScanToCuts(sorted, tol, g);
      var st := ScanTo(sorted, tol, g);
      if RatioExceeds(sorted[g] as real, st.runningAverage, tol) {
        ScanStepCloses(sorted, tol, g, st);
        assert ScanTo(sorted, tol, f) == ScanState(st.categories + [(st.runningSize, st.runningCount)],
          st.cuts + [g], sorted[g], sorted[g], 1, sorted[g] as real / 1 as real);
      } else {
        ScanStepJoins(sorted, tol, g, st);
        assert ScanTo(sorted, tol, f) == ScanState(st.categories, st.cuts, sorted[g], st.runningTotal + sorted[g],
          st.runningCount + 1, (st.runningTotal + sorted[g]) as real / (st.runningCount + 1) as real);
      }
    }
  }

  lemma SumExtend(sorted: seq<nat>, s: nat, f: nat)
    requires s <= f < |sorted|
    ensures Sum(sorted[s..f + 1]) == Sum(sorted[s..f]) + sorted[f]
  {
    assert sorted[s..f + 1][..f - s] == sorted[s..f];
  }

  method SumSizes(s: seq<nat>) returns (total: nat)
    ensures total == Sum(s)
  {
    total := 0;
    for f := 0 to |s|
      invariant total == Sum(s[..f])
    {
      assert s[..f + 1][..f] == s[..f];
      total := total + s[f];
    }
    assert s[..|s|] == s;
  }

  /** The binning scan over the sorted sizes: the categories it closes, and
    * the face count of the bin still open at the end. */
  method BinSortedSizes(sorted: seq<nat>, slaveTolerance: real) returns (categories: seq<(nat, nat)>, lastBinNumFaces: nat)
    requires Sorted(sorted) && |sorted| > 0
    ensures BinsSoFar(sorted, categories, |sorted|, sorted[|sorted| - 1], lastBinNumFaces)
    ensures exists cuts :: Binned(sorted, slaveTolerance, categories, lastBinNumFaces, cuts)
  {
    categories := [];
    lastBinNumFaces := |sorted|;
    var runningTotal := 0;
    var runningCount := 0;
    var runningSize := sorted[0];
    var runningAverage := sorted[0] as real;
    ghost var cuts: seq<nat> := [];
    for f := 0 to |sorted|
      invariant ScanState(categories, cuts, runningSize, runningTotal, runningCount, runningAverage) ==
                ScanTo(sorted, slaveTolerance, f)
      invariant f > 0 ==> lastBinNumFaces == runningCount
    {
      if RatioExceeds(sorted[f] as real, runningAverage, slaveTolerance) {
        categories := categories + [(runningSize, runningCount)];
        cuts := cuts + [f];
        runningTotal := 0;
        runningCount := 0;
      }
      runningSize := sorted[f];
      runningTotal := runningTotal + sorted[f];
      runningCount := runningCount + 1;
      runningAverage := runningTotal as real / runningCount as real;
      lastBinNumFaces := runningCount;
    }
    ScanToBins(sorted, slaveTolerance, |sorted|);
    ScanToCuts(sorted, slaveTolerance, |sorted|);
    assert Binned(sorted, slaveTolerance, categories, lastBinNumFaces, cuts);
  }

  /** Appending the open bin's category to the binned categories gives the
    * histogram of a list whose largest size exceeds the master tolerance. */
  lemma HistogramOfBins(sorted: seq<nat>, masterTolerance: real, slaveTolerance: real,
                        bins: seq<(nat, nat)>, lastBinNumFaces: nat, cuts: seq<nat>)
    requires |sorted| > 0 && Binned(sorted, slaveTolerance, bins, lastBinNumFaces, cuts)
    requires RatioExceeds(sorted[|sorted| - 1] as real, Sum(sorted) as real / |sorted| as real, masterTolerance)
    ensures Histogram(sorted, masterTolerance, slaveTolerance, bins + [(sorted[|sorted| - 1], lastBinNumFaces)])
  {
    var categories := bins + [(sorted[|sorted| - 1], lastBinNumFaces)];
    assert categories[..|categories| - 1] == bins;
    assert HistogramBins(sorted, slaveTolerance, categories, cuts);
  }

  /** The histogram over already sorted sizes. */
  method CategoriseSorted(sorted: seq<nat>, masterTolerance: real, slaveTolerance: real)
    returns (categories: seq<(nat, nat)>)
    requires Sorted(sorted) && |sorted| > 0
    ensures |categories| > 0 && CountSum(categories) == |sorted|
    ensures forall b :: 0 <= b < |categories| ==> categories[b].0 in multiset(sorted)
    ensures forall b, b' :: 0 <= b < b' < |categories| ==> categories[b].0 <= categories[b'].0
    ensures Histogram(sorted, masterTolerance, slaveTolerance, categories)
  {
    var total := SumSizes(sorted);
    var largest := sorted[|sorted| - 1];
    var numFaces := |sorted|;
    var average := total as real / numFaces as real;
    var lastBinNumFaces := numFaces;
    var bins := [];
    if RatioExceeds(largest as real, average, masterTolerance) {
      bins, lastBinNumFaces := BinSortedSizes(sorted, slaveTolerance);
      ghost var cuts :| Binned(sorted, slaveTolerance, bins, lastBinNumFaces, cuts);
      HistogramOfBins(sorted, masterTolerance, slaveTolerance, bins, lastBinNumFaces, cuts);
    } else {
      assert BinsSoFar(sorted, [], numFaces, largest, numFaces);
    }
    categories := bins + [(largest, lastBinNumFaces)];
    assert categories[..|categories| - 1] == bins;
  }

  /** MakeGridFaceHistogram: sort the face sizes; when the largest exceeds
    * masterTolerance times the average, split the sorted sizes into bins,
    * starting a new bin whenever a size exceeds slaveTolerance times the
    * running average of the current bin; each category is (largest size of
    * the bin, number of faces in it), and the final category is always
    * (largest size, faces in the last bin). */
  method MakeGridFaceHistogram(cells: seq<Cell>, masterTolerance: real, slaveTolerance: real)
    returns (categories: seq<(nat, nat)>)
    requires |CellFaceSizes(cells)| > 0 // front() and back() of an empty list are undefined
    ensures |categories| > 0
    ensures CountSum(categories) == |CellFaceSizes(cells)|
    ensures forall b :: 0 <= b < |categories| ==> categories[b].0 in multiset(CellFaceSizes(cells))
    ensures forall b, b' :: 0 <= b < b' < |categories| ==> categories[b].0 <= categories[b'].0
    ensures forall s :: s in multiset(CellFaceSizes(cells)) ==> s <= categories[|categories| - 1].0
    ensures var sizes := CellFaceSizes(cells);
      !RatioExceeds(categories[|categories| - 1].0 as real, Sum(sizes) as real / |sizes| as real, masterTolerance) ==>
        categories == [(categories[|categories| - 1].0, |sizes|)]
    ensures exists sorted: seq<nat> :: |sorted| == |CellFaceSizes(cells)| && Sorted(sorted) &&
      multiset(sorted) == multiset(CellFaceSizes(cells)) && Histogram(sorted, masterTolerance, slaveTolerance, categories)
  {
    var hist := CollectFaceSizes(cells);
    var sorted := SortSizes(hist);
    SumPermutation(sorted, hist);
    assert Sum(sorted) == Sum(CellFaceSizes(cells)) && |sorted| == |CellFaceSizes(cells)|;
    categories := CategoriseSorted(sorted, masterTolerance, slaveTolerance);
    SortedLastIsMax(sorted);
    forall s | s in multiset(CellFaceSizes(cells)) ensures s <= categories[|categories| - 1].0 {
      assert s in multiset(sorted);
      var q :| 0 <= q < |sorted| && sorted[q] == s;
    }
  }

  /** Sum depends only on the multiset of values. */
  lemma {:induction false} SumPermutation(a: seq<nat>, b: seq<nat>)
    requires multiset(a) == multiset(b)
    ensures Sum(a) == Sum(b)
    decreases |a|
  {
    if a != [] {
      var x := a[|a| - 1];
      assert x in multiset(b);
      var q :| 0 <= q < |b| && b[q] == x;
      var b' := b[..q] + b[q + 1..];
      assert b == b[..q] + [x] + b[q + 1..];
      assert a == a[..|a| - 1] + [x];
      assert b' == b[..q] + b[q + 1..];
      assert multiset(b) == multiset(b[..q]) + multiset{x} + multiset(b[q + 1..]);
      assert multiset(a) == multiset(a[..|a| - 1]) + multiset{x};
      assert multiset(a[..|a| - 1]) == multiset(a) - multiset{x};
      assert multiset(b') == multiset(b) - multiset{x};
      SumPermutation(a[..|a| - 1], b');
      SumSplit(b[..q], x, b[q + 1..]);
    }
  }

  /** Removing one element from the middle lowers the sum by that element. */
  lemma {:induction false} SumSplit(l: seq<nat>, x: nat, r: seq<nat>)
    ensures Sum(l + [x] + r) == Sum(l + r) + x
    decreases |r|
  {
    if r == [] {
      assert l + [x] + r == l + [x];
      assert l + r == l;
      assert (l + [x])[..|l + [x]| - 1] == l;
    } else {
      var r' := r[..|r| - 1];
      var y := r[|r| - 1];
      assert l + [x] + r == (l + [x] + r') + [y];
      assert l + r == (l + r') + [y];
      assert ((l + [x] + r') + [y])[..|l + [x] + r| - 1] == l + [x] + r';
      assert ((l + r') + [y])[..|l + r| - 1] == l + r';
      SumSplit(l, x, r');
    }
  }

  // ---------------------------------------------------------------------
  // Queries

  /** IsCellLocal: the global id is a key of the global-to-local map. */
  function IsCellLocal(mesh: MeshContinuum, cellGlobalIndex: nat): (r: bool)
    ensures r <==> cellGlobalIndex in mesh.globalToLocal
  {
    cellGlobalIndex in mesh.globalToLocal
  }

  /** The global-to-local map indexes the local cells: ids[i] is the global id
    * of local cell i, and the map sends each such id back to i and nothing else. */
  ghost predicate IndexesLocalCells(mesh: MeshContinuum, ids: seq<nat>)
  {
    |ids| == |mesh.localCells| &&
    (forall i :: 0 <= i < |ids| ==> ids[i] in mesh.globalToLocal && mesh.globalToLocal[ids[i]] == i) &&
    (forall g :: g in mesh.globalToLocal ==> mesh.globalToLocal[g] < |ids| && ids[mesh.globalToLocal[g]] == g)
  }

  /** A cell is local exactly when some local cell carries its global id, and
    * then the map gives that cell's local index. */
  lemma IsCellLocalFindsCell(mesh: MeshContinuum, ids: seq<nat>, g: nat)
    requires IndexesLocalCells(mesh, ids)
    ensures IsCellLocal(mesh, g) <==> exists i :: 0 <= i < |ids| && ids[i] == g
    ensures IsCellLocal(mesh, g) ==> mesh.globalToLocal[g] < |mesh.localCells| && ids[mesh.globalToLocal[g]] == g
  {
  }

  /** GetCellDimension: points and ghosts are 0-dimensional, slabs 1, the
    * polygons 2 and the polyhedra 3; any other type is a logic_error. */
  function GetCellDimension(t: CellType): (r: Result<nat>)
    ensures r.Failure? <==> t.Unlisted?
    ensures r.Failure? ==> r.error == LogicError
    ensures r.Success? ==> r.value <= 3
    ensures r.Success? && r.value == 3 <==> t in {Tetrahedron, Hexahedron, Wedge, Pyramid, Polyhedron}
    ensures r.Success? && r.value == 2 <==> t in {Triangle, Quadrilateral, Polygon}
    ensures r.Success? && r.value == 1 <==> t == Slab
    ensures r.Success? && r.value == 0 <==> t in {PointCell, Ghost}
  {
    match t
    case PointCell | Ghost => Success(0)
    case Slab => Success(1)
    case Triangle | Quadrilateral | Polygon => Success(2)
    case Tetrahedron | Hexahedron | Wedge | Pyramid | Polyhedron => Success(3)
    case Unlisted(_) => Failure(LogicError)
  }

  /** Every cell the orthogonal generator builds has the dimension of the
    * mesh it belongs to. */
  lemma GeneratedCellDimensions(i: nat, j: nat, k: nat, nx: nat, ny: nat, nz: nat)
    requires nx >= 2 && ny >= 2 && nz >= 2
    ensures GetCellDimension(OrthoMesh.SlabCell(k, nz).cellType) == Success(1)
    ensures GetCellDimension(OrthoMesh.QuadCellAsWritten(i, j, nx, ny).cellType) == Success(2)
    ensures GetCellDimension(OrthoMesh.QuadCellAsWritten(i, j, nx, ny).subType) == Success(2)
    ensures GetCellDimension(OrthoMesh.HexCell(i, j, k, nx, ny, nz).cellType) == Success(3)
    ensures GetCellDimension(OrthoMesh.HexCell(i, j, k, nx, ny, nz).subType) == Success(3)
  {
  }

  /** GetIJKInfo: the orthogonal extents, only on a mesh flagged orthogonal. */
  function GetIJKInfo(mesh: MeshContinuum): (r: Result<(nat, nat, nat)>)
    ensures r.Success? <==> Orthogonal in mesh.attributes
    ensures r.Success? ==> r.value == (mesh.orthoNx, mesh.orthoNy, mesh.orthoNz)
    ensures r.Failure? ==> r.error == LogicError
  {
    if Orthogonal !in mesh.attributes then Failure(LogicError)
    else Success((mesh.orthoNx, mesh.orthoNy, mesh.orthoNz))
  }

  // ---------------------------------------------------------------------
  // Matching the vertices and faces of adjacent cells

  /** FindAssociatedCellVertices: for each vertex of the face, its first
    * position among the vertices of the neighbouring cell. A face without a
    * neighbour is a logic_error; a vertex the neighbour lacks ends the
    * program. */
  method FindAssociatedCellVertices(curFace: Face, cells: seq<Cell>) returns (r: Result<seq<nat>>)
    requires curFace.hasNeighbor ==> curFace.neighbor < |cells|
    ensures !curFace.hasNeighbor ==> r == Failure(LogicError)
    ensures curFace.hasNeighbor ==>
      (r.Success? <==> forall q :: 0 <= q < |curFace.vertexIds| ==> curFace.vertexIds[q] in cells[curFace.neighbor].vertexIds)
    ensures r.Failure? && curFace.hasNeighbor ==> r.error == ProgramExit
    ensures r.Success? ==> curFace.hasNeighbor && FirstPositions(r.value, curFace.vertexIds, cells[curFace.neighbor].vertexIds)
  {
    if !curFace.hasNeighbor {
      return Failure(LogicError);
    }
    var adj := cells[curFace.neighbor].vertexIds;
    var mapping: seq<nat> := [];
    for q := 0 to |curFace.vertexIds|
      invariant FirstPositions(mapping, curFace.vertexIds[..q], adj)
    {
      var cfvid := curFace.vertexIds[q];
      var found := false;
      var acv := 0;
      while acv < |adj|
        invariant 0 <= acv <= |adj|
        invariant forall p :: 0 <= p < acv ==> adj[p] != cfvid
      {
        if cfvid == adj[acv] {
          found := true;
          break;
        }
        acv := acv + 1;
      }
      if !found {
        assert !(curFace.vertexIds[q] in adj);
        return Failure(ProgramExit);
      }
      FirstPositionsSnoc(mapping, curFace.vertexIds[..q], adj, cfvid, acv);
      assert curFace.vertexIds[..q + 1] == curFace.vertexIds[..q] + [cfvid];
      mapping := mapping + [acv];
    }
    assert curFace.vertexIds[..|curFace.vertexIds|] == curFace.vertexIds;
    FirstPositionsCover(mapping, curFace.vertexIds, adj);
    return Success(mapping);
  }

  /** mapping[q] is the first position of ids[q] among adj. */
  predicate FirstPositions(mapping: seq<nat>, ids: seq<nat>, adj: seq<nat>)
  {
    |mapping| == |ids| &&
    forall q :: 0 <= q < |mapping| ==>
      mapping[q] < |adj| && adj[mapping[q]] == ids[q] &&
      forall p :: 0 <= p < mapping[q] ==> adj[p] != ids[q]
  }

  lemma FirstPositionsSnoc(mapping: seq<nat>, ids: seq<nat>, adj: seq<nat>, id: nat, pos: nat)
    requires FirstPositions(mapping, ids, adj)
    requires pos < |adj| && adj[pos] == id && forall p :: 0 <= p < pos ==> adj[p] != id
    ensures FirstPositions(mapping + [pos], ids + [id], adj)
  {
  }

  lemma FirstPositionsCover(mapping: seq<nat>, ids: seq<nat>, adj: seq<nat>)
    requires FirstPositions(mapping, ids, adj)
    ensures forall q :: 0 <= q < |ids| ==> ids[q] in adj
  {
    forall q | 0 <= q < |ids|
      ensures ids[q] in adj
    {
      assert adj[mapping[q]] == ids[q];
    }
  }

  /** Builds the std::set of a face's vertex ids. */
  method VertexIdSet(ids: seq<nat>) returns (s: set<nat>)
    ensures s == IdSet(ids)
  {
    s := {};
    for q := 0 to |ids|
      invariant s == IdSet(ids[..q])
    {
      assert IdSet(ids[..q + 1]) == IdSet(ids[..q]) + {ids[q]} by {
        assert ids[..q + 1] == ids[..q] + [ids[q]];
      }
      s := s + {ids[q]};
    }
    assert ids[..|ids|] == ids;
  }

  /** MapCellFace: the first face of the adjacent cell over the same set of
    * vertices as face f of the current cell; a logic_error when none is. */
  method MapCellFace(curCell: Cell, adjCell: Cell, f: nat) returns (r: Result<nat>)
    requires f < |curCell.faces|
    ensures r.Success? ==>
      r.value < |adjCell.faces| &&
      IdSet(adjCell.faces[r.value].vertexIds) == IdSet(curCell.faces[f].vertexIds) &&
      forall af :: 0 <= af < r.value ==> IdSet(adjCell.faces[af].vertexIds) != IdSet(curCell.faces[f].vertexIds)
    ensures r.Failure? <==>
      forall af :: 0 <= af < |adjCell.faces| ==> IdSet(adjCell.faces[af].vertexIds) != IdSet(curCell.faces[f].vertexIds)
    ensures r.Failure? ==> r.error == LogicError
  {
    var ccfaceVids := VertexIdSet(curCell.faces[f].vertexIds);
    for af := 0 to |adjCell.faces|
      invariant forall af' :: 0 <= af' < af ==> IdSet(adjCell.faces[af'].vertexIds) != ccfaceVids
    {
      var acfaceVids := VertexIdSet(adjCell.faces[af].vertexIds);
      if acfaceVids == ccfaceVids {
        return Success(af);
      }
    }
    return Failure(LogicError);
  }

  /** On a mesh whose neighbour links are mutual, a face with a neighbour
    * always has a matching face on that neighbour, so MapCellFace from it
    * cannot fail. */
  lemma ReciprocalFacesMap(cells: seq<Cell>, c: nat, f: nat)
    requires NeighboursReciprocal(cells)
    requires c < |cells| && f < |cells[c].faces| && cells[c].faces[f].hasNeighbor
    ensures cells[c].faces[f].neighbor < |cells|
    ensures exists af ::
      (0 <= af < |cells[cells[c].faces[f].neighbor].faces| &&
       IdSet(cells[cells[c].faces[f].neighbor].faces[af].vertexIds) == IdSet(cells[c].faces[f].vertexIds))
  {
    var n := cells[c].faces[f].neighbor;
    assert HasMatchingFace(cells[n], c, cells[c].faces[f].vertexIds);
    var g :| 0 <= g < |cells[n].faces| && cells[n].faces[g].hasNeighbor &&
      cells[n].faces[g].neighbor == c && IdSet(cells[n].faces[g].vertexIds) == IdSet(cells[c].faces[f].vertexIds);
  }

  // ---------------------------------------------------------------------
  // Boundary ids

  /** The smallest key among `keys` whose name is `name` (std::map visits
    * its keys in ascending order). */
  function FirstIdNamed(m: map<nat, string>, keys: set<nat>, name: string): (r: Option<nat>)
    requires keys <= m.Keys
    ensures r.Some? ==>
      r.value in keys && m[r.value] == name && (forall k :: k in keys && m[k] == name ==> r.value <= k)
    ensures r.None? ==> forall k :: k in keys ==> m[k] != name
    decreases keys
  {
    if keys == {} then None
    else
      var k := SetMin(keys);
      if m[k] == name then Some(k) else FirstIdNamed(m, keys - {k}, name)
  }

  /** The largest key, starting from 0. */
  function MaxId(keys: set<nat>): (r: nat)
    ensures forall k :: k in keys ==> k <= r
    ensures keys != {} ==> r in keys
    decreases keys
  {
    if keys == {} then 0
    else
      var k := SetMin(keys);
      var rest := MaxId(keys - {k});
      assert forall x :: x in keys ==> x == k || x in keys - {k};
      if rest >= k then rest else k
  }

  /** MakeBoundaryID: 0 for an empty map; the (smallest) id already named
    * `name`; otherwise one more than the largest id. */
  function MakeBoundaryID(m: map<nat, string>, name: string): (r: nat)
    ensures m == map[] ==> r == 0
    ensures (exists id :: id in m && m[id] == name) ==>
      r in m && m[r] == name && forall id :: id in m && m[id] == name ==> r <= id
    ensures m != map[] && (forall id :: id in m ==> m[id] != name) ==>
      r !in m && (forall id :: id in m ==> id < r) && r - 1 in m
  {
    if m == map[] then 0
    else
      match FirstIdNamed(m, m.Keys, name)
      case Some(id) => id
      case None => MaxId(m.Keys) + 1
  }

  /** Registering the id MakeBoundaryID returns under its name and asking
    * again returns the same id, and leaves every other entry as it was. */
  lemma MakeBoundaryIDStable(m: map<nat, string>, name: string)
    ensures var r := MakeBoundaryID(m, name);
      MakeBoundaryID(m[r := name], name) == r &&
      forall id :: id in m && id != r ==> id in m[r := name] && m[r := name][id] == m[id]
  {
    var r := MakeBoundaryID(m, name);
    var m' := m[r := name];
    assert r in m' && m'[r] == name;
    if exists id :: id in m && m[id] == name {
      assert m' == m;
    } else {
      assert forall id :: id in m' && m'[id] == name ==> id == r;
    }
  }
}
