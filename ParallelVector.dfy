// The serial storage of a distributed vector: each process holds the entries
// of one contiguous block of global indices (its extents), answers local
// index reads with a bounds check, does the local vector algebra, and caches
// set/add operations on global indices until they are assembled.
module ParallelVectors {
  import opened Wrappers

  /** The two kinds of cached operation (SET_VALUE = 1, ADD_VALUE = 2). */
  datatype VecOpType = SetValue | AddValue

  /** One cached operation: a global index and a value. */
  datatype CachedOp = CachedOp(globalId: int, value: real)

  // ---------------------------------------------------------------------------
  // Ownership extents
  // ---------------------------------------------------------------------------

  /** The sum of the first `p` local sizes. */
  function PrefixSum(sizes: seq<nat>, p: nat): nat
    requires p <= |sizes|
  {
    if p == 0 then 0 else PrefixSum(sizes, p - 1) + sizes[p - 1]
  }

  /** The global size of a vector whose processes hold `sizes` entries each. */
  function Total(sizes: seq<nat>): nat
  {
    PrefixSum(sizes, |sizes|)
  }

  /** `ext` is the cumulative sum of `sizes`, one entry more than `sizes`. */
  predicate IsExtents(ext: seq<nat>, sizes: seq<nat>)
  {
    |ext| == |sizes| + 1 &&
    forall p :: 0 <= p <= |sizes| ==> ext[p] == PrefixSum(sizes, p)
  }

  /** Extents that start at 0, never decrease and end at `total`. */
  predicate WellFormedExtents(ext: seq<nat>, total: nat)
  {
    2 <= |ext| && ext[0] == 0 && ext[|ext| - 1] == total &&
    forall p, q :: 0 <= p <= q < |ext| ==> ext[p] <= ext[q]
  }

  /** Process `p` owns global index `id`: ext[p] <= id < ext[p+1]. */
  predicate Brackets(ext: seq<nat>, p: int, id: int)
  {
    0 <= p && p + 1 < |ext| && ext[p] <= id < ext[p + 1]
  }

  /**
   * Computes the extents from the local sizes gathered from every process:
   * extents[0] is 0 and extents[p] adds the size of process p-1.
   */
  method DefineExtents(sizes: seq<nat>) returns (ext: seq<nat>)
    requires |sizes| >= 1
    ensures IsExtents(ext, sizes)
  {
    var n := |sizes|;
    ext := seq(n + 1, _ => 0);
    var p := 1;
    while p < n
      invariant 1 <= p <= n
      invariant |ext| == n + 1
      invariant forall q :: 0 <= q < p ==> ext[q] == PrefixSum(sizes, q)
    {
      ext := ext[p := ext[p - 1] + sizes[p - 1]];
      p := p + 1;
    }
    ext := ext[n := ext[n - 1] + sizes[n - 1]];
  }

  lemma {:induction false} PrefixSumMonotone(sizes: seq<nat>, p: nat, q: nat)
    requires p <= q <= |sizes|
    ensures PrefixSum(sizes, p) <= PrefixSum(sizes, q)
    decreases q - p
  {
    if p < q {
      PrefixSumMonotone(sizes, p, q - 1);
    }
  }

  /** Extents computed from local sizes start at 0, grow, and end at the total. */
  lemma ExtentsWellFormed(ext: seq<nat>, sizes: seq<nat>)
    requires |sizes| >= 1 && IsExtents(ext, sizes)
    ensures WellFormedExtents(ext, Total(sizes))
    ensures forall p :: 0 <= p < |sizes| ==> ext[p + 1] == ext[p] + sizes[p]
  {
    forall p, q | 0 <= p <= q < |ext|
      ensures ext[p] <= ext[q]
    {
      PrefixSumMonotone(sizes, p, q);
    }
  }

  /** Two processes never own the same global index. */
  lemma OwnerUnique(ext: seq<nat>, total: nat, id: int, p: int, q: int)
    requires WellFormedExtents(ext, total)
    requires Brackets(ext, p, id) && Brackets(ext, q, id)
    ensures p == q
  {
  }

  lemma {:induction false} OwnerExistsFrom(ext: seq<nat>, total: nat, id: int, p: nat)
    requires WellFormedExtents(ext, total)
    requires p + 1 < |ext| && ext[p] <= id < total
    ensures exists q :: p <= q && Brackets(ext, q, id)
    decreases |ext| - p
  {
    if id < ext[p + 1] {
      assert Brackets(ext, p, id);
    } else {
      assert ext[p + 1] < ext[|ext| - 1];
      OwnerExistsFrom(ext, total, id, p + 1);
    }
  }

  /** Every global index below the total has an owner. */
  lemma OwnerExists(ext: seq<nat>, total: nat, id: int)
    requires WellFormedExtents(ext, total)
    requires 0 <= id < total
    ensures exists p :: Brackets(ext, p, id)
  {
    OwnerExistsFrom(ext, total, id, 0);
  }

  // ---------------------------------------------------------------------------
  // Local vector algebra
  // ---------------------------------------------------------------------------

  /** x + a*y, entry by entry. */
  function PlusScaled(x: seq<real>, y: seq<real>, a: real): (r: seq<real>)
    requires |y| >= |x|
  {
    seq(|x|, i requires 0 <= i < |x| => x[i] + a * y[i])
  }

  /** a*x + y, entry by entry. */
  function ScaledPlus(a: real, x: seq<real>, y: seq<real>): (r: seq<real>)
    requires |y| >= |x|
  {
    seq(|x|, i requires 0 <= i < |x| => a * x[i] + y[i])
  }

  /** a*x, entry by entry. */
  function Scaled(x: seq<real>, a: real): (r: seq<real>)
  {
    seq(|x|, i requires 0 <= i < |x| => x[i] * a)
  }

  /** x + a, entry by entry. */
  function Shifted(x: seq<real>, a: real): (r: seq<real>)
  {
    seq(|x|, i requires 0 <= i < |x| => x[i] + a)
  }

  /** Adding a*y and then -a*y gives back the vector. */
  lemma PlusScaledUndone(x: seq<real>, y: seq<real>, a: real)
    requires |y| >= |x|
    ensures PlusScaled(PlusScaled(x, y, a), y, -a) == x
  {
    var z := PlusScaled(PlusScaled(x, y, a), y, -a);
    forall i | 0 <= i < |x|
      ensures z[i] == x[i]
    {
      assert z[i] == (x[i] + a * y[i]) + (-a) * y[i];
    }
  }

  /** AXPlusY is a scaling followed by PlusAY with a = 1. */
  lemma ScaledPlusIsScaleThenAdd(a: real, x: seq<real>, y: seq<real>)
    requires |y| >= |x|
    ensures ScaledPlus(a, x, y) == PlusScaled(Scaled(x, a), y, 1.0)
  {
    var l := ScaledPlus(a, x, y);
    var r := PlusScaled(Scaled(x, a), y, 1.0);
    forall i | 0 <= i < |x|
      ensures l[i] == r[i]
    {
      assert r[i] == x[i] * a + 1.0 * y[i];
    }
  }

  /** Shifting by a and then by -a gives back the vector. */
  lemma ShiftedUndone(x: seq<real>, a: real)
    ensures Shifted(Shifted(x, a), -a) == x
  {
    var z := Shifted(Shifted(x, a), -a);
    forall i | 0 <= i < |x|
      ensures z[i] == x[i]
    {
      assert z[i] == (x[i] + a) + -a;
    }
  }

  /** Scaling by a nonzero a and then by 1/a gives back the vector. */
  lemma ScaledUndone(x: seq<real>, a: real)
    requires a != 0.0
    ensures Scaled(Scaled(x, a), 1.0 / a) == x
  {
    var z := Scaled(Scaled(x, a), 1.0 / a);
    forall i | 0 <= i < |x|
      ensures z[i] == x[i]
    {
      assert a * (1.0 / a) == 1.0;
      assert z[i] == x[i] * (a * (1.0 / a));
    }
  }

  // ---------------------------------------------------------------------------
  // Block copies
  // ---------------------------------------------------------------------------

  /**
   * The checks BlockSet makes as written: the count is compared with the
   * source size and offset+count with the local size, both as unsigned
   * values, so a negative count or a negative end is rejected but a negative
   * offset with a non-negative end is not.
   */
  predicate BlockSetAdmitsAsWritten(ySize: nat, localSize: nat, offset: int, num: int)
  {
    0 <= num <= ySize && 0 <= offset + num <= localSize
  }

  /** The corrected checks: the offset must not be negative either. */
  predicate BlockSetAdmits(ySize: nat, localSize: nat, offset: int, num: int)
  {
    0 <= offset && BlockSetAdmitsAsWritten(ySize, localSize, offset, num)
  }

  /**
   * As written, BlockSet lets an offset of -1 with one value through to a
   * vector of one entry, and the copy then writes at local index -1.
   */
  lemma BlockSetAsWrittenWritesBeforeBuffer(ySize: nat, localSize: nat, offset: int, num: int)
    ensures (BlockSetAdmitsAsWritten(ySize, localSize, offset, num) && !BlockSetAdmits(ySize, localSize, offset, num))
            <==> (offset < 0 && 0 < num <= ySize && 0 <= offset + num <= localSize)
    ensures BlockSetAdmitsAsWritten(1, 1, -1, 1) && !BlockSetAdmits(1, 1, -1, 1)
  {
  }

  // ---------------------------------------------------------------------------
  // Cached operations and their assembly
  // ---------------------------------------------------------------------------

  /** The operations pairing each id with its value. */
  function Paired(ids: seq<int>, vals: seq<real>): (r: seq<CachedOp>)
    requires |ids| == |vals|
  {
    seq(|ids|, i requires 0 <= i < |ids| => CachedOp(ids[i], vals[i]))
  }

  /** The caches after appending `ops` to the one `opType` selects. */
  function Appended(setCache: seq<CachedOp>, addCache: seq<CachedOp>, opType: VecOpType,
                    ops: seq<CachedOp>): (seq<CachedOp>, seq<CachedOp>)
  {
    if opType == SetValue then (setCache + ops, addCache) else (setCache, addCache + ops)
  }

  /** Appending in two steps is appending the concatenation. */
  lemma AppendedTwice(setCache: seq<CachedOp>, addCache: seq<CachedOp>, opType: VecOpType,
                      xs: seq<CachedOp>, ys: seq<CachedOp>)
    ensures var c := Appended(setCache, addCache, opType, xs);
            Appended(c.0, c.1, opType, ys) == Appended(setCache, addCache, opType, xs + ys)
  {
    assert setCache + xs + ys == setCache + (xs + ys);
    assert addCache + xs + ys == addCache + (xs + ys);
  }

  /** The length of the longest prefix of `ids` inside [0, globalSize). */
  function ValidPrefix(ids: seq<int>, globalSize: nat): (k: nat)
    ensures k <= |ids|
    ensures forall i :: 0 <= i < k ==> 0 <= ids[i] < globalSize
    ensures k < |ids| ==> !(0 <= ids[k] < globalSize)
  {
    if |ids| == 0 || !(0 <= ids[0] < globalSize) then 0
    else 1 + ValidPrefix(ids[1..], globalSize)
  }

  /**
   * The mode of a pair of caches: 1 when only sets are cached, 2 when only
   * adds are, 3 when both are, 0 when neither is.
   */
  function LocalMode(setCache: seq<CachedOp>, addCache: seq<CachedOp>): (m: nat)
    ensures m == 0 <==> setCache == [] && addCache == []
    ensures m == 3 <==> setCache != [] && addCache != []
    ensures m == 1 <==> setCache != [] && addCache == []
    ensures m == 2 <==> setCache == [] && addCache != []
  {
    (if setCache != [] then 1 else 0) + (if addCache != [] then 2 else 0)
  }

  /** The operations of `ops` that process `loc` owns, in order. */
  function LocalOps(ops: seq<CachedOp>, ext: seq<nat>, loc: nat): (r: seq<CachedOp>)
    ensures |r| <= |ops|
    ensures forall o :: o in r ==> o in ops && Brackets(ext, loc, o.globalId)
  {
    if ops == [] then []
    else
      var rest := LocalOps(ops[..|ops| - 1], ext, loc);
      var op := ops[|ops| - 1];
      if Brackets(ext, loc, op.globalId) then rest + [op] else rest
  }

  /** Every operation maps to a local index inside `x`. */
  predicate InRange(ops: seq<CachedOp>, base: int, size: nat)
  {
    forall o :: o in ops ==> 0 <= o.globalId - base < size
  }

  /** Sets or adds one operation at local index globalId - base. */
  function ApplyOne(x: seq<real>, op: CachedOp, base: int, isSet: bool): (r: seq<real>)
    requires 0 <= op.globalId - base < |x|
  {
    var l := op.globalId - base;
    x[l := if isSet then op.value else x[l] + op.value]
  }

  /** The operations applied in order to the local entries. */
  function ApplyOps(x: seq<real>, ops: seq<CachedOp>, base: int, isSet: bool): (r: seq<real>)
    requires InRange(ops, base, |x|)
    ensures |r| == |x|
  {
    if ops == [] then x
    else
      var prefix := ops[..|ops| - 1];
      assert forall o :: o in prefix ==> o in ops;
      ApplyOne(ApplyOps(x, prefix, base, isSet), ops[|ops| - 1], base, isSet)
  }

  /** The sum of the values of the operations naming `id`. */
  function SumNaming(ops: seq<CachedOp>, id: int): real
  {
    if ops == [] then 0.0
    else
      var op := ops[|ops| - 1];
      SumNaming(ops[..|ops| - 1], id) + (if op.globalId == id then op.value else 0.0)
  }

  /** In set mode an entry that no operation names keeps its value. */
  lemma {:induction false} SetModeUntouched(x: seq<real>, ops: seq<CachedOp>, base: int, i: nat)
    requires InRange(ops, base, |x|) && i < |x|
    requires forall k :: 0 <= k < |ops| ==> ops[k].globalId != base + i
    ensures ApplyOps(x, ops, base, true)[i] == x[i]
  {
    if ops != [] {
      var prefix := ops[..|ops| - 1];
      assert forall o :: o in prefix ==> o in ops;
      assert forall k :: 0 <= k < |prefix| ==> prefix[k] == ops[k];
      SetModeUntouched(x, prefix, base, i);
    }
  }

  /**
   * In set mode an entry ends with the value of the last operation that
   * names it.
   */
  lemma {:induction false} SetModeLastWins(x: seq<real>, ops: seq<CachedOp>, base: int, i: nat, k: nat)
    requires InRange(ops, base, |x|) && i < |x|
    requires k < |ops| && ops[k].globalId == base + i
    requires forall l :: k < l < |ops| ==> ops[l].globalId != base + i
    ensures ApplyOps(x, ops, base, true)[i] == ops[k].value
  {
    var prefix := ops[..|ops| - 1];
    assert forall o :: o in prefix ==> o in ops;
    if k < |ops| - 1 {
      assert forall l :: k < l < |prefix| ==> prefix[l] == ops[l];
      SetModeLastWins(x, prefix, base, i, k);
    }
  }

  /** In add mode each entry gains the sum of the values naming it. */
  lemma {:induction false} AddModeSums(x: seq<real>, ops: seq<CachedOp>, base: int, i: nat)
    requires InRange(ops, base, |x|) && i < |x|
    ensures ApplyOps(x, ops, base, false)[i] == x[i] + SumNaming(ops, base + i)
  {
    if ops != [] {
      var prefix := ops[..|ops| - 1];
      assert forall o :: o in prefix ==> o in ops;
      AddModeSums(x, prefix, base, i);
    }
  }

  /** Operations owned by process `loc` map inside its local block. */
  lemma LocalOpsInRange(ops: seq<CachedOp>, ext: seq<nat>, loc: nat, size: nat)
    requires loc + 1 < |ext| && ext[loc + 1] == ext[loc] + size
    ensures InRange(LocalOps(ops, ext, loc), ext[loc], size)
  {
  }

  // ---------------------------------------------------------------------------
  // The vector
  // ---------------------------------------------------------------------------

  class ParallelSTLVector {
    var localSize: nat
    var globalSize: nat
    var locationId: nat
    var processCount: nat
    var extents: seq<nat>
    var values: seq<real>
    var setCache: seq<CachedOp>
    var addCache: seq<CachedOp>

    /** The sizes of the fields agree with each other. */
    predicate Shaped()
      reads this
    {
      |values| == localSize && |extents| == processCount + 1
    }

    /**
     * The extents cover [0, globalSize), this process owns a block of
     * localSize indices, and every cached operation names a valid global id.
     */
    predicate Valid()
      reads this
    {
      Shaped() &&
      locationId < processCount &&
      WellFormedExtents(extents, globalSize) &&
      extents[locationId + 1] == extents[locationId] + localSize &&
      (forall o :: o in setCache ==> 0 <= o.globalId < globalSize) &&
      (forall o :: o in addCache ==> 0 <= o.globalId < globalSize)
    }

    /**
     * A zero vector of `localSize` entries on process `locationId`, whose
     * extents come from the local sizes of every process.
     */
    constructor(localSize: nat, globalSize: nat, locationId: nat, sizes: seq<nat>)
      requires locationId < |sizes| && sizes[locationId] == localSize
      requires Total(sizes) == globalSize
      ensures Valid()
      ensures this.localSize == localSize && this.globalSize == globalSize
      ensures this.locationId == locationId && processCount == |sizes|
      ensures IsExtents(extents, sizes)
      ensures values == seq(localSize, _ => 0.0)
      ensures setCache == [] && addCache == []
    {
      this.localSize := localSize;
      this.globalSize := globalSize;
      this.locationId := locationId;
      processCount := |sizes|;
      var ext := DefineExtents(sizes);
      ExtentsWellFormed(ext, sizes);
      extents := ext;
      values := seq(localSize, _ => 0.0);
      setCache := [];
      addCache := [];
    }

    /** operator[]: the entry at a local index, rejected outside the storage. */
    function Get(localId: int): (r: Result<real>)
      reads this
      ensures r.Failure? <==> localId < 0 || localId >= |values|
      ensures r.Failure? ==> r.error == InvalidArgument
      ensures r.Success? ==> r.value == values[localId]
    {
      if localId < 0 || localId >= |values| then Failure(InvalidArgument)
      else Success(values[localId])
    }

    /** Set(value): every entry becomes `value`. */
    method SetAll(value: real)
      modifies this`values
      ensures values == seq(|old(values)|, _ => value)
    {
      values := seq(|values|, _ => value);
    }

    /**
     * Set(vector): the first localSize entries are copied from `local`,
     * which must hold at least that many.
     */
    method SetFrom(local: seq<real>) returns (r: Result<()>)
      requires Shaped()
      modifies this`values
      ensures r.Failure? <==> |local| < localSize
      ensures r.Failure? ==> r.error == InvalidArgument && values == old(values)
      ensures r.Success? ==> values == local[..localSize]
    {
      if |local| < localSize {
        return Failure(InvalidArgument);
      }
      values := local[..localSize];
      return Success(());
    }

    /**
     * BlockSet: copies the first `num` entries of `y` to the local entries
     * starting at `offset`, with the corrected checks (see
     * BlockSetAdmitsAsWritten for the checks as written).
     */
    method BlockSet(y: seq<real>, offset: int, num: int) returns (r: Result<()>)
      requires Shaped()
      modifies this`values
      ensures r.Success? <==> BlockSetAdmits(|y|, localSize, offset, num)
      ensures r.Failure? ==> r.error == InvalidArgument && values == old(values)
      ensures r.Success? ==>
        values == old(values)[..offset] + y[..num] + old(values)[offset + num..]
    {
      if !(0 <= num <= |y|) {
        return Failure(InvalidArgument);
      }
      if !(0 <= offset + num <= localSize) || offset < 0 {
        return Failure(InvalidArgument);
      }
      values := values[..offset] + y[..num] + values[offset + num..];
      return Success(());
    }

    /** Appends one valid operation to the cache its type selects. */
    method Cache(op: CachedOp, opType: VecOpType)
      requires Valid() && 0 <= op.globalId < globalSize
      modifies this`setCache, this`addCache
      ensures Valid()
      ensures (setCache, addCache) == Appended(old(setCache), old(addCache), opType, [op])
    {
      if opType == SetValue {
        setCache := setCache + [op];
      } else {
        addCache := addCache + [op];
      }
    }

    /**
     * SetValue: a global id outside [0, globalSize) is rejected; otherwise
     * the operation is appended to the set or add cache.
     */
    method SetValueAt(globalId: int, value: real, opType: VecOpType) returns (r: Result<()>)
      requires Valid()
      modifies this`setCache, this`addCache
      ensures Valid()
      ensures r.Failure? <==> !(0 <= globalId < globalSize)
      ensures r.Failure? ==> r.error == InvalidArgument
      ensures r.Failure? ==> setCache == old(setCache) && addCache == old(addCache)
      ensures r.Success? ==>
        (setCache, addCache) ==
        Appended(old(setCache), old(addCache), opType, [CachedOp(globalId, value)])
    {
      if !(0 <= globalId < globalSize) {
        return Failure(InvalidArgument);
      }
      Cache(CachedOp(globalId, value), opType);
      return Success(());
    }

    /**
     * SetValues: mismatched lengths are rejected; otherwise the operations
     * are appended one by one until the first invalid global id, which is
     * rejected after the valid ones before it have been cached.
     */
    method SetValuesAt(ids: seq<int>, vals: seq<real>, opType: VecOpType) returns (r: Result<()>)
      requires Valid()
      modifies this`setCache, this`addCache
      ensures Valid()
      ensures |ids| != |vals| ==>
        r == Failure(InvalidArgument) && setCache == old(setCache) && addCache == old(addCache)
      ensures |ids| == |vals| ==>
        var k := ValidPrefix(ids, globalSize);
        (r.Success? <==> k == |ids|) &&
        (r.Failure? ==> r.error == InvalidArgument) &&
        (setCache, addCache) ==
        Appended(old(setCache), old(addCache), opType, Paired(ids, vals)[..k])
    {
      if |ids| != |vals| {
        return Failure(InvalidArgument);
      }
      var k := ValidPrefix(ids, globalSize);
      ghost var ops := Paired(ids, vals);
      var i := 0;
      assert old(setCache) + ops[..0] == old(setCache) && old(addCache) + ops[..0] == old(addCache);
      while i < |ids| && 0 <= ids[i] < globalSize
        invariant 0 <= i <= k
        invariant Valid()
        invariant (setCache, addCache) == Appended(old(setCache), old(addCache), opType, ops[..i])
      {
        assert ops[..i + 1] == ops[..i] + [CachedOp(ids[i], vals[i])];
        AppendedTwice(old(setCache), old(addCache), opType, ops[..i], [CachedOp(ids[i], vals[i])]);
        Cache(CachedOp(ids[i], vals[i]), opType);
        i := i + 1;
      }
      r := if i < |ids| then Failure(InvalidArgument) else Success(());
    }

    /**
     * PlusAY: y must have the same local and global sizes; the result is
     * x + a*y, with a = 1 and a = -1 done as plain additions/subtractions.
     * `y` is the local data of the other vector.
     */
    method PlusAY(y: seq<real>, yLocalSize: nat, yGlobalSize: nat, a: real) returns (r: Result<()>)
      requires Shaped() && |y| >= yLocalSize
      modifies this`values
      ensures r.Failure? <==> yLocalSize != localSize || yGlobalSize != globalSize
      ensures r.Failure? ==> r.error == LogicError && values == old(values)
      ensures r.Success? ==> values == PlusScaled(old(values), y, a)
    {
      if yLocalSize != localSize || yGlobalSize != globalSize {
        return Failure(LogicError);
      }
      var i := 0;
      if a == 1.0 {
        while i < localSize
          invariant 0 <= i <= localSize && |values| == localSize
          invariant forall j :: 0 <= j < i ==> values[j] == old(values)[j] + a * y[j]
          invariant forall j :: i <= j < localSize ==> values[j] == old(values)[j]
        {
          values := values[i := values[i] + y[i]];
          i := i + 1;
        }
      } else if a == -1.0 {
        while i < localSize
          invariant 0 <= i <= localSize && |values| == localSize
          invariant forall j :: 0 <= j < i ==> values[j] == old(values)[j] + a * y[j]
          invariant forall j :: i <= j < localSize ==> values[j] == old(values)[j]
        {
          values := values[i := values[i] - y[i]];
          i := i + 1;
        }
      } else {
        while i < localSize
          invariant 0 <= i <= localSize && |values| == localSize
          invariant forall j :: 0 <= j < i ==> values[j] == old(values)[j] + a * y[j]
          invariant forall j :: i <= j < localSize ==> values[j] == old(values)[j]
        {
          values := values[i := values[i] + a * y[i]];
          i := i + 1;
        }
      }
      assert forall j :: 0 <= j < localSize ==> values[j] == PlusScaled(old(values), y, a)[j];
      return Success(());
    }

    /** AXPlusY: y must have the same sizes; the result is a*x + y. */
    method AXPlusY(a: real, y: seq<real>, yLocalSize: nat, yGlobalSize: nat) returns (r: Result<()>)
      requires Shaped() && |y| >= yLocalSize
      modifies this`values
      ensures r.Failure? <==> yLocalSize != localSize || yGlobalSize != globalSize
      ensures r.Failure? ==> r.error == LogicError && values == old(values)
      ensures r.Success? ==> values == ScaledPlus(a, old(values), y)
    {
      if yLocalSize != localSize || yGlobalSize != globalSize {
        return Failure(LogicError);
      }
      var i := 0;
      while i < localSize
        invariant 0 <= i <= localSize && |values| == localSize
        invariant forall j :: 0 <= j < i ==> values[j] == a * old(values)[j] + y[j]
        invariant forall j :: i <= j < localSize ==> values[j] == old(values)[j]
      {
        values := values[i := a * values[i] + y[i]];
        i := i + 1;
      }
      assert forall j :: 0 <= j < localSize ==> values[j] == ScaledPlus(a, old(values), y)[j];
      return Success(());
    }

    /** Scale: every local entry is multiplied by a. */
    method Scale(a: real)
      requires Shaped()
      modifies this`values
      ensures values == Scaled(old(values), a)
    {
      var i := 0;
      while i < localSize
        invariant 0 <= i <= localSize && |values| == localSize
        invariant forall j :: 0 <= j < i ==> values[j] == old(values)[j] * a
        invariant forall j :: i <= j < localSize ==> values[j] == old(values)[j]
      {
        values := values[i := values[i] * a];
        i := i + 1;
      }
      assert forall j :: 0 <= j < localSize ==> values[j] == Scaled(old(values), a)[j];
    }

    /** Shift: a is added to every local entry. */
    method Shift(a: real)
      requires Shaped()
      modifies this`values
      ensures values == Shifted(old(values), a)
    {
      var i := 0;
      while i < localSize
        invariant 0 <= i <= localSize && |values| == localSize
        invariant forall j :: 0 <= j < i ==> values[j] == old(values)[j] + a
        invariant forall j :: i <= j < localSize ==> values[j] == old(values)[j]
      {
        values := values[i := values[i] + a];
        i := i + 1;
      }
      assert forall j :: 0 <= j < localSize ==> values[j] == Shifted(old(values), a)[j];
    }

    /**
     * FindOwnerPID: an id at or past the global size is rejected; otherwise
     * the first process whose extents bracket the id, or -1 when none does.
     */
    method FindOwnerPID(globalId: nat) returns (r: Result<int>)
      requires Shaped()
      ensures r.Failure? <==> globalId >= globalSize
      ensures r.Failure? ==> r.error == InvalidArgument
      ensures r.Success? ==>
        (r.value == -1 <==> forall p :: 0 <= p < processCount ==> !Brackets(extents, p, globalId))
      ensures r.Success? && r.value != -1 ==>
        0 <= r.value < processCount && Brackets(extents, r.value, globalId) &&
        forall q :: 0 <= q < r.value ==> !Brackets(extents, q, globalId)
    {
      if globalId >= globalSize {
        return Failure(InvalidArgument);
      }
      var p := 0;
      while p < processCount
        invariant 0 <= p <= processCount
        invariant forall q :: 0 <= q < p ==> !Brackets(extents, q, globalId)
      {
        if globalId >= extents[p] && globalId < extents[p + 1] {
          assert Brackets(extents, p, globalId);
          return Success(p);
        }
        p := p + 1;
      }
      return Success(-1);
    }

    /**
     * The operations of `cache` this process owns, in order: those whose
     * owner, as FindOwnerPID finds it, is this process.
     */
    method OwnedOps(cache: seq<CachedOp>) returns (local: seq<CachedOp>)
      requires Valid()
      requires forall o :: o in cache ==> 0 <= o.globalId < globalSize
      ensures local == LocalOps(cache, extents, locationId)
    {
      local := [];
      var k := 0;
      while k < |cache|
        invariant 0 <= k <= |cache|
        invariant local == LocalOps(cache[..k], extents, locationId)
      {
        var op := cache[k];
        assert op in cache;
        var owner := FindOwnerPID(op.globalId);
        if Brackets(extents, locationId, op.globalId) {
          OwnerExists(extents, globalSize, op.globalId);
          OwnerUnique(extents, globalSize, op.globalId, owner.value, locationId);
        }
        assert cache[..k + 1][..k] == cache[..k];
        if owner.value == locationId {
          local := local + [op];
        }
        k := k + 1;
      }
      assert cache[..|cache|] == cache;
    }

    /** Sets or adds each operation at its local index, in order. */
    method ApplyLocal(local: seq<CachedOp>, isSet: bool)
      requires Shaped() && locationId < processCount
      requires InRange(local, extents[locationId], localSize)
      modifies this`values
      ensures values == ApplyOps(old(values), local, extents[locationId], isSet)
    {
      var base := extents[locationId];
      var j := 0;
      while j < |local|
        invariant 0 <= j <= |local| && |values| == localSize
        invariant InRange(local[..j], base, localSize)
        invariant values == ApplyOps(old(values), local[..j], base, isSet)
      {
        assert local[..j + 1][..j] == local[..j];
        assert local[j] in local;
        var l := local[j].globalId - base;
        if isSet {
          values := values[l := local[j].value];
        } else {
          values := values[l := values[l] + local[j].value];
        }
        j := j + 1;
      }
      assert local[..|local|] == local;
    }

    /**
     * The local half of Assemble. A mix of cached sets and adds is rejected;
     * `globalMode` is the largest mode over all processes. When it is 0
     * nothing happens; a nonzero local mode that differs from it is
     * rejected; otherwise the operations of the chosen cache that this
     * process owns are applied in order and that cache is cleared.
     */
    method Assemble(globalMode: nat) returns (r: Result<()>)
      requires Valid()
      requires LocalMode(setCache, addCache) == 3 ||
               LocalMode(setCache, addCache) <= globalMode <= 2
      modifies this`values, this`setCache, this`addCache
      ensures Valid()
      ensures LocalMode(old(setCache), old(addCache)) == 3 ==>
        r == Failure(LogicError) && unchanged(this)
      ensures var mode := LocalMode(old(setCache), old(addCache));
        mode != 3 && globalMode == 0 ==> r == Success(()) && unchanged(this)
      ensures var mode := LocalMode(old(setCache), old(addCache));
        mode != 3 && globalMode != 0 && mode != 0 && mode != globalMode ==>
          r == Failure(LogicError) && unchanged(this)
      ensures var mode := LocalMode(old(setCache), old(addCache));
        mode != 3 && globalMode != 0 && (mode == 0 || mode == globalMode) ==>
          var ops := LocalOps(if globalMode == 1 then old(setCache) else old(addCache),
                              extents, locationId);
          r == Success(()) &&
          InRange(ops, extents[locationId], localSize) &&
          values == ApplyOps(old(values), ops, extents[locationId], globalMode == 1) &&
          (globalMode == 1 ==> setCache == [] && addCache == old(addCache)) &&
          (globalMode == 2 ==> addCache == [] && setCache == old(setCache))
    {
      var mode := LocalMode(setCache, addCache);
      if mode == 3 {
        return Failure(LogicError);
      }
      if globalMode == 0 {
        return Success(());
      }
      if mode != 0 && mode != globalMode {
        return Failure(LogicError);
      }
      var isSet := globalMode == 1;
      var local := OwnedOps(if isSet then setCache else addCache);
      LocalOpsInRange(if isSet then setCache else addCache, extents, locationId, localSize);
      ApplyLocal(local, isSet);
      if isSet {
        setCache := [];
      } else {
        addCache := [];
      }
      return Success(());
    }
  }
}
