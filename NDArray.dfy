// chi_data_types::NDArray: a dense multi-dimensional array stored row-major
// in one contiguous buffer, with strides computed at construction.
module NDArrays {
  import opened Wrappers

  /** Product of a list of dimensions (1 for the empty list). */
  function Product(s: seq<nat>): nat
  {
    if |s| == 0 then 1 else s[0] * Product(s[1..])
  }

  lemma {:induction false} ProductSnoc(s: seq<nat>, x: nat)
    ensures Product(s + [x]) == Product(s) * x
  {
    if |s| == 0 {
      assert s + [x] == [x];
      assert [x][1..] == [];
    } else {
      assert (s + [x])[1..] == s[1..] + [x];
      ProductSnoc(s[1..], x);
      assert Product(s + [x]) == s[0] * (Product(s[1..]) * x);
    }
  }

  /** Row-major stride of dimension i: the product of every later dimension. */
  function Stride(dims: seq<nat>, i: nat): nat
    requires i < |dims|
  {
    Product(dims[i + 1..])
  }

  /** Indices are cast to size_t in the source, so a negative index becomes a
    * huge unsigned value and fails the same "index >= dimension" test. */
  predicate InRange(dims: seq<nat>, indices: seq<int>)
  {
    |indices| == |dims| && forall i :: 0 <= i < |dims| ==> 0 <= indices[i] < dims[i]
  }

  /** Sum over the first k dimensions of stride * index. */
  function WeightedSum(dims: seq<nat>, indices: seq<int>, k: nat): nat
    requires k <= |dims| && InRange(dims, indices)
  {
    if k == 0 then 0
    else WeightedSum(dims, indices, k - 1) + Stride(dims, k - 1) * (indices[k - 1] as nat)
  }

  /** The linear position of an in-range index tuple in row-major order. */
  function RowMajorOffset(dims: seq<nat>, indices: seq<int>): nat
    requires InRange(dims, indices)
  {
    WeightedSum(dims, indices, |dims|)
  }

  lemma ProductSplit(dims: seq<nat>, k: nat)
    requires k < |dims|
    ensures Product(dims[k..]) == dims[k] * Product(dims[k + 1..])
  {
    assert dims[k..][1..] == dims[k + 1..];
  }

  lemma {:induction false} WeightedSumBound(dims: seq<nat>, indices: seq<int>, k: nat)
    requires k <= |dims| && InRange(dims, indices)
    ensures WeightedSum(dims, indices, k) + Product(dims[k..]) <= Product(dims)
  {
    if k == 0 {
      assert dims[0..] == dims;
    } else {
      WeightedSumBound(dims, indices, k - 1);
      ProductSplit(dims, k - 1);
      MulStep(Product(dims[k..]), indices[k - 1] as nat, dims[k - 1]);
    }
  }

  lemma MulStep(p: nat, x: nat, d: nat)
    requires x < d
    ensures p * x + p <= d * p
  {
    assert p * x + p == p * (x + 1);
    MulMono(p, x + 1, d);
  }

  lemma {:induction false} MulMono(p: nat, a: nat, b: nat)
    requires a <= b
    ensures p * a <= p * b
    decreases b - a
  {
    if a < b {
      MulMono(p, a, b - 1);
      assert p * b == p * (b - 1) + p;
    }
  }

  /** Every in-range index tuple lands inside the buffer. */
  lemma OffsetInBounds(dims: seq<nat>, indices: seq<int>)
    requires InRange(dims, indices)
    ensures RowMajorOffset(dims, indices) < Product(dims)
  {
    WeightedSumBound(dims, indices, |dims|);
    assert dims[|dims|..] == [];
  }

  /** Row-major layout of a dimension list: the element count and one stride
    * per dimension, computed by the constructors' nested loops. */
  method ComputeLayout(dims: seq<nat>) returns (size: nat, strides: seq<nat>)
    ensures size == Product(dims)
    ensures |strides| == |dims|
    ensures forall i :: 0 <= i < |dims| ==> strides[i] == Stride(dims, i)
  {
    size := 1;
    strides := [];
    var n := |dims|;
    for i := 0 to n
      invariant size == Product(dims[..i])
      invariant |strides| == i
      invariant forall k :: 0 <= k < i ==> strides[k] == Stride(dims, k)
    {
      ProductSnoc(dims[..i], dims[i]);
      assert dims[..i + 1] == dims[..i] + [dims[i]];
      size := size * dims[i];
      var s := 1;
      for j := i + 1 to n
        invariant s == Product(dims[i + 1..j])
      {
        ProductSnoc(dims[i + 1..j], dims[j]);
        assert dims[i + 1..j + 1] == dims[i + 1..j] + [dims[j]];
        s := s * dims[j];
      }
      assert dims[i + 1..n] == dims[i + 1..];
      strides := strides + [s];
    }
    assert dims[..n] == dims;
  }

  /** The layout invariant shared by every constructed array: the default
    * constructor gives rank 0 and size 0, all others size == Product(dims). */
  ghost predicate Layout(rank: nat, dims: seq<nat>, strides: seq<nat>, size: nat)
  {
    |dims| == rank && |strides| == rank
    && (forall i :: 0 <= i < rank ==> strides[i] == Stride(dims, i))
    && (size == Product(dims) || (rank == 0 && size == 0))
  }

  class NDArray {
    var rank: nat
    var dims: seq<nat>
    var strides: seq<nat>
    var size: nat
    var base: array<real>

    ghost predicate Valid()
      reads this
    {
      Layout(rank, dims, strides, size) && base.Length == size
    }

    /** Elements in buffer order. */
    ghost function Contents(): seq<real>
      reads this, base
    {
      base[..]
    }

    /** NDArray(): an empty array of rank 0. */
    constructor Empty()
      ensures Valid() && rank == 0 && size == 0 && dims == [] && fresh(base)
    {
      rank, dims, strides, size := 0, [], [], 0;
      base := new real[0];
    }

    /** NDArray(dims): zero-filled array of the given dimensions. */
    constructor (ds: seq<nat>)
      ensures Valid() && dims == ds && rank == |ds| && size == Product(ds)
      ensures fresh(base)
      ensures forall k :: 0 <= k < size ==> base[k] == 0.0
    {
      var sz, st := ComputeLayout(ds);
      rank, dims, strides, size := |ds|, ds, st, sz;
      var b := new real[sz];
      FillArray(b, 0.0);
      base := b;
    }

    /** NDArray(dims, value): every element set to value. */
    constructor Filled(ds: seq<nat>, value: real)
      ensures Valid() && dims == ds && rank == |ds| && size == Product(ds)
      ensures fresh(base)
      ensures forall k :: 0 <= k < size ==> base[k] == value
    {
      var sz, st := ComputeLayout(ds);
      rank, dims, strides, size := |ds|, ds, st, sz;
      var b := new real[sz];
      FillArray(b, value);
      base := b;
    }

    /** Copy constructor: same shape, its own buffer with the same elements. */
    constructor Copy(other: NDArray)
      requires other.Valid()
      ensures Valid() && fresh(base)
      ensures rank == other.rank && dims == other.dims && strides == other.strides && size == other.size
      ensures base[..] == other.base[..]
    {
      rank, dims, strides, size := other.rank, other.dims, other.strides, other.size;
      var b := new real[other.size];
      var src := other.base;
      for i := 0 to other.size
        invariant forall k :: 0 <= k < i ==> b[k] == src[k]
      {
        b[i] := src[i];
      }
      base := b;
    }

    /** set(value): every element becomes value. */
    method Set(value: real)
      requires Valid()
      modifies base
      ensures Valid()
      ensures forall k :: 0 <= k < size ==> base[k] == value
    {
      FillArray(base, value);
    }

    /** swap(other): exchange rank, dimensions, strides, size and buffer. */
    method Swap(other: NDArray)
      modifies this, other
      ensures rank == old(other.rank) && other.rank == old(rank)
      ensures dims == old(other.dims) && other.dims == old(dims)
      ensures strides == old(other.strides) && other.strides == old(strides)
      ensures size == old(other.size) && other.size == old(size)
      ensures base == old(other.base) && other.base == old(base)
    {
      rank, other.rank := other.rank, rank;
      dims, other.dims := other.dims, dims;
      strides, other.strides := other.strides, strides;
      size, other.size := other.size, size;
      base, other.base := other.base, base;
    }

    /** dimension(): a copy of the dimension list. */
    method Dimension() returns (r: seq<nat>)
      requires Valid()
      ensures |r| == rank && r == dims
    {
      r := [];
      for i := 0 to rank
        invariant r == dims[..i]
      {
        r := r + [dims[i]];
      }
      assert dims[..rank] == dims;
    }

    /** resize(dims): NDArray(dims).swap(*this), i.e. a fresh zero-filled array. */
    method Resize(ds: seq<nat>)
      modifies this
      ensures Valid() && dims == ds && rank == |ds| && size == Product(ds)
      ensures fresh(base)
      ensures forall k :: 0 <= k < size ==> base[k] == 0.0
    {
      var made := new NDArray(ds);
      Swap(made);
    }

    /** MapNDtoLin(indices...): the checked linear position of an element. */
    method MapNDtoLin(indices: seq<int>) returns (r: Result<nat>)
      requires Valid()
      requires |indices| > 0  // a C++ call passes at least one index
      ensures |indices| != rank <==> r == Failure(InvalidArgument)
      ensures |indices| == rank && !InRange(dims, indices) ==> r == Failure(OutOfRange)
      ensures r.Success? <==> InRange(dims, indices)
      ensures r.Success? ==> r.value == RowMajorOffset(dims, indices) && r.value < size
    {
      if |indices| != rank {
        return Failure(InvalidArgument);
      }
      var n := rank;
      for i := 0 to n
        invariant forall k :: 0 <= k < i ==> 0 <= indices[k] < dims[k]
      {
        if indices[i] < 0 || indices[i] >= dims[i] {
          return Failure(OutOfRange);
        }
      }
      var index: nat := indices[n - 1] as nat;
      for i := 0 to n - 1
        invariant index == WeightedSum(dims, indices, i) + indices[n - 1] as nat
      {
        index := index + strides[i] * indices[i] as nat;
      }
      assert Stride(dims, n - 1) == 1 by {
        assert dims[n..] == [];
      }
      OffsetInBounds(dims, indices);
      return Success(index);
    }

    /** at(indices...) read: same checks as MapNDtoLin, then the element.
      * at() is declared noexcept, so an exception thrown by either check
      * cannot leave it: std::terminate ends the program. */
    method At(indices: seq<int>) returns (r: Result<real>)
      requires Valid() && |indices| > 0
      ensures r.Failure? <==> !InRange(dims, indices)
      ensures r.Failure? ==> r.error == ProgramExit
      ensures InRange(dims, indices) ==>
        RowMajorOffset(dims, indices) < size && r == Success(base[RowMajorOffset(dims, indices)])
    {
      var lin := MapNDtoLin(indices);
      if lin.Failure? {
        return Failure(ProgramExit);
      }
      return Success(base[lin.value]);
    }

    /** at(indices...) = value: write through the checked reference; a
      * failed check terminates the program as in At. */
    method AtAssign(indices: seq<int>, value: real) returns (r: Result<()>)
      requires Valid() && |indices| > 0
      modifies base
      ensures r.Failure? <==> !InRange(dims, indices)
      ensures r.Failure? ==> r.error == ProgramExit && base[..] == old(base[..])
      ensures InRange(dims, indices) ==>
        RowMajorOffset(dims, indices) < size &&
        base[..] == old(base[..])[RowMajorOffset(dims, indices) := value]
    {
      var lin := MapNDtoLin(indices);
      if lin.Failure? {
        return Failure(ProgramExit);
      }
      base[lin.value] := value;
      return Success(());
    }
  }

  /** The fill loop shared by the constructors and set(). */
  method FillArray(a: array<real>, value: real)
    modifies a
    ensures forall k :: 0 <= k < a.Length ==> a[k] == value
  {
    for i := 0 to a.Length
      invariant forall k :: 0 <= k < i ==> a[k] == value
    {
      a[i] := value;
    }
  }
}
