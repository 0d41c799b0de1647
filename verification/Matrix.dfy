/** Matrices and their cartesian product (pkg/pipeline/pipeline.go, expand.go). */
module Matrix {
  import opened Wrappers
  import opened Pipeline
  import opened Substitute

  /** The largest 64-bit signed integer. */
  const MAX_INT: nat := 0x7FFF_FFFF_FFFF_FFFF

  const MAX_MATRIX_COMBINATIONS: nat := 10_000

  function Size(dims: seq<Dimension>): nat {
    if dims == [] then 1 else Size(dims[..|dims| - 1]) * |dims[|dims| - 1].values|
  }

  /** Some product of the first dimension sizes does not fit a machine integer. */
  ghost predicate Overflows(dims: seq<Dimension>) {
    exists k :: 0 <= k <= |dims| && Size(dims[..k]) > MAX_INT
  }

  lemma MulGrows(a: nat, b: nat, n: nat)
    requires a <= b
    ensures a * n <= b * n
  {
  }

  lemma ProductPositive(a: nat, n: nat)
    requires a * n > 0
    ensures a > 0 && n > 0
  {
  }

  lemma QuotientFits(i: nat, size: nat, n: nat)
    requires n > 0 && i / n >= size
    ensures i >= size * n
  {
    assert i == (i / n) * n + i % n;
    MulGrows(size, i / n, n);
  }

  lemma DivisionStep(i: nat, size: nat, n: nat)
    requires i < size * n
    ensures n > 0 && 0 <= i / n < size && 0 <= i % n < n
    ensures i == (i / n) * n + i % n
  {
    ProductPositive(size, n);
    if i / n >= size {
      QuotientFits(i, size, n);
    }
  }

  /** Quotient and remainder are determined. */
  lemma DigitsAreUnique(q: nat, m: nat, p: nat, l: nat, n: nat)
    requires m < n && l < n && q * n + m == p * n + l
    ensures q == p && m == l
  {
    if q < p {
      MulGrows(q + 1, p, n);
    } else if p < q {
      MulGrows(p + 1, q, n);
    }
  }

  lemma DivisionInverts(q: nat, m: nat, n: nat)
    requires m < n
    ensures (q * n + m) / n == q && (q * n + m) % n == m
  {
    var i := q * n + m;
    assert i == (i / n) * n + i % n;
    DigitsAreUnique(q, m, i / n, i % n, n);
  }

  /** The `i`-th combination: `i` read as a number in mixed radix, the last dimension being the
      fastest digit. */
  function Decode(dims: seq<Dimension>, i: nat): Combo
    requires i < Size(dims)
  {
    if dims == [] then map[] else
      var front, last := dims[..|dims| - 1], dims[|dims| - 1];
      DivisionStep(i, Size(front), |last.values|);
      Decode(front, i / |last.values|)[last.name := last.values[i % |last.values|]]
  }

  /** Appending the digit `m` of the last dimension. */
  lemma DecodeAppend(dims: seq<Dimension>, q: nat, m: nat)
    requires dims != []
    requires q < Size(dims[..|dims| - 1]) && m < |dims[|dims| - 1].values|
    ensures var last := dims[|dims| - 1];
            var i := q * |last.values| + m;
            i < Size(dims) && Decode(dims, i) == Decode(dims[..|dims| - 1], q)[last.name := last.values[m]]
  {
    var n := |dims[|dims| - 1].values|;
    MulGrows(q + 1, Size(dims[..|dims| - 1]), n);
    DivisionInverts(q, m, n);
  }

  lemma Appended(dims: seq<Dimension>, q: nat, m: nat) returns (i: nat)
    requires dims != []
    requires q < Size(dims[..|dims| - 1]) && m < |dims[|dims| - 1].values|
    ensures i < Size(dims)
    ensures var last := dims[|dims| - 1];
            Decode(dims, i) == Decode(dims[..|dims| - 1], q)[last.name := last.values[m]]
  {
    DecodeAppend(dims, q, m);
    i := q * |dims[|dims| - 1].values| + m;
  }

  ghost predicate DecodedUpTo(combos: seq<Combo>, dims: seq<Dimension>, n: nat) {
    && |combos| == n <= Size(dims)
    && forall i | 0 <= i < n :: combos[i] == Decode(dims, i)
  }

  lemma NextDecoded(
    dims: seq<Dimension>, k: nat, combos: seq<Combo>, next: seq<Combo>, c: nat, v: nat)
    requires k < |dims| && DecodedUpTo(combos, dims[..k], Size(dims[..k]))
    requires c < |combos| && v < |dims[k].values|
    requires DecodedUpTo(next, dims[..k + 1], c * |dims[k].values| + v)
    ensures DecodedUpTo(next + [combos[c][dims[k].name := dims[k].values[v]]], dims[..k + 1],
                        c * |dims[k].values| + v + 1)
  {
    var now := dims[..k + 1];
    assert now[..k] == dims[..k] && now[k] == dims[k];
    DecodeAppend(now, c, v);
  }

  lemma NextSize(dims: seq<Dimension>, k: nat)
    requires k < |dims|
    ensures Size(dims[..k + 1]) == Size(dims[..k]) * |dims[k].values|
  {
    assert dims[..k + 1][..k] == dims[..k];
  }

  /** The size check that runs before anything is allocated. */
  method CountCombinations(dims: seq<Dimension>) returns (r: Result<nat, Error>)
    ensures r.Err? <==> Overflows(dims)
    ensures r.Err? ==> r.error == MatrixTooLarge
    ensures r.Ok? ==> r.value == Size(dims) <= MAX_INT
  {
    var total := 1;
    for i := 0 to |dims|
      invariant total == Size(dims[..i])
      invariant forall k | 0 <= k <= i :: Size(dims[..k]) <= MAX_INT
    {
      var n := |dims[i].values|;
      NextSize(dims, i);
      if n > 0 && total > MAX_INT / n {
        TooBig(total, n);
        assert Overflows(dims);
        return Err(MatrixTooLarge);
      }
      if n > 0 {
        Fits(total, n);
      }
      total := total * n;
    }
    assert dims[..|dims|] == dims;
    return Ok(total);
  }

  lemma TooBig(total: nat, n: nat)
    requires n > 0 && total > MAX_INT / n
    ensures total * n > MAX_INT
  {
    assert MAX_INT == (MAX_INT / n) * n + MAX_INT % n;
    MulGrows(MAX_INT / n + 1, total, n);
  }

  lemma Fits(total: nat, n: nat)
    requires n > 0 && total <= MAX_INT / n
    ensures total * n <= MAX_INT
  {
    assert MAX_INT == (MAX_INT / n) * n + MAX_INT % n;
    MulGrows(total, MAX_INT / n, n);
  }

  /** The cartesian product, in mixed-radix order. */
  method Combinations(dims: seq<Dimension>) returns (r: Result<seq<Combo>, Error>)
    ensures dims == [] ==> r == Ok([])
    ensures r.Err? <==> Overflows(dims)
    ensures r.Err? ==> r.error == MatrixTooLarge
    ensures r.Ok? && dims != [] ==> DecodedUpTo(r.value, dims, Size(dims))
  {
    if dims == [] {
      assert Size(dims[..0]) == 1;
      return Ok([]);
    }
    var total := CountCombinations(dims);
    if total.Err? {
      return Err(total.error);
    }
    var combos: seq<Combo> := [map[]];
    for k := 0 to |dims|
      invariant DecodedUpTo(combos, dims[..k], Size(dims[..k]))
    {
      var values := dims[k].values;
      NextSize(dims, k);
      var next: seq<Combo> := [];
      for c := 0 to |combos|
        invariant DecodedUpTo(next, dims[..k + 1], c * |values|)
      {
        for v := 0 to |values|
          invariant DecodedUpTo(next, dims[..k + 1], c * |values| + v)
        {
          NextDecoded(dims, k, combos, next, c, v);
          next := next + [combos[c][dims[k].name := values[v]]];
        }
        assert (c + 1) * |values| == c * |values| + |values|;
      }
      combos := next;
    }
    assert dims[..|dims|] == dims;
    return Ok(combos);
  }

  // ----- The product is complete and free of repetitions -----

  predicate HasDim(dims: seq<Dimension>, name: string) {
    exists d | d in dims :: d.name == name
  }

  ghost predicate DistinctDims(dims: seq<Dimension>) {
    forall i, k | 0 <= i < k < |dims| :: dims[i].name != dims[k].name
  }

  ghost predicate DistinctValues(dims: seq<Dimension>) {
    forall d | d in dims :: forall i, k | 0 <= i < k < |d.values| :: d.values[i] != d.values[k]
  }

  /** `c` picks one value of every dimension and has nothing else. */
  ghost predicate IsCombination(dims: seq<Dimension>, c: Combo) {
    && (forall k :: k in c <==> HasDim(dims, k))
    && (forall d | d in dims :: d.name in c && c[d.name] in d.values)
  }

  lemma {:induction false} DecodedIsCombination(dims: seq<Dimension>, i: nat)
    requires DistinctDims(dims) && i < Size(dims)
    ensures IsCombination(dims, Decode(dims, i))
  {
    if dims != [] {
      var front, last := dims[..|dims| - 1], dims[|dims| - 1];
      DivisionStep(i, Size(front), |last.values|);
      DecodedIsCombination(front, i / |last.values|);
      assert forall d :: d in dims <==> d in front || d == last;
    }
  }

  /** Without its last dimension a combination is one of the others. */
  lemma DropLastDim(dims: seq<Dimension>, c: Combo) returns (rest: Combo)
    requires dims != [] && DistinctDims(dims) && IsCombination(dims, c)
    ensures IsCombination(dims[..|dims| - 1], rest)
    ensures var last := dims[|dims| - 1]; c == rest[last.name := c[last.name]] && c[last.name] in last.values
  {
    var front, last := dims[..|dims| - 1], dims[|dims| - 1];
    assert forall d :: d in dims <==> d in front || d == last;
    rest := c - {last.name};
    assert rest[last.name := c[last.name]] == c;
  }

  lemma NoDimensions(c: Combo)
    requires IsCombination([], c)
    ensures c == map[]
  {
    assert c.Keys == {};
  }

  /** Every choice of values is some entry. */
  lemma {:induction false} CombinationIsDecoded(dims: seq<Dimension>, c: Combo) returns (i: nat)
    requires DistinctDims(dims) && IsCombination(dims, c)
    ensures i < Size(dims) && Decode(dims, i) == c
    decreases |dims|
  {
    if dims == [] {
      i := 0;
      NoDimensions(c);
    } else {
      var last := dims[|dims| - 1];
      var rest := DropLastDim(dims, c);
      var q := CombinationIsDecoded(dims[..|dims| - 1], rest);
      var m :| 0 <= m < |last.values| && last.values[m] == c[last.name];
      i := Appended(dims, q, m);
    }
  }

  lemma UpdateInjective(a: Combo, b: Combo, k: string, v: string, w: string)
    requires k !in a && k !in b && a[k := v] == b[k := w]
    ensures a == b && v == w
  {
    assert a[k := v][k] == v && b[k := w][k] == w;
    assert a == a[k := v] - {k} && b == b[k := w] - {k};
  }

  /** The digits of the last dimension agree, and so do the rest. */
  lemma SameLastDigit(dims: seq<Dimension>, q: nat, m: nat, p: nat, l: nat)
    requires dims != [] && DistinctDims(dims) && DistinctValues(dims)
    requires q < Size(dims[..|dims| - 1]) && m < |dims[|dims| - 1].values|
    requires p < Size(dims[..|dims| - 1]) && l < |dims[|dims| - 1].values|
    requires var last, front := dims[|dims| - 1], dims[..|dims| - 1];
             Decode(front, q)[last.name := last.values[m]] == Decode(front, p)[last.name := last.values[l]]
    ensures m == l && Decode(dims[..|dims| - 1], q) == Decode(dims[..|dims| - 1], p)
  {
    var front, last := dims[..|dims| - 1], dims[|dims| - 1];
    var a, b := Decode(front, q), Decode(front, p);
    DecodedIsCombination(front, q);
    DecodedIsCombination(front, p);
    assert last in dims && !HasDim(front, last.name);
    UpdateInjective(a, b, last.name, last.values[m], last.values[l]);
  }

  /** Different positions hold different combinations. */
  lemma {:induction false} EntriesDiffer(dims: seq<Dimension>, i: nat, k: nat)
    requires DistinctDims(dims) && DistinctValues(dims) && i < Size(dims) && k < Size(dims)
    requires Decode(dims, i) == Decode(dims, k)
    ensures i == k
    decreases |dims|
  {
    if dims != [] {
      var front, n := dims[..|dims| - 1], |dims[|dims| - 1].values|;
      DivisionStep(i, Size(front), n);
      DivisionStep(k, Size(front), n);
      SameLastDigit(dims, i / n, i % n, k / n, k % n);
      assert forall d | d in front :: d in dims;
      EntriesDiffer(front, i / n, k / n);
    }
  }

  ghost predicate IsProduct(dims: seq<Dimension>, combos: seq<Combo>) {
    && (forall c :: c in combos <==> IsCombination(dims, c))
    && (forall i, k | 0 <= i < k < |combos| :: combos[i] != combos[k])
  }

  /** The result holds every combination exactly once. */
  lemma CombinationsAreTheProduct(dims: seq<Dimension>, combos: seq<Combo>)
    requires DistinctDims(dims) && DistinctValues(dims)
    requires DecodedUpTo(combos, dims, Size(dims))
    ensures IsProduct(dims, combos)
  {
    forall c
      ensures c in combos <==> IsCombination(dims, c)
    {
      if c in combos {
        var i :| 0 <= i < |combos| && combos[i] == c;
        DecodedIsCombination(dims, i);
      }
      if IsCombination(dims, c) {
        var i := CombinationIsDecoded(dims, c);
        assert combos[i] == c;
      }
    }
    forall i, k | 0 <= i < k < |combos|
      ensures combos[i] != combos[k]
    {
      if combos[i] == combos[k] {
        EntriesDiffer(dims, i, k);
      }
    }
  }

  // ----- Validation -----

  /** Every dimension is named properly, once, and has values. */
  ghost predicate GoodDims(dims: seq<Dimension>, rules: Rules) {
    && DistinctDims(dims)
    && forall i | 0 <= i < |dims| :: rules.validDim(dims[i].name) && dims[i].values != []
  }

  ghost predicate ValidMatrix(dims: seq<Dimension>, rules: Rules) {
    dims != [] && GoodDims(dims, rules) && Size(dims) <= MAX_MATRIX_COMBINATIONS
  }

  /** What is wrong with dimension `k`, the ones before it being fine. */
  ghost function DimError(dims: seq<Dimension>, k: nat, rules: Rules): Error
    requires k < |dims|
  {
    if !rules.validDim(dims[k].name) then InvalidDimName
    else if HasDim(dims[..k], dims[k].name) then DuplicateDim
    else if dims[k].values == [] then EmptyDimension
    else MatrixTooLarge
  }

  /** Dimension `k` is the first one that makes the matrix unacceptable. */
  ghost predicate FirstFault(dims: seq<Dimension>, k: nat, rules: Rules) {
    && k < |dims| && GoodDims(dims[..k], rules) && Size(dims[..k]) <= MAX_MATRIX_COMBINATIONS
    && !ValidMatrix(dims[..k + 1], rules)
  }

  lemma {:induction false} SizesGrow(dims: seq<Dimension>, k: nat, rules: Rules)
    requires k <= |dims| && GoodDims(dims, rules)
    ensures 1 <= Size(dims[..k]) <= Size(dims)
    decreases |dims|
  {
    if k == |dims| {
      assert dims[..k] == dims;
      if k > 0 {
        SizesGrow(dims[..k - 1], 0, rules);
        assert dims[..k - 1][..0] == [];
        MulGrows(1, |dims[k - 1].values|, Size(dims[..k - 1]));
      }
    } else {
      var front := dims[..|dims| - 1];
      SizesGrow(front, k, rules);
      assert front[..k] == dims[..k];
      MulGrows(1, |dims[|dims| - 1].values|, Size(front));
    }
  }

  lemma GoodPrefix(dims: seq<Dimension>, k: nat, rules: Rules)
    requires k <= |dims| && GoodDims(dims, rules)
    ensures GoodDims(dims[..k], rules)
  {
  }

  /** A fault in a prefix is a fault of the whole. */
  lemma FaultStays(dims: seq<Dimension>, k: nat, rules: Rules)
    requires FirstFault(dims, k, rules)
    ensures !ValidMatrix(dims, rules)
  {
    if ValidMatrix(dims, rules) {
      GoodPrefix(dims, k + 1, rules);
      SizesGrow(dims, k + 1, rules);
    }
  }

  lemma GoodStep(dims: seq<Dimension>, k: nat, rules: Rules)
    requires k < |dims| && GoodDims(dims[..k], rules)
    ensures GoodDims(dims[..k + 1], rules) <==>
              rules.validDim(dims[k].name) && !HasDim(dims[..k], dims[k].name) && dims[k].values != []
  {
    var now := dims[..k + 1];
    assert now[..k] == dims[..k] && now[k] == dims[k];
    if HasDim(dims[..k], dims[k].name) {
      var i :| 0 <= i < k && dims[i].name == dims[k].name;
      assert now[i].name == now[k].name;
    }
    if GoodDims(now, rules) {
      assert rules.validDim(now[k].name) && now[k].values != [];
    }
    forall i | 0 <= i < k
      ensures now[i] == dims[..k][i] && dims[..k][i] in dims[..k]
    {
    }
  }

  /** The error is that of the first faulty dimension. */
  ghost predicate MatrixFault(dims: seq<Dimension>, rules: Rules, e: Error) {
    if dims == [] then e == EmptyMatrix
    else exists k :: FirstFault(dims, k, rules) && e == DimError(dims, k, rules)
  }

  method ValidateMatrix(dims: seq<Dimension>, rules: Rules) returns (err: Option<Error>)
    ensures err.None? <==> ValidMatrix(dims, rules)
    ensures err.Some? ==> MatrixFault(dims, rules, err.value)
  {
    if dims == [] {
      return Some(EmptyMatrix);
    }
    var seen: set<string> := {};
    var total := 1;
    for i := 0 to |dims|
      invariant total == Size(dims[..i]) <= MAX_MATRIX_COMBINATIONS
      invariant GoodDims(dims[..i], rules)
      invariant forall n :: n in seen <==> HasDim(dims[..i], n)
    {
      var d := dims[i];
      var fault: Option<Error> := None;
      GoodStep(dims, i, rules);
      NextSize(dims, i);
      if !rules.validDim(d.name) {
        fault := Some(InvalidDimName);
      } else if d.name in seen {
        fault := Some(DuplicateDim);
      } else {
        seen := seen + {d.name};
        if d.values == [] {
          fault := Some(EmptyDimension);
        } else {
          total := total * |d.values|;
          if total > MAX_MATRIX_COMBINATIONS {
            fault := Some(MatrixTooLarge);
          }
        }
      }
      if fault.Some? {
        assert FirstFault(dims, i, rules);
        FaultStays(dims, i, rules);
        return fault;
      }
      assert dims[..i + 1] == dims[..i] + [d];
    }
    assert dims[..|dims|] == dims;
    return None;
  }

  /** After validation the overflow guard never fires. */
  lemma ValidMatrixNeverOverflows(dims: seq<Dimension>, rules: Rules)
    requires ValidMatrix(dims, rules)
    ensures !Overflows(dims)
  {
    forall k | 0 <= k <= |dims|
      ensures Size(dims[..k]) <= MAX_INT
    {
      SizesGrow(dims, k, rules);
    }
  }
}
