/**
 The closed-form enumeration of a cartesian product: entry i of component k is picked by one
 multiplication, one division and one remainder, without carrying digits along.
 */
module Cartesian {
  import opened Quotients

  function Product(sizes: seq<nat>): nat {
    if |sizes| == 0 then 1 else sizes[0] * Product(sizes[1..])
  }

  predicate AllPositive(sizes: seq<nat>) {
    forall k | 0 <= k < |sizes| :: sizes[k] > 0
  }

  lemma {:induction false} ProductPositive(sizes: seq<nat>)
    ensures Product(sizes) > 0 <==> AllPositive(sizes)
  {
    if |sizes| > 0 {
      ProductPositive(sizes[1..]);
      PositiveFactors(sizes[0], Product(sizes[1..]));
      assert AllPositive(sizes) <==> sizes[0] > 0 && AllPositive(sizes[1..]) by {
        assert forall k | 1 <= k < |sizes| :: sizes[k] == sizes[1..][k - 1];
        assert forall k | 0 <= k < |sizes| - 1 :: sizes[1..][k] == sizes[k + 1];
      }
    }
  }

  lemma PositiveFactors(a: nat, b: nat)
    ensures a * b > 0 <==> a > 0 && b > 0
  {
  }

  lemma {:induction false} ProductSplit(sizes: seq<nat>, k: nat)
    requires k <= |sizes|
    ensures Product(sizes) == Product(sizes[..k]) * Product(sizes[k..])
  {
    if k == 0 {
      assert sizes[0..] == sizes;
    } else {
      ProductSplit(sizes[1..], k - 1);
      assert sizes[1..][..k - 1] == sizes[..k][1..] && sizes[1..][k - 1..] == sizes[k..];
      Associate(sizes[0], Product(sizes[..k][1..]), Product(sizes[k..]));
    }
  }

  lemma Associate(a: int, b: int, c: int)
    ensures a * (b * c) == (a * b) * c
  {
  }

  lemma {:induction false} ProductOfLast(sizes: seq<nat>, k: nat)
    requires k < |sizes|
    ensures Product(sizes[..k + 1]) == Product(sizes[..k]) * sizes[k]
  {
    ProductSplit(sizes[..k + 1], k);
    assert sizes[..k + 1][..k] == sizes[..k] && sizes[..k + 1][k..] == [sizes[k]];
    assert Product([sizes[k]]) == sizes[k] * Product([]) == sizes[k];
  }

  // ----- mixed-radix digits

  /** The mixed-radix digits of i, most significant first. */
  function Digits(sizes: seq<nat>, i: nat): (digits: seq<nat>)
    requires AllPositive(sizes)
    ensures |digits| == |sizes|
  {
    if |sizes| == 0 then []
    else
      ProductPositive(sizes[1..]);
      [i / Product(sizes[1..])] + Digits(sizes[1..], i % Product(sizes[1..]))
  }

  /** The number a tuple of digits stands for. */
  function Value(sizes: seq<nat>, digits: seq<nat>): nat
    requires |digits| == |sizes|
  {
    if |sizes| == 0 then 0 else digits[0] * Product(sizes[1..]) + Value(sizes[1..], digits[1..])
  }

  predicate IsIndex(sizes: seq<nat>, digits: seq<nat>) {
    |digits| == |sizes| && forall k | 0 <= k < |sizes| :: digits[k] < sizes[k]
  }

  /** Every number below the product has a valid tuple, which stands for it. */
  lemma {:induction false} ValueOfDigits(sizes: seq<nat>, i: nat)
    requires AllPositive(sizes) && i < Product(sizes)
    ensures IsIndex(sizes, Digits(sizes, i)) && Value(sizes, Digits(sizes, i)) == i
  {
    if |sizes| > 0 {
      var d, tail := Product(sizes[1..]), sizes[1..];
      ProductPositive(tail);
      DivMod(i, d);
      QuotientBelow(i, sizes[0], d);
      ValueOfDigits(tail, i % d);
      var digits := Digits(sizes, i);
      assert digits[1..] == Digits(tail, i % d);
      assert forall k | 1 <= k < |sizes| :: digits[k] == digits[1..][k - 1] && sizes[k] == tail[k - 1];
    }
  }

  /** Every valid tuple stands for a number below the product, whose digits it is. */
  lemma {:induction false} DigitsOfValue(sizes: seq<nat>, digits: seq<nat>)
    requires IsIndex(sizes, digits)
    ensures AllPositive(sizes) && Value(sizes, digits) < Product(sizes)
    ensures Digits(sizes, Value(sizes, digits)) == digits
  {
    if |sizes| > 0 {
      var d, tail := Product(sizes[1..]), sizes[1..];
      DigitsOfValue(tail, digits[1..]);
      var r := Value(tail, digits[1..]);
      DigitBelow(digits[0], r, sizes[0], d);
      QuotientAndRest(digits[0], r, d);
      assert forall k | 1 <= k < |sizes| :: sizes[k] == tail[k - 1];
    }
  }

  ghost predicate LexLess(a: seq<nat>, b: seq<nat>)
    requires |a| == |b|
  {
    |a| > 0 && (a[0] < b[0] || (a[0] == b[0] && LexLess(a[1..], b[1..])))
  }

  /** Larger numbers have lexicographically larger tuples. */
  lemma {:induction false} DigitsIncrease(sizes: seq<nat>, i: nat, j: nat)
    requires AllPositive(sizes) && i < j < Product(sizes)
    ensures LexLess(Digits(sizes, i), Digits(sizes, j))
  {
    if |sizes| > 0 {
      var d, tail := Product(sizes[1..]), sizes[1..];
      ProductPositive(tail);
      DivMod(i, d);
      DivMod(j, d);
      assert Digits(sizes, i)[1..] == Digits(tail, i % d) && Digits(sizes, j)[1..] == Digits(tail, j % d);
      if i / d > j / d {
        Multiples(d, j / d, i / d);
      } else if i / d == j / d {
        DigitsIncrease(tail, i % d, j % d);
      }
    }
  }

  // ----- the closed form

  /** Entry k of the code's index tuple, from the prefix products. */
  function Picked(sizes: seq<nat>, i: nat, k: nat): nat
    requires k < |sizes| && AllPositive(sizes)
  {
    ProductPositive(sizes);
    ((i * Product(sizes[..k + 1])) / Product(sizes)) % sizes[k]
  }

  lemma CancelDivisor(i: nat, d: nat, s: nat)
    requires d > 0 && s > 0
    ensures d * s > 0 && (i * d) / (d * s) == i / s
  {
    PositiveFactors(d, s);
    var q, r := i / s, i % s;
    DivMod(i, s);
    assert i * d == q * (d * s) + r * d;
    DigitBelow(0, r, 1, s);
    assert r * d < d * s by { Multiples(d, r, s); }
    QuotientAndRest(q, r * d, d * s);
  }

  /** Dividing by the product of what follows picks digit k, up to a multiple of its size. */
  lemma {:induction false} DigitByDivision(sizes: seq<nat>, i: nat, k: nat)
    requires AllPositive(sizes) && k < |sizes| && i < Product(sizes)
    ensures Product(sizes[k + 1..]) > 0
    ensures Digits(sizes, i)[k] == (i / Product(sizes[k + 1..])) % sizes[k]
  {
    ProductPositive(sizes[k + 1..]);
    var tail, d := sizes[1..], Product(sizes[1..]);
    ProductPositive(tail);
    if k == 0 {
      QuotientBelow(i, sizes[0], d);
      SmallRemainder(i / d, sizes[0]);
    } else {
      DivMod(i, d);
      DigitByDivision(tail, i % d, k - 1);
      assert Digits(sizes, i)[k] == Digits(tail, i % d)[k - 1];
      assert tail[k..] == sizes[k + 1..];
      ProductAround(tail, k - 1);
      SameDigitOfRemainder(i, d, Product(tail[..k - 1]), sizes[k], Product(sizes[k + 1..]));
    }
  }

  lemma {:induction false} ProductAround(sizes: seq<nat>, k: nat)
    requires k < |sizes|
    ensures Product(sizes) == Product(sizes[..k]) * (sizes[k] * Product(sizes[k + 1..]))
  {
    ProductSplit(sizes, k);
    assert sizes[k..][1..] == sizes[k + 1..];
  }

  lemma SmallRemainder(a: nat, s: nat)
    requires a < s
    ensures a % s == a
  {
  }

  /** Adding a multiple of p*s*e changes neither digit taken at place e with size s. */
  lemma RemainderInvisible(q: nat, r: nat, p: nat, s: nat, e: nat)
    requires s > 0 && e > 0
    ensures ((q * (p * (s * e)) + r) / e) % s == (r / e) % s
  {
    Associate(q, p, s * e);
    Associate(q * p, s, e);
    QuotientOfMultiple(q * p * s, r, e);
    RemainderOfMultiple(q * p, r / e, s);
  }

  lemma SameDigitOfRemainder(i: nat, d: nat, p: nat, s: nat, e: nat)
    requires d > 0 && s > 0 && e > 0 && d == p * (s * e)
    ensures (i / e) % s == ((i % d) / e) % s
  {
    DivMod(i, d);
    RemainderInvisible(i / d, i % d, p, s, e);
  }

  lemma QuotientOfMultiple(m: nat, r: nat, e: nat)
    requires e > 0
    ensures (m * e + r) / e == m + r / e
  {
    DivMod(r, e);
    SumTimes(m, r / e, e);
    QuotientAndRest(m + r / e, r % e, e);
  }

  lemma RemainderOfMultiple(m: nat, r: nat, s: nat)
    requires s > 0
    ensures (m * s + r) % s == r % s
  {
    DivMod(r, s);
    SumTimes(m, r / s, s);
    QuotientAndRest(m + r / s, r % s, s);
  }

  lemma SumTimes(a: nat, b: nat, c: nat)
    ensures (a + b) * c == a * c + b * c
  {
  }

  /** The closed form is the digit. */
  lemma {:induction false} PickedIsDigit(sizes: seq<nat>, i: nat, k: nat)
    requires AllPositive(sizes) && k < |sizes| && i < Product(sizes)
    ensures Picked(sizes, i, k) == Digits(sizes, i)[k]
  {
    ProductSplit(sizes, k + 1);
    ProductPositive(sizes);
    ProductPositive(sizes[..k + 1]);
    ProductPositive(sizes[k + 1..]);
    CancelDivisor(i, Product(sizes[..k + 1]), Product(sizes[k + 1..]));
    DigitByDivision(sizes, i, k);
  }

  function Sizes<T>(arrays: seq<seq<T>>): (sizes: seq<nat>)
    ensures |sizes| == |arrays|
  {
    seq(|arrays|, k requires 0 <= k < |arrays| => |arrays[k]|)
  }

  /** The tuple of elements at the given positions. */
  function Choose<T>(arrays: seq<seq<T>>, digits: seq<nat>): (tuple: seq<T>)
    requires IsIndex(Sizes(arrays), digits)
    ensures |tuple| == |arrays|
  {
    seq(|arrays|, k requires 0 <= k < |arrays| => assert digits[k] < Sizes(arrays)[k]; arrays[k][digits[k]])
  }

  /** There is a tuple for every choice of positions, at the place the positions stand for. */
  ghost predicate Enumerates<T>(arrays: seq<seq<T>>, result: seq<seq<T>>) {
    && |result| == Product(Sizes(arrays))
    && forall digits: seq<nat> | IsIndex(Sizes(arrays), digits) ::
         && Value(Sizes(arrays), digits) < |result|
         && ConsistsOf(result[Value(Sizes(arrays), digits)], arrays, digits)
  }

  /** Entry k of the tuple is what stands in array k at the k-th position. */
  ghost predicate ConsistsOf<T>(tuple: seq<T>, arrays: seq<seq<T>>, digits: seq<nat>) {
    |tuple| == |arrays| == |digits| && forall k | 0 <= k < |arrays| :: HasAt(arrays[k], digits[k], tuple[k])
  }

  predicate HasAt<T(==)>(column: seq<T>, position: nat, x: T) {
    position < |column| && column[position] == x
  }

  lemma ChosenConsists<T>(arrays: seq<seq<T>>, digits: seq<nat>)
    requires IsIndex(Sizes(arrays), digits)
    ensures ConsistsOf(Choose(arrays, digits), arrays, digits)
  {
    forall k | 0 <= k < |arrays|
      ensures HasAt(arrays[k], digits[k], Choose(arrays, digits)[k])
    {
      assert digits[k] < Sizes(arrays)[k];
    }
  }

  // ----- what an enumeration is

  /** One element of every array. */
  ghost predicate PicksOneOfEach<T>(tuple: seq<T>, arrays: seq<seq<T>>) {
    |tuple| == |arrays| && forall k | 0 <= k < |arrays| :: tuple[k] in arrays[k]
  }

  lemma {:induction false} Positions<T>(tuple: seq<T>, arrays: seq<seq<T>>) returns (digits: seq<nat>)
    requires PicksOneOfEach(tuple, arrays)
    ensures IsIndex(Sizes(arrays), digits) && ConsistsOf(tuple, arrays, digits)
  {
    digits := [];
    for k := 0 to |arrays|
      invariant |digits| == k
      invariant forall j | 0 <= j < k :: HasAt(arrays[j], digits[j], tuple[j])
    {
      assert tuple[k] in arrays[k];
      var position: nat :| position < |arrays[k]| && arrays[k][position] == tuple[k];
      digits := digits + [position];
    }
    forall k | 0 <= k < |arrays|
      ensures digits[k] < Sizes(arrays)[k]
    {
      assert HasAt(arrays[k], digits[k], tuple[k]);
    }
  }

  /** The tuples are exactly those with one element of every array. */
  lemma {:induction false} EnumeratesProduct<T>(arrays: seq<seq<T>>, result: seq<seq<T>>, tuple: seq<T>)
    requires Enumerates(arrays, result)
    ensures tuple in result <==> PicksOneOfEach(tuple, arrays)
  {
    if tuple in result {
      var i :| 0 <= i < |result| && result[i] == tuple;
      ProductPositive(Sizes(arrays));
      ValueOfDigits(Sizes(arrays), i);
      ElementsPicked(tuple, arrays, Digits(Sizes(arrays), i));
    }
    if PicksOneOfEach(tuple, arrays) {
      var digits := Positions(tuple, arrays);
      SameTuple(tuple, result[Value(Sizes(arrays), digits)], arrays, digits);
    }
  }

  lemma ElementsPicked<T>(tuple: seq<T>, arrays: seq<seq<T>>, digits: seq<nat>)
    requires ConsistsOf(tuple, arrays, digits)
    ensures PicksOneOfEach(tuple, arrays)
  {
    forall k | 0 <= k < |arrays|
      ensures tuple[k] in arrays[k]
    {
      assert HasAt(arrays[k], digits[k], tuple[k]);
    }
  }

  lemma SameTuple<T>(a: seq<T>, b: seq<T>, arrays: seq<seq<T>>, digits: seq<nat>)
    requires ConsistsOf(a, arrays, digits) && ConsistsOf(b, arrays, digits)
    ensures a == b
  {
    forall k | 0 <= k < |a|
      ensures a[k] == b[k]
    {
      assert HasAt(arrays[k], digits[k], a[k]) && HasAt(arrays[k], digits[k], b[k]);
    }
  }

  predicate Distinct<T(==)>(xs: seq<T>) {
    forall i, j | 0 <= i < j < |xs| :: xs[i] != xs[j]
  }

  /** Without repeated elements no tuple is repeated. */
  lemma {:induction false} NoTupleTwice<T>(arrays: seq<seq<T>>, result: seq<seq<T>>)
    requires Enumerates(arrays, result) && forall k | 0 <= k < |arrays| :: Distinct(arrays[k])
    ensures Distinct(result)
  {
    forall i, j | 0 <= i < j < |result|
      ensures result[i] != result[j]
    {
      var sizes := Sizes(arrays);
      ProductPositive(sizes);
      ValueOfDigits(sizes, i);
      ValueOfDigits(sizes, j);
      if result[i] == result[j] {
        SamePositions(result[i], arrays, Digits(sizes, i), Digits(sizes, j));
      }
    }
  }

  lemma SamePositions<T>(tuple: seq<T>, arrays: seq<seq<T>>, a: seq<nat>, b: seq<nat>)
    requires ConsistsOf(tuple, arrays, a) && ConsistsOf(tuple, arrays, b)
    requires forall k | 0 <= k < |arrays| :: Distinct(arrays[k])
    ensures a == b
  {
    forall k | 0 <= k < |arrays|
      ensures a[k] == b[k]
    {
      assert HasAt(arrays[k], a[k], tuple[k]) && HasAt(arrays[k], b[k], tuple[k]);
    }
  }

  /** The prefix products, formed in place. */
  method PrefixProducts(sizes: seq<nat>) returns (dims: array<nat>)
    ensures fresh(dims) && dims.Length == |sizes|
    ensures forall k | 0 <= k < |sizes| :: dims[k] == Product(sizes[..k + 1])
  {
    dims := new nat[|sizes|](k requires 0 <= k < |sizes| => sizes[k]);
    if |sizes| > 0 {
      ProductOfLast(sizes, 0);
      assert sizes[..0] == [];
    }
    var i := 1;
    while i < dims.Length
      invariant 1 <= i
      invariant forall k | 0 <= k < i && k < |sizes| :: dims[k] == Product(sizes[..k + 1])
      invariant forall k | i <= k < |sizes| :: dims[k] == sizes[k]
    {
      ProductOfLast(sizes, i);
      assert dims[i] * dims[i - 1] == Product(sizes[..i + 1]);
      dims[i] := dims[i] * dims[i - 1];
      i := i + 1;
    }
  }

  /** One tuple by the closed form. */
  method TupleAt<T>(arrays: seq<seq<T>>, dims: array<nat>, count: nat, i: nat) returns (tuple: seq<T>)
    requires AllPositive(Sizes(arrays)) && i < count == Product(Sizes(arrays))
    requires dims.Length == |arrays|
    requires forall k | 0 <= k < |arrays| :: dims[k] == Product(Sizes(arrays)[..k + 1])
    ensures IsIndex(Sizes(arrays), Digits(Sizes(arrays), i))
    ensures tuple == Choose(arrays, Digits(Sizes(arrays), i))
  {
    ghost var sizes := Sizes(arrays);
    ValueOfDigits(sizes, i);
    tuple := [];
    for k := 0 to |arrays|
      invariant |tuple| == k
      invariant forall j | 0 <= j < k :: tuple[j] == Choose(arrays, Digits(sizes, i))[j]
    {
      PickedIsDigit(sizes, i, k);
      assert sizes[k] > 0;
      var idx := ((i * dims[k]) / count) % |arrays[k]|;
      assert idx == Picked(sizes, i, k);
      tuple := tuple + [arrays[k][idx]];
    }
  }

  method CartesianProduct<T>(arrays: seq<seq<T>>) returns (result: seq<seq<T>>)
    ensures Enumerates(arrays, result)
  {
    var sizes := Sizes(arrays);
    var count := Product(sizes);
    var dims := PrefixProducts(sizes);
    result := [];
    ProductPositive(sizes);
    for i := 0 to count
      invariant |result| == i
      invariant AllPositive(sizes) || count == 0
      invariant forall k | 0 <= k < |sizes| :: dims[k] == Product(sizes[..k + 1])
      invariant forall j | 0 <= j < i ::
                  && AllPositive(sizes) && IsIndex(sizes, Digits(sizes, j))
                  && result[j] == Choose(arrays, Digits(sizes, j))
    {
      var tuple := TupleAt(arrays, dims, count, i);
      result := result + [tuple];
    }
    forall digits: seq<nat> | IsIndex(sizes, digits)
      ensures Value(sizes, digits) < |result| && ConsistsOf(result[Value(sizes, digits)], arrays, digits)
    {
      DigitsOfValue(sizes, digits);
      ChosenConsists(arrays, digits);
    }
  }
}
