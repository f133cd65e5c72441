/** Options, results and fixed-width integers, shared by every module. */
module Wrappers {
  datatype Option<+T> = None | Some(value: T)

  datatype Result<+T, +E> = Ok(value: T) | Err(error: E)

  type byte = x: int | 0 <= x < 256

  /** In nanoseconds. */
  const SECOND: int := 1_000_000_000

  const TWO_31: int := 0x8000_0000
  const TWO_32: int := 0x1_0000_0000
  const TWO_63: int := 0x8000_0000_0000_0000
  const TWO_64: int := 0x1_0000_0000_0000_0000

  type int64 = x: int | -0x8000_0000_0000_0000 <= x < 0x8000_0000_0000_0000
  type uint64 = x: int | 0 <= x < 0x1_0000_0000_0000_0000
  type uint32 = x: int | 0 <= x < 0x1_0000_0000

  /** The signed 64-bit integer congruent to x: what an int64 operation leaves. */
  function Wrap64(x: int): (r: int64)
    ensures -TWO_63 <= x < TWO_63 ==> r == x
  {
    (x + TWO_63) % TWO_64 - TWO_63
  }

  /** What a uint64 operation leaves. */
  function Low64(x: nat): (r: uint64)
    ensures x < TWO_64 ==> r == x
  {
    x % TWO_64
  }

  /** The signed 32-bit integer congruent to x: a conversion to int32. */
  function Wrap32(x: int): (r: int)
    ensures -TWO_31 <= r < TWO_31
    ensures -TWO_31 <= x < TWO_31 ==> r == x
  {
    (x + TWO_31) % TWO_32 - TWO_31
  }

  /** The bytes of each element, one after the other. */
  function Flatten<T>(f: T -> seq<byte>, s: seq<T>): seq<byte> {
    if s == [] then [] else f(s[0]) + Flatten(f, s[1..])
  }

  lemma FlattenCons<T>(f: T -> seq<byte>, x: T, s: seq<T>)
    ensures Flatten(f, [x] + s) == f(x) + Flatten(f, s)
  {
    assert ([x] + s)[1..] == s;
  }

  lemma {:induction false} FlattenConcat<T>(f: T -> seq<byte>, s: seq<T>, t: seq<T>)
    ensures Flatten(f, s + t) == Flatten(f, s) + Flatten(f, t)
  {
    if s == [] {
      assert s + t == t;
    } else {
      assert s == [s[0]] + s[1..];
      ConcatAssociative([s[0]], s[1..], t);
      FlattenCons(f, s[0], s[1..] + t);
      FlattenConcat(f, s[1..], t);
      ConcatAssociative(f(s[0]), Flatten(f, s[1..]), Flatten(f, t));
    }
  }

  lemma FlattenAt<T>(f: T -> seq<byte>, s: seq<T>, i: nat)
    requires i < |s|
    ensures Flatten(f, s[i..]) == f(s[i]) + Flatten(f, s[i + 1..])
  {
    assert s[i..][1..] == s[i + 1..];
  }

  lemma ConcatAssociative<T>(x: seq<T>, y: seq<T>, z: seq<T>)
    ensures x + (y + z) == (x + y) + z
  {}

  lemma Nothing<T>(s: seq<T>)
    ensures s + [] == s && [] + s == s
  {}

  lemma SubSlice<T>(s: seq<T>, p: nat, q: nat, i: nat, j: nat)
    requires p <= q <= |s| && i <= j <= q - p
    ensures s[p..q][i..j] == s[p + i..p + j]
  {
    var a, b := s[p..q][i..j], s[p + i..p + j];
    forall k | 0 <= k < j - i
      ensures a[k] == b[k]
    {
      assert a[k] == s[p..q][i + k];
    }
  }

  lemma MulMonotone(x: int, y: int, p: nat)
    requires x <= y
    ensures x * p <= y * p
  {}

  lemma MulDistribute(x: int, y: int, p: int)
    ensures (x + y) * p == x * p + y * p
  {}

  lemma DivModUnique(x: int, q: int, r: int, m: int)
    requires m > 0 && 0 <= r < m && x == q * m + r
    ensures x % m == r && x / m == q
  {
    var q', r' := x / m, x % m;
    if q' > q {
      MulDistribute(q' - q, -1, m);
      MulDistribute(q', -q, m);
      MulMonotone(1, q' - q, m);
    } else if q' < q {
      MulDistribute(q, -q', m);
      MulMonotone(1, q - q', m);
    }
  }
}
