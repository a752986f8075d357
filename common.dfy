/** Shared vocabulary: optional values, results, Python dictionaries kept in
    iteration order, and the arithmetic helpers NumPy supplies to the source. */
module Common {

  datatype Option<T> = None | Some(value: T)

  /** The outcome of an operation that can raise: the value, or the error raised. */
  datatype Result<T, E> = Ok(value: T) | Err(error: E)

  /** A Python dict in its iteration order, as a sequence of key/value pairs. */
  type Dict<K, V> = seq<(K, V)>

  /** `d.keys()`, in iteration order. */
  function Keys<K, V>(d: Dict<K, V>): seq<K>
  {
    seq(|d|, i requires 0 <= i < |d| => d[i].0)
  }

  /** `d[k]`: the value stored under `k` (the first pair with that key), or None where Python raises KeyError. */
  function Get<K(==), V>(d: Dict<K, V>, k: K): (r: Option<V>)
    ensures r.Some? <==> exists i :: 0 <= i < |d| && d[i].0 == k
    ensures r.Some? ==> exists i :: 0 <= i < |d| && d[i] == (k, r.value)
  {
    if |d| == 0 then None
    else if d[0].0 == k then Some(d[0].1)
    else
      var r := Get(d[1..], k);
      assert forall i :: 1 <= i < |d| ==> d[i] == d[1..][i - 1];
      r
  }

  /** `d[k] = v`: an existing key keeps its place and takes the new value, a new key goes at the end. */
  function Put<K(==), V>(d: Dict<K, V>, k: K, v: V): Dict<K, V>
  {
    if |d| == 0 then [(k, v)]
    else if d[0].0 == k then [(k, v)] + d[1..]
    else [d[0]] + Put(d[1..], k, v)
  }

  /** After `d[k] = v`, `k` maps to `v` and every other key to what it mapped to before. */
  lemma {:induction false} PutGet<K(!new), V>(d: Dict<K, V>, k: K, v: V)
    ensures Get(Put(d, k, v), k) == Some(v)
    ensures forall k' :: k' != k ==> Get(Put(d, k, v), k') == Get(d, k')
  {
    if |d| > 0 && d[0].0 != k {
      PutGet(d[1..], k, v);
      assert Put(d, k, v)[1..] == Put(d[1..], k, v);
    }
  }

  /** Assigning keeps the keys and their order; a new key is appended. */
  lemma {:induction false} PutKeys<K(!new), V>(d: Dict<K, V>, k: K, v: V)
    ensures k in Keys(d) ==> Keys(Put(d, k, v)) == Keys(d)
    ensures k !in Keys(d) ==> Keys(Put(d, k, v)) == Keys(d) + [k]
  {
    if |d| > 0 {
      assert Keys(d) == [d[0].0] + Keys(d[1..]);
      if d[0].0 == k {
        assert Keys(Put(d, k, v)) == Keys(d);
      } else {
        PutKeys(d[1..], k, v);
        assert Keys(Put(d, k, v)) == [d[0].0] + Keys(Put(d[1..], k, v));
      }
    }
  }

  /** Every entry after assigning is the new one or an entry from before. */
  lemma {:induction false} PutEntries<K(!new), V>(d: Dict<K, V>, k: K, v: V)
    ensures forall i :: 0 <= i < |Put(d, k, v)| ==> Put(d, k, v)[i] == (k, v) || Put(d, k, v)[i] in d
  {
    if |d| > 0 && d[0].0 != k {
      PutEntries(d[1..], k, v);
      var r := Put(d, k, v);
      assert r == [d[0]] + Put(d[1..], k, v);
      forall i | 0 <= i < |r|
        ensures r[i] == (k, v) || r[i] in d
      {
        if i > 0 {
          assert r[i] == Put(d[1..], k, v)[i - 1];
        }
      }
    }
  }

  /** No element occurs twice, as for the keys of a Python dict. */
  predicate Distinct<T(==)>(xs: seq<T>)
  {
    forall i, j :: 0 <= i < j < |xs| ==> xs[i] != xs[j]
  }

  /** Assigning to a dict keeps its keys distinct. */
  lemma PutDistinct<K(!new), V>(d: Dict<K, V>, k: K, v: V)
    requires Distinct(Keys(d))
    ensures Distinct(Keys(Put(d, k, v)))
  {
    PutKeys(d, k, v);
    if k !in Keys(d) {
      var ks := Keys(d) + [k];
      assert forall i :: 0 <= i < |Keys(d)| ==> ks[i] == Keys(d)[i];
    }
  }

  function Abs(x: real): (r: real)
    ensures r >= 0.0 && (r == x || r == -x)
  {
    if x < 0.0 then -x else x
  }

  function Min(a: int, b: int): int
  {
    if a < b then a else b
  }

  function Sum(xs: seq<real>): real
  {
    if |xs| == 0 then 0.0 else Sum(xs[..|xs| - 1]) + xs[|xs| - 1]
  }

  /** `numpy.mean`: the arithmetic mean, None for an empty list (where NumPy returns NaN). */
  function Mean(xs: seq<real>): (r: Option<real>)
    ensures r.Some? <==> |xs| > 0
  {
    if |xs| == 0 then None else Some(Sum(xs) / (|xs| as real))
  }

  /** A sum of non-negative terms is non-negative. */
  lemma {:induction false} SumNonNegative(xs: seq<real>)
    requires forall i :: 0 <= i < |xs| ==> xs[i] >= 0.0
    ensures Sum(xs) >= 0.0
  {
    if |xs| > 0 {
      SumNonNegative(xs[..|xs| - 1]);
    }
  }

  /** The number of occurrences of `x` in `xs`, as Python's `list.count`. */
  function Count<T(==)>(xs: seq<T>, x: T): nat
  {
    if |xs| == 0 then 0 else Count(xs[..|xs| - 1], x) + (if xs[|xs| - 1] == x then 1 else 0)
  }

  /** `Count` is zero exactly for absent elements, once for an element at exactly one position. */
  lemma {:induction false} CountZero<T>(xs: seq<T>, x: T)
    ensures Count(xs, x) == 0 <==> x !in xs
  {
    if |xs| > 0 {
      CountZero(xs[..|xs| - 1], x);
      assert xs == xs[..|xs| - 1] + [xs[|xs| - 1]];
    }
  }

  /** An element counted once occurs at one position only. */
  lemma {:induction false} CountOnce<T>(xs: seq<T>, x: T, i: int, j: int)
    requires Count(xs, x) == 1 && 0 <= i < |xs| && 0 <= j < |xs| && xs[i] == x && xs[j] == x
    ensures i == j
  {
    var n := |xs|;
    var prefix := xs[..n - 1];
    if i < n - 1 && j < n - 1 {
      assert prefix[i] == x && prefix[j] == x;
      if xs[n - 1] == x {
        CountZero(prefix, x);
      } else {
        CountOnce(prefix, x, i, j);
      }
    } else if i < n - 1 || j < n - 1 {
      var k := if i < n - 1 then i else j;
      assert prefix[k] == x;
      CountZero(prefix, x);
    }
  }

  /** The loop `rows = []; for part in parts: rows.extend(part)` where computing a part may raise: the rows of
      the first `n` parts in order, or the error of the first part that raised. */
  function Flatten<T, E>(parts: seq<Result<seq<T>, E>>, n: nat): Result<seq<T>, E>
    requires n <= |parts|
  {
    if n == 0 then Ok([])
    else
      match Flatten(parts, n - 1)
      case Err(e) => Err(e)
      case Ok(rows) =>
        match parts[n - 1]
        case Err(e) => Err(e)
        case Ok(more) => Ok(rows + more)
  }

  /** The loop completes exactly when every part does. */
  lemma {:induction false} FlattenOk<T, E>(parts: seq<Result<seq<T>, E>>, n: nat)
    requires n <= |parts|
    ensures Flatten(parts, n).Ok? <==> forall i :: 0 <= i < n ==> parts[i].Ok?
  {
    if n > 0 {
      FlattenOk(parts, n - 1);
    }
  }

  /** A completed loop holds exactly the rows of its parts. */
  lemma {:induction false} FlattenExact<T, E>(parts: seq<Result<seq<T>, E>>, n: nat, x: T)
    requires n <= |parts| && Flatten(parts, n).Ok?
    ensures x in Flatten(parts, n).value <==> exists i :: 0 <= i < n && parts[i].Ok? && x in parts[i].value
  {
    if n > 0 {
      FlattenExact(parts, n - 1, x);
    }
  }

  /** The loop raises exactly the error of the first part that raises. */
  lemma {:induction false} FlattenError<T, E>(parts: seq<Result<seq<T>, E>>, n: nat, e: E)
    requires n <= |parts|
    ensures Flatten(parts, n) == Err(e) <==>
              exists i :: 0 <= i < n && parts[i] == Err(e) && forall j :: 0 <= j < i ==> parts[j].Ok?
  {
    if n > 0 {
      FlattenError(parts, n - 1, e);
      FlattenOk(parts, n - 1);
    }
  }
}
