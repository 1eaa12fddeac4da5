/** `list.sort(key=..., reverse=...)` over metadata values.

    The sort is stated over the positions `0 .. n-1` of the keys: the result
    is the permutation that `list.sort` applies, or the operands of the `<`
    that raised `TypeError`. It inserts each position, in order, into the
    ordered prefix, scanning from the right (CPython's own sort does binary
    insertion on short runs; the result is the same whenever the sort
    succeeds, see the README). A descending sort keeps ties in their original
    order, as `reverse=True` does. */
module Sorting {
  import opened Text
  import opened Values

  /** The range of a C `int`, which `list.sort` converts `reverse` to. */
  const IntMin: int := -0x8000_0000
  const IntMax: int := 0x7FFF_FFFF

  const OverflowMessage := "Python int too large to convert to C int"

  /** The `reverse` argument of `list.sort`, converted to a C `int` before
      any key is computed: booleans and integers in range are accepted,
      anything else raises (`OverflowError` for an integer out of range,
      `TypeError` for any other type). This is the conversion of CPython
      3.7 to 3.10, with the `TypeError` text of 3.10; 3.7 to 3.9 word it
      "an integer is required (got type ...)". */
  function ReverseArgument(v: Value): (r: Result<bool>)
    ensures r.Ok? <==> v.Bool? || (v.Int? && IntMin <= v.i <= IntMax)
    ensures r.Ok? ==> r.value == Truthy(v)
    ensures v.Int? && r.Failure? ==> r.error == OverflowMessage
  {
    if v.Int? && !(IntMin <= v.i <= IntMax) then Failure(OverflowMessage)
    else if !(v.Int? || v.Bool?) then Failure("'" + TypeName(v) + "' object cannot be interpreted as an integer")
    else Ok(Truthy(v))
  }

  /** Whether key `x` must go before key `y`: `x < y`, or `y < x` when
      reversing; `None` when that comparison raises. */
  function Before(x: Value, y: Value, reverse: bool): Option<bool>
  {
    if reverse then Lt(y, x) else Lt(x, y)
  }

  /** The operands of the `<` that `Before(x, y, reverse)` evaluates. */
  function Operands(x: Value, y: Value, reverse: bool): (Value, Value)
  {
    if reverse then (y, x) else (x, y)
  }

  datatype Placement = At(pos: nat) | Clash(left: Value, right: Value)

  datatype Outcome = Ordered(perm: seq<nat>) | Unorderable(left: Value, right: Value)

  predicate Indices(p: seq<nat>, n: nat)
  {
    forall k :: 0 <= k < |p| ==> p[k] < n
  }

  /** `p` lists every position below `n` exactly once. */
  predicate IsPermutation(p: seq<nat>, n: nat)
  {
    && |p| == n
    && Indices(p, n)
    && (forall a, b :: 0 <= a < b < n ==> p[a] != p[b])
    && (forall i :: 0 <= i < n ==> i in p)
  }

  /** Key `i` may stand right before key `j`: `j` does not have to go first,
      and when neither has to go first, the original order is kept. */
  predicate InOrder(keys: seq<Value>, i: nat, j: nat, reverse: bool)
    requires i < |keys| && j < |keys|
  {
    && Before(keys[j], keys[i], reverse) == Some(false)
    && (Before(keys[i], keys[j], reverse) == Some(false) ==> i < j)
  }

  predicate AdjacentInOrder(keys: seq<Value>, p: seq<nat>, reverse: bool)
    requires Indices(p, |keys|)
  {
    forall k :: 0 <= k < |p| - 1 ==> InOrder(keys, p[k], p[k + 1], reverse)
  }

  /** Where position `x` goes in the ordered prefix `p`, comparing it with
      the entries of `p` from the last one down. */
  function Place(keys: seq<Value>, p: seq<nat>, x: nat, reverse: bool): (r: Placement)
    requires x < |keys| && Indices(p, |keys|)
    ensures r.At? ==> r.pos <= |p|
    ensures r.At? ==> forall k :: r.pos <= k < |p| ==> Before(keys[x], keys[p[k]], reverse) == Some(true)
    ensures r.At? && r.pos > 0 ==> Before(keys[x], keys[p[r.pos - 1]], reverse) == Some(false)
    ensures r.Clash? ==> Lt(r.left, r.right).None?
    ensures (forall k :: 0 <= k < |p| ==> Before(keys[x], keys[p[k]], reverse).Some?) ==> r.At?
    decreases |p|
  {
    if p == [] then At(0)
    else
      var y := keys[p[|p| - 1]];
      match Before(keys[x], y, reverse)
      case None => Clash(Operands(keys[x], y, reverse).0, Operands(keys[x], y, reverse).1)
      case Some(false) => At(|p|)
      case Some(true) => Place(keys, p[..|p| - 1], x, reverse)
  }

  lemma InsertPermutation(p: seq<nat>, n: nat, j: nat)
    requires IsPermutation(p, n) && j <= n
    ensures IsPermutation(p[..j] + [n] + p[j..], n + 1)
  {
    var q := p[..j] + [n] + p[j..];
    assert |q| == n + 1;
    assert forall k :: 0 <= k < j ==> q[k] == p[k];
    assert q[j] == n;
    assert forall k :: j < k <= n ==> q[k] == p[k - 1];
    forall i | 0 <= i < n + 1
      ensures i in q
    {
      if i < n {
        assert i in p;
        var m :| 0 <= m < |p| && p[m] == i;
        if m < j {
          assert q[m] == i;
        } else {
          assert q[m + 1] == i;
        }
      } else {
        assert q[j] == i;
      }
    }
  }

  lemma BeforeAsymmetric(x: Value, y: Value, reverse: bool)
    ensures Before(x, y, reverse).Some? <==> Before(y, x, reverse).Some?
    ensures Before(x, y, reverse) == Some(true) ==> Before(y, x, reverse) == Some(false)
  {
    LtAsymmetric(x, y);
    LtAsymmetric(y, x);
  }

  lemma InsertInOrder(keys: seq<Value>, p: seq<nat>, x: nat, j: nat, reverse: bool)
    requires x < |keys| && Indices(p, x) && AdjacentInOrder(keys, p, reverse)
    requires Place(keys, p, x, reverse) == At(j)
    ensures Indices(p[..j] + [x] + p[j..], |keys|)
    ensures AdjacentInOrder(keys, p[..j] + [x] + p[j..], reverse)
  {
    assert j <= |p|;
    assert j < |p| ==> Before(keys[x], keys[p[j]], reverse) == Some(true);
    InsertBetween(keys, p, x, j, reverse);
  }

  /** Position `x` put between the entries of `p` it goes after and before. */
  lemma InsertBetween(keys: seq<Value>, p: seq<nat>, x: nat, j: nat, reverse: bool)
    requires x < |keys| && Indices(p, x) && AdjacentInOrder(keys, p, reverse) && j <= |p|
    requires j > 0 ==> Before(keys[x], keys[p[j - 1]], reverse) == Some(false)
    requires j < |p| ==> Before(keys[x], keys[p[j]], reverse) == Some(true)
    ensures Indices(p[..j] + [x] + p[j..], |keys|)
    ensures AdjacentInOrder(keys, p[..j] + [x] + p[j..], reverse)
  {
    AdjacentSplit(keys, p, j, reverse);
    if j > 0 {
      PlacedAfter(keys, p[j - 1], x, reverse);
    }
    AdjacentJoin(keys, p[..j], [x], reverse);
    if j < |p| {
      PlacedBefore(keys, x, p[j], reverse);
    }
    AdjacentJoin(keys, p[..j] + [x], p[j..], reverse);
  }

  /** Both halves of an ordered sequence are ordered. */
  lemma AdjacentSplit(keys: seq<Value>, p: seq<nat>, j: nat, reverse: bool)
    requires Indices(p, |keys|) && AdjacentInOrder(keys, p, reverse) && j <= |p|
    ensures Indices(p[..j], |keys|) && AdjacentInOrder(keys, p[..j], reverse)
    ensures Indices(p[j..], |keys|) && AdjacentInOrder(keys, p[j..], reverse)
  {
    var back := p[j..];
    forall k | 0 <= k < |back| - 1
      ensures InOrder(keys, back[k], back[k + 1], reverse)
    {
      assert back[k] == p[j + k] && back[k + 1] == p[j + k + 1];
    }
  }

  /** Two ordered sequences joined where the last of one may stand before
      the first of the other are ordered. */
  lemma AdjacentJoin(keys: seq<Value>, a: seq<nat>, b: seq<nat>, reverse: bool)
    requires Indices(a, |keys|) && AdjacentInOrder(keys, a, reverse)
    requires Indices(b, |keys|) && AdjacentInOrder(keys, b, reverse)
    requires |a| > 0 && |b| > 0 ==> InOrder(keys, a[|a| - 1], b[0], reverse)
    ensures Indices(a + b, |keys|) && AdjacentInOrder(keys, a + b, reverse)
  {
    var c := a + b;
    forall k | 0 <= k < |c| - 1
      ensures InOrder(keys, c[k], c[k + 1], reverse)
    {
      if k + 1 < |a| {
        assert c[k] == a[k] && c[k + 1] == a[k + 1];
      } else if k + 1 == |a| {
        assert c[k] == a[|a| - 1] && c[k + 1] == b[0];
      } else {
        assert c[k] == b[k - |a|] && c[k + 1] == b[k - |a| + 1];
      }
    }
  }

  /** A key that does not go before an earlier position's key may follow it. */
  lemma PlacedAfter(keys: seq<Value>, y: nat, x: nat, reverse: bool)
    requires y < x < |keys| && Before(keys[x], keys[y], reverse) == Some(false)
    ensures InOrder(keys, y, x, reverse)
  {
  }

  /** A key that goes before another may precede it. */
  lemma PlacedBefore(keys: seq<Value>, x: nat, y: nat, reverse: bool)
    requires x < |keys| && y < |keys| && Before(keys[x], keys[y], reverse) == Some(true)
    ensures InOrder(keys, x, y, reverse)
  {
    BeforeAsymmetric(keys[x], keys[y], reverse);
  }

  /** `list.sort` applied to the first `n` keys. */
  function SortPrefix(keys: seq<Value>, n: nat, reverse: bool): (r: Outcome)
    requires n <= |keys|
    ensures r.Ordered? ==> IsPermutation(r.perm, n) && AdjacentInOrder(keys, r.perm, reverse)
    ensures r.Unorderable? ==> Lt(r.left, r.right).None?
    decreases n
  {
    if n == 0 then Ordered([])
    else
      match SortPrefix(keys, n - 1, reverse)
      case Unorderable(a, b) => Unorderable(a, b)
      case Ordered(p) => Insert(keys, p, n - 1, reverse)
  }

  /** One step of the sort: position `x` joins the ordered positions below it. */
  function Insert(keys: seq<Value>, p: seq<nat>, x: nat, reverse: bool): (r: Outcome)
    requires x < |keys| && IsPermutation(p, x) && AdjacentInOrder(keys, p, reverse)
    ensures r.Ordered? ==> IsPermutation(r.perm, x + 1) && AdjacentInOrder(keys, r.perm, reverse)
    ensures r.Unorderable? ==> Lt(r.left, r.right).None?
  {
    match Place(keys, p, x, reverse)
    case Clash(a, b) => Unorderable(a, b)
    case At(j) =>
      InsertPermutation(p, x, j);
      InsertInOrder(keys, p, x, j, reverse);
      Ordered(p[..j] + [x] + p[j..])
  }

  /** `list.sort` applied to all the keys. */
  function Sort(keys: seq<Value>, reverse: bool): (r: Outcome)
    ensures r.Ordered? ==> IsPermutation(r.perm, |keys|) && AdjacentInOrder(keys, r.perm, reverse)
    ensures r.Unorderable? ==> Lt(r.left, r.right).None?
  {
    SortPrefix(keys, |keys|, reverse)
  }

  /** The values put in the order a permutation gives. */
  function Permute<T>(s: seq<T>, p: seq<nat>): (r: seq<T>)
    requires Indices(p, |s|)
    ensures |r| == |p| && forall k :: 0 <= k < |p| ==> r[k] == s[p[k]]
  {
    seq(|p|, k requires 0 <= k < |p| => s[p[k]])
  }

  lemma PermuteIsPermutation<T>(s: seq<T>, p: seq<nat>)
    requires IsPermutation(p, |s|)
    ensures multiset(Permute(s, p)) == multiset(s)
  {
    PermutePrefix(s, p, |s|);
    SelectAll(s, p);
    assert s[..|s|] == s;
  }

  /** Every permutation fixes the multiset: the entries of `p` below `m`,
      counted through `s`, are the first `m` values of `s`. */
  lemma {:induction false} PermutePrefix<T>(s: seq<T>, p: seq<nat>, m: nat)
    requires IsPermutation(p, |s|) && m <= |s|
    ensures multiset(Select(s, p, m)) == multiset(s[..m])
    decreases m
  {
    if m > 0 {
      PermutePrefix(s, p, m - 1);
      assert m - 1 in p;
      var i :| 0 <= i < |p| && p[i] == m - 1;
      SelectSplit(s, p, m, i);
      PrefixGrows(s, m);
    } else {
      SelectNone(s, p);
    }
  }

  lemma PrefixGrows<T>(s: seq<T>, m: nat)
    requires 0 < m <= |s|
    ensures multiset(s[..m]) == multiset(s[..m - 1]) + multiset{s[m - 1]}
  {
    assert s[..m] == s[..m - 1] + [s[m - 1]];
  }

  /** The values at the entries of `p` that are below `m`, in the order of `p`. */
  function Select<T>(s: seq<T>, p: seq<nat>, m: nat): seq<T>
    requires Indices(p, |s|)
  {
    if p == [] then []
    else (if p[0] < m then [s[p[0]]] else []) + Select(s, p[1..], m)
  }

  lemma {:induction false} SelectNone<T>(s: seq<T>, p: seq<nat>)
    requires Indices(p, |s|)
    ensures Select(s, p, 0) == []
  {
    if p != [] {
      SelectNone(s, p[1..]);
    }
  }

  lemma {:induction false} SelectAll<T>(s: seq<T>, p: seq<nat>)
    requires Indices(p, |s|)
    ensures Select(s, p, |s|) == Permute(s, p)
  {
    if p != [] {
      SelectAll(s, p[1..]);
    }
  }

  /** Raising the bound from `m - 1` to `m` adds exactly the value at the one
      entry equal to `m - 1`. */
  lemma {:induction false} SelectSplit<T>(s: seq<T>, p: seq<nat>, m: nat, i: nat)
    requires Indices(p, |s|) && 0 < m && i < |p| && p[i] == m - 1
    requires forall a, b :: 0 <= a < b < |p| ==> p[a] != p[b]
    ensures multiset(Select(s, p, m)) == multiset(Select(s, p, m - 1)) + multiset{s[m - 1]}
    decreases |p|
  {
    if i == 0 {
      SelectIgnores(s, p[1..], m);
    } else {
      SelectSplit(s, p[1..], m, i - 1);
    }
  }

  lemma {:induction false} SelectIgnores<T>(s: seq<T>, p: seq<nat>, m: nat)
    requires Indices(p, |s|) && 0 < m && m - 1 !in p
    ensures Select(s, p, m) == Select(s, p, m - 1)
    decreases |p|
  {
    if p != [] {
      var rest := p[1..];
      assert forall k :: 0 <= k < |rest| ==> rest[k] == p[k + 1];
      assert m - 1 !in rest && (p[0] < m <==> p[0] < m - 1);
      SelectIgnores(s, rest, m);
    }
  }

  // ---------------------------------------------------------------------------
  // When the sort succeeds

  predicate AllComparable(keys: seq<Value>)
  {
    forall i, j :: 0 <= i < |keys| && 0 <= j < |keys| ==> Lt(keys[i], keys[j]).Some?
  }

  /** When every two keys can be compared, the sort cannot raise. */
  lemma {:induction false} SortSucceedsWhenComparable(keys: seq<Value>, n: nat, reverse: bool)
    requires n <= |keys| && AllComparable(keys)
    ensures SortPrefix(keys, n, reverse).Ordered?
    decreases n
  {
    if n > 0 {
      SortSucceedsWhenComparable(keys, n - 1, reverse);
      var p := SortPrefix(keys, n - 1, reverse).perm;
      forall k | 0 <= k < |p|
        ensures Before(keys[n - 1], keys[p[k]], reverse).Some?
      {
        LtAsymmetric(keys[n - 1], keys[p[k]]);
      }
    }
  }

  predicate AllScalar(keys: seq<Value>)
  {
    forall i :: 0 <= i < |keys| ==> IsScalar(keys[i])
  }

  predicate SameKind(keys: seq<Value>)
  {
    forall i, j :: 0 <= i < |keys| && 0 <= j < |keys| ==> KindOf(keys[i]) == KindOf(keys[j])
  }

  /** For scalar keys the sort raises exactly when two keys are of different
      classes (numbers, strings, dates, datetimes). */
  lemma ScalarSortSucceedsIff(keys: seq<Value>, reverse: bool)
    requires AllScalar(keys)
    ensures Sort(keys, reverse).Ordered? <==> SameKind(keys)
  {
    if SameKind(keys) {
      forall i, j | 0 <= i < |keys| && 0 <= j < |keys|
        ensures Lt(keys[i], keys[j]).Some?
      {
        ScalarComparable(keys[i], keys[j]);
      }
      SortSucceedsWhenComparable(keys, |keys|, reverse);
    }
    if Sort(keys, reverse).Ordered? && keys != [] {
      var p := Sort(keys, reverse).perm;
      SameKindAlongOrder(keys, p, reverse, |p|);
      forall i, j | 0 <= i < |keys| && 0 <= j < |keys|
        ensures KindOf(keys[i]) == KindOf(keys[j])
      {
        assert i in p && j in p;
        var a :| 0 <= a < |p| && p[a] == i;
        var b :| 0 <= b < |p| && p[b] == j;
      }
    }
  }

  lemma {:induction false} SameKindAlongOrder(keys: seq<Value>, p: seq<nat>, reverse: bool, m: nat)
    requires AllScalar(keys) && Indices(p, |keys|) && AdjacentInOrder(keys, p, reverse)
    requires 0 < m <= |p|
    ensures forall k :: 0 <= k < m ==> KindOf(keys[p[k]]) == KindOf(keys[p[0]])
    decreases m
  {
    if m > 1 {
      SameKindAlongOrder(keys, p, reverse, m - 1);
      var x, y := keys[p[m - 2]], keys[p[m - 1]];
      assert InOrder(keys, p[m - 2], p[m - 1], reverse);
      ScalarComparable(x, y);
      ScalarComparable(y, x);
    }
  }

  /** Key `x` may stand anywhere before key `y`. */
  predicate NotAfter(x: Value, y: Value, reverse: bool)
  {
    Before(y, x, reverse) == Some(false)
  }

  lemma NotAfterTransitive(x: Value, y: Value, z: Value, reverse: bool)
    requires IsScalar(x) && KindOf(x) == KindOf(y) == KindOf(z)
    requires NotAfter(x, y, reverse) && NotAfter(y, z, reverse)
    ensures NotAfter(x, z, reverse)
  {
    if reverse {
      ScalarNotLtTransitive(z, y, x);
    } else {
      ScalarNotLtTransitive(x, y, z);
    }
  }

  /** For scalar keys of one class the whole result is ordered, and keys
      that tie keep their original order: the sort is stable. */
  lemma {:induction false} ScalarSortOrdered(keys: seq<Value>, reverse: bool, a: nat, b: nat)
    requires AllScalar(keys) && SameKind(keys) && Sort(keys, reverse).Ordered?
    requires a < b < |keys|
    ensures var p := Sort(keys, reverse).perm;
      NotAfter(keys[p[a]], keys[p[b]], reverse)
    ensures var p := Sort(keys, reverse).perm;
      NotAfter(keys[p[b]], keys[p[a]], reverse) ==> p[a] < p[b]
    decreases b - a
  {
    var p := Sort(keys, reverse).perm;
    assert InOrder(keys, p[a], p[a + 1], reverse);
    if a + 1 < b {
      ScalarSortOrdered(keys, reverse, a + 1, b);
      var x, y, z := keys[p[a]], keys[p[a + 1]], keys[p[b]];
      NotAfterTransitive(x, y, z, reverse);
      if NotAfter(z, x, reverse) {
        NotAfterTransitive(y, z, x, reverse);
        NotAfterTransitive(z, x, y, reverse);
      }
    }
  }

  /** A permutation that keeps every pair of positions in order moves nothing. */
  lemma IncreasingPermutationIsIdentity(p: seq<nat>, n: nat)
    requires IsPermutation(p, n)
    requires forall a, b :: 0 <= a < b < n ==> p[a] < p[b]
    ensures forall k :: 0 <= k < n ==> p[k] == k
  {
    forall k | 0 <= k < n
      ensures p[k] == k
    {
      EntryAtLeastIndex(p, n, k);
      EntryAtMostIndex(p, n, k);
    }
  }

  lemma {:induction false} EntryAtLeastIndex(p: seq<nat>, n: nat, k: nat)
    requires |p| == n && k < n
    requires forall a, b :: 0 <= a < b < n ==> p[a] < p[b]
    ensures k <= p[k]
    decreases k
  {
    if k > 0 {
      EntryAtLeastIndex(p, n, k - 1);
    }
  }

  lemma {:induction false} EntryAtMostIndex(p: seq<nat>, n: nat, k: nat)
    requires |p| == n && k < n && Indices(p, n)
    requires forall a, b :: 0 <= a < b < n ==> p[a] < p[b]
    ensures p[k] <= k
    decreases n - k
  {
    if k + 1 < n {
      EntryAtMostIndex(p, n, k + 1);
    }
  }

  /** Along `p` no key comes after a later one, and equal keys keep their
      order: what a stable sort leaves. */
  predicate StablyOrdered(keys: seq<Value>, p: seq<nat>, reverse: bool)
    requires Indices(p, |keys|)
  {
    forall a, b :: 0 <= a < b < |p| ==>
      NotAfter(keys[p[a]], keys[p[b]], reverse) && (keys[p[a]] == keys[p[b]] ==> p[a] < p[b])
  }

  /** For scalar keys of one class the sort is stable and ordered throughout. */
  lemma ScalarSortStable(keys: seq<Value>, reverse: bool)
    requires AllScalar(keys) && SameKind(keys) && Sort(keys, reverse).Ordered?
    ensures StablyOrdered(keys, Sort(keys, reverse).perm, reverse)
  {
    var p := Sort(keys, reverse).perm;
    forall a, b | 0 <= a < b < |p|
      ensures NotAfter(keys[p[a]], keys[p[b]], reverse) && (keys[p[a]] == keys[p[b]] ==> p[a] < p[b])
    {
      ScalarSortOrdered(keys, reverse, a, b);
    }
  }

  /** Puts the elements of an array in the order a permutation gives, as
      `list.sort` leaves them. */
  method Rearrange<T>(xs: array<T>, p: seq<nat>)
    requires IsPermutation(p, xs.Length)
    modifies xs
    ensures xs[..] == Permute(old(xs[..]), p)
  {
    var before := xs[..];
    var i := 0;
    while i < xs.Length
      invariant 0 <= i <= xs.Length
      invariant forall k :: 0 <= k < i ==> xs[k] == before[p[k]]
    {
      xs[i] := before[p[i]];
      i := i + 1;
    }
  }
}
