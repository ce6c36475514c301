/**
 * The array idioms the source leans on everywhere (`filter`, `find`,
 * `findIndex`, `flat`, `reduce` to a sum, and the checkbox toggle of the admin
 * and HR pages), written once over sequences.
 */
module Seqs {
  import opened Wrappers

  /** `xs.filter(p)`: the elements that satisfy `p`, in their original order. */
  function Filter<T>(xs: seq<T>, p: T -> bool): (r: seq<T>)
    ensures |r| <= |xs|
    ensures forall i :: 0 <= i < |r| ==> p(r[i]) && r[i] in xs
  {
    if xs == [] then [] else (if p(xs[0]) then [xs[0]] else []) + Filter(xs[1..], p)
  }

  /** Filtering distributes over concatenation, so a loop can filter one element at a time. */
  lemma {:induction false} FilterConcat<T>(xs: seq<T>, ys: seq<T>, p: T -> bool)
    ensures Filter(xs + ys, p) == Filter(xs, p) + Filter(ys, p)
  {
    if xs == [] {
      assert xs + ys == ys;
    } else {
      assert (xs + ys)[1..] == xs[1..] + ys;
      FilterConcat(xs[1..], ys, p);
    }
  }

  /** Filtering keeps everything exactly when every element qualifies. */
  lemma {:induction false} FilterKeepsAll<T>(xs: seq<T>, p: T -> bool)
    ensures Filter(xs, p) == xs <==> forall i :: 0 <= i < |xs| ==> p(xs[i])
  {
    if xs != [] {
      FilterKeepsAll(xs[1..], p);
      if !p(xs[0]) {
        assert |Filter(xs, p)| < |xs|;
      }
    }
  }

  /** `xs.findIndex(p)`: the first index whose element satisfies `p`, or -1. */
  function IndexOf<T>(xs: seq<T>, p: T -> bool): (r: int)
    ensures -1 <= r < |xs|
    ensures 0 <= r ==> p(xs[r])
    ensures forall j :: 0 <= j < |xs| && (r < 0 || j < r) ==> !p(xs[j])
  {
    if xs == [] then -1
    else if p(xs[0]) then 0
    else
      var k := IndexOf(xs[1..], p);
      if k < 0 then -1 else k + 1
  }

  /** An index is the first match exactly when `findIndex` returns it. */
  lemma IndexOfIsFirst<T>(xs: seq<T>, p: T -> bool, i: int)
    requires 0 <= i < |xs| && p(xs[i])
    requires forall j :: 0 <= j < i ==> !p(xs[j])
    ensures IndexOf(xs, p) == i
  {
  }

  /** `r` is what a first-match lookup must give: the first element satisfying `p`, or nothing when none does. */
  predicate IsFirstMatch<T(==)>(xs: seq<T>, p: T -> bool, r: Option<T>)
  {
    if r.None? then forall i :: 0 <= i < |xs| ==> !p(xs[i])
    else exists i :: 0 <= i < |xs| && xs[i] == r.value && p(xs[i]) && forall j :: 0 <= j < i ==> !p(xs[j])
  }

  /** `xs.find(p)`: the first element that satisfies `p`, or nothing. */
  function Find<T(==)>(xs: seq<T>, p: T -> bool): (r: Option<T>)
    ensures IsFirstMatch(xs, p, r)
    ensures r.Some? ==> 0 <= IndexOf(xs, p) && r.value == xs[IndexOf(xs, p)]
  {
    var i := IndexOf(xs, p);
    if i < 0 then None else Some(xs[i])
  }

  /** An element survives the filter exactly when it was there and qualifies. */
  lemma {:induction false} FilterMembership<T>(xs: seq<T>, p: T -> bool, x: T)
    ensures x in Filter(xs, p) <==> x in xs && p(x)
  {
    if xs != [] {
      FilterMembership(xs[1..], p, x);
      assert xs == [xs[0]] + xs[1..];
    }
  }

  /** Every element that qualifies is kept. */
  lemma FilterKeeps<T>(xs: seq<T>, p: T -> bool)
    ensures forall i :: 0 <= i < |xs| && p(xs[i]) ==> xs[i] in Filter(xs, p)
  {
    forall i | 0 <= i < |xs| && p(xs[i]) {
      FilterMembership(xs, p, xs[i]);
    }
  }

  /** The head of `xs.filter(p)` is `xs.find(p)`: `filter(p)[0]` and `find(p)` agree. */
  lemma {:induction false} FilterHeadIsFind<T>(xs: seq<T>, p: T -> bool)
    ensures Filter(xs, p) == [] <==> Find(xs, p).None?
    ensures Filter(xs, p) != [] ==> Find(xs, p) == Some(Filter(xs, p)[0])
  {
    if xs != [] {
      FilterHeadIsFind(xs[1..], p);
      FindCons(xs, p);
    }
  }

  /** `find` looks at the head first, then searches the tail. */
  lemma FindCons<T>(xs: seq<T>, p: T -> bool)
    requires xs != []
    ensures Find(xs, p) == if p(xs[0]) then Some(xs[0]) else Find(xs[1..], p)
  {
  }

  /** Filtering out only non-matches does not change what `find` returns. */
  lemma {:induction false} FindThroughFilter<T>(xs: seq<T>, keep: T -> bool, p: T -> bool)
    requires forall x :: p(x) ==> keep(x)
    ensures Find(Filter(xs, keep), p) == Find(xs, p)
  {
    if xs != [] {
      FindThroughFilter(xs[1..], keep, p);
      var rest := Filter(xs[1..], keep);
      FindCons(xs, p);
      if keep(xs[0]) {
        assert ([xs[0]] + rest)[1..] == rest;
        FindCons([xs[0]] + rest, p);
      } else {
        assert Filter(xs, keep) == rest;
      }
    }
  }

  /**
   * `Object.assign(xs.find(p), ...)`: the first element that satisfies `p` is
   * replaced by `f` of itself; every other element, and the whole sequence when
   * nothing matches, stays as it was.
   */
  function UpdateFirst<T>(xs: seq<T>, p: T -> bool, f: T -> T): (r: seq<T>)
    ensures |r| == |xs|
    ensures forall i :: 0 <= i < |xs| && p(xs[i]) && (forall j :: 0 <= j < i ==> !p(xs[j])) ==> r[i] == f(xs[i])
    ensures forall i :: 0 <= i < |xs| && (!p(xs[i]) || exists j :: 0 <= j < i && p(xs[j])) ==> r[i] == xs[i]
    ensures (forall i :: 0 <= i < |xs| ==> !p(xs[i])) ==> r == xs
  {
    var i := IndexOf(xs, p);
    if i < 0 then xs else xs[i := f(xs[i])]
  }

  /**
   * Replace the first element that satisfies `p` by `x`, or append `x` when none
   * does (`existing ? Object.assign(existing, x) : xs.push(x)`, and the
   * `findIndex`-then-assign-or-push of the rating page).
   */
  function Upsert<T(==)>(xs: seq<T>, p: T -> bool, x: T): (r: seq<T>)
    ensures (exists i :: 0 <= i < |xs| && p(xs[i])) ==> |r| == |xs|
    ensures (forall i :: 0 <= i < |xs| ==> !p(xs[i])) ==> r == xs + [x]
    ensures forall i :: 0 <= i < |xs| && !p(xs[i]) ==> r[i] == xs[i]
    ensures IndexOf(xs, p) >= 0 ==> r == xs[IndexOf(xs, p) := x]
    ensures x in r
  {
    var i := IndexOf(xs, p);
    if i < 0 then xs + [x]
    else
      assert xs[i := x][i] == x;
      xs[i := x]
  }

  /** Upserting twice under the same key keeps only the second value, in the first one's place. */
  lemma UpsertTwice<T>(xs: seq<T>, p: T -> bool, x: T, y: T)
    requires p(x)
    ensures Upsert(Upsert(xs, p, x), p, y) == Upsert(xs, p, y)
  {
    var i := IndexOf(xs, p);
    var ys := Upsert(xs, p, x);
    if i < 0 {
      IndexOfIsFirst(ys, p, |xs|);
    } else {
      IndexOfIsFirst(ys, p, i);
    }
  }

  /** After an upsert under `p` of a value satisfying `p`, the first match is that value. */
  lemma UpsertFindsNew<T>(xs: seq<T>, p: T -> bool, x: T)
    requires p(x)
    ensures Find(Upsert(xs, p, x), p) == Some(x)
  {
    var i := IndexOf(xs, p);
    var r := Upsert(xs, p, x);
    if i < 0 {
      IndexOfIsFirst(r, p, |xs|);
    } else {
      forall j | 0 <= j < i ensures !p(r[j]) {
        assert r[j] == xs[j];
      }
      IndexOfIsFirst(r, p, i);
    }
  }

  /** Appending never changes a match that was already found, and supplies the first match when there was none. */
  lemma FindAppend<T>(xs: seq<T>, y: T, p: T -> bool)
    ensures Find(xs, p).Some? ==> Find(xs + [y], p) == Find(xs, p)
    ensures Find(xs, p).None? ==> Find(xs + [y], p) == if p(y) then Some(y) else None
  {
    var i := IndexOf(xs, p);
    if 0 <= i {
      IndexOfIsFirst(xs + [y], p, i);
    } else if p(y) {
      IndexOfIsFirst(xs + [y], p, |xs|);
    }
  }

  /** Appending any elements never changes a match that was already found. */
  lemma {:induction false} FindConcat<T>(xs: seq<T>, ys: seq<T>, p: T -> bool)
    requires Find(xs, p).Some?
    ensures Find(xs + ys, p) == Find(xs, p)
  {
    if ys != [] {
      var init := ys[..|ys| - 1];
      FindConcat(xs, init, p);
      FindAppend(xs + init, ys[|ys| - 1], p);
      assert xs + ys == (xs + init) + [ys[|ys| - 1]];
    } else {
      assert xs + ys == xs;
    }
  }

  /** `xss.flat()`: the concatenation of the pieces, in order. */
  function Flatten<T>(xss: seq<seq<T>>): (r: seq<T>)
  {
    if xss == [] then [] else Flatten(xss[..|xss| - 1]) + xss[|xss| - 1]
  }

  lemma {:induction false} FlattenConcat<T>(xss: seq<seq<T>>, yss: seq<seq<T>>)
    ensures Flatten(xss + yss) == Flatten(xss) + Flatten(yss)
  {
    if yss == [] {
      assert xss + yss == xss;
    } else {
      var n := |yss| - 1;
      assert (xss + yss)[..|xss + yss| - 1] == xss + yss[..n];
      assert Flatten(xss + yss) == Flatten(xss + yss[..n]) + yss[n];
      FlattenConcat(xss, yss[..n]);
      assert Flatten(yss) == Flatten(yss[..n]) + yss[n];
    }
  }

  /** `xs.reduce((a, b) => a + b, 0)` over integers. */
  function Sum(xs: seq<int>): int
  {
    if xs == [] then 0 else Sum(xs[..|xs| - 1]) + xs[|xs| - 1]
  }

  /** `xs.reduce((a, b) => a + b, 0)` over the reals that stand for JavaScript numbers. */
  function SumReal(xs: seq<real>): real
  {
    if xs == [] then 0.0 else SumReal(xs[..|xs| - 1]) + xs[|xs| - 1]
  }

  lemma {:induction false} SumConcat(xs: seq<int>, ys: seq<int>)
    ensures Sum(xs + ys) == Sum(xs) + Sum(ys)
  {
    if ys != [] {
      var n := |ys| - 1;
      assert (xs + ys)[..|xs + ys| - 1] == xs + ys[..n];
      SumConcat(xs, ys[..n]);
    } else {
      assert xs + ys == xs;
    }
  }

  lemma {:induction false} SumRealConcat(xs: seq<real>, ys: seq<real>)
    ensures SumReal(xs + ys) == SumReal(xs) + SumReal(ys)
  {
    if ys != [] {
      var n := |ys| - 1;
      assert (xs + ys)[..|xs + ys| - 1] == xs + ys[..n];
      SumRealConcat(xs, ys[..n]);
    } else {
      assert xs + ys == xs;
    }
  }

  /** A sum of values that all lie in `[lo, hi]` lies in `[n * lo, n * hi]`. */
  lemma {:induction false} SumRealBounds(xs: seq<real>, lo: real, hi: real)
    requires forall i :: 0 <= i < |xs| ==> lo <= xs[i] <= hi
    ensures |xs| as real * lo <= SumReal(xs) <= |xs| as real * hi
  {
    if xs != [] {
      SumRealBounds(xs[..|xs| - 1], lo, hi);
    }
  }

  /** How often `y` survives `xs.filter(p)`: one for each copy of `y` in `xs` when `p(y)`, none otherwise. */
  lemma {:induction false} FilterCount<T>(xs: seq<T>, p: T -> bool, y: T)
    ensures multiset(Filter(xs, p))[y] == if p(y) then multiset(xs)[y] else 0
  {
    if xs != [] {
      var x, rest := xs[0], xs[1..];
      FilterCount(rest, p, y);
      assert xs == [x] + rest;
      assert Filter(xs, p) == (if p(x) then [x] else []) + Filter(rest, p);
    }
  }

  /**
   * Filtering by four predicates no two of which hold together takes each
   * element that satisfies one of them into exactly one of the four results.
   */
  lemma FilterPartition<T>(xs: seq<T>, p: T -> bool, q: T -> bool, r: T -> bool, s: T -> bool, any: T -> bool)
    requires forall x :: any(x) <==> p(x) || q(x) || r(x) || s(x)
    requires forall x :: !(p(x) && q(x)) && !(p(x) && r(x)) && !(p(x) && s(x))
    requires forall x :: !(q(x) && r(x)) && !(q(x) && s(x)) && !(r(x) && s(x))
    ensures multiset(Filter(xs, p) + Filter(xs, q) + Filter(xs, r) + Filter(xs, s)) == multiset(Filter(xs, any))
  {
    var all := Filter(xs, p) + Filter(xs, q) + Filter(xs, r) + Filter(xs, s);
    forall y ensures multiset(all)[y] == multiset(Filter(xs, any))[y] {
      FilterCount(xs, p, y);
      FilterCount(xs, q, y);
      FilterCount(xs, r, y);
      FilterCount(xs, s, y);
      FilterCount(xs, any, y);
    }
  }

  /** The predicate `x => x !== v`. */
  function NotEqual<T(==)>(v: T): T -> bool
  {
    (x: T) => x != v
  }

  /** Removing every copy of `v` takes exactly the copies of `v` out of the multiset. */
  lemma FilterNotEqualMultiset<T>(xs: seq<T>, v: T)
    ensures multiset(Filter(xs, NotEqual(v))) == multiset(xs)[v := 0]
  {
    forall y ensures multiset(Filter(xs, NotEqual(v)))[y] == multiset(xs)[v := 0][y] {
      FilterCount(xs, NotEqual(v), y);
    }
  }

  /**
   * The checkbox toggle of the admin and HR pages:
   * `prev.includes(id) ? prev.filter((s) => s !== id) : [...prev, id]`.
   */
  function Toggle<T(==)>(xs: seq<T>, v: T): (r: seq<T>)
    ensures v in r <==> v !in xs
    ensures forall i :: 0 <= i < |xs| && xs[i] != v ==> xs[i] in r
    ensures forall i :: 0 <= i < |r| && r[i] != v ==> r[i] in xs
  {
    if v in xs then
      var r := Filter(xs, NotEqual(v));
      assert forall i :: 0 <= i < |xs| && xs[i] != v ==> xs[i] in r by {
        forall i | 0 <= i < |xs| && xs[i] != v {
          FilterMembership(xs, NotEqual(v), xs[i]);
        }
      }
      r
    else xs + [v]
  }

  /** Toggling twice leaves an absent id absent; a present id ends up alone at the end. */
  lemma ToggleTwiceShape<T>(xs: seq<T>, v: T)
    ensures Toggle(Toggle(xs, v), v) == if v in xs then Filter(xs, NotEqual(v)) + [v] else xs
  {
    if v in xs {
      assert v !in Filter(xs, NotEqual(v));
    } else {
      FilterConcat(xs, [v], NotEqual(v));
      FilterKeepsAll(xs, NotEqual(v));
      assert Filter([v], NotEqual(v)) == [];
    }
  }

  /**
   * Toggling twice gives back the list exactly when the id was absent or was its
   * unique last element; otherwise the id moves to the end.
   */
  lemma ToggleTwiceRestores<T>(xs: seq<T>, v: T)
    ensures Toggle(Toggle(xs, v), v) == xs
        <==> v !in xs || (xs[|xs| - 1] == v && v !in xs[..|xs| - 1])
  {
    ToggleTwiceShape(xs, v);
    if v in xs {
      var ys := Filter(xs, NotEqual(v));
      if xs[|xs| - 1] == v && v !in xs[..|xs| - 1] {
        assert xs == xs[..|xs| - 1] + [v];
        FilterConcat(xs[..|xs| - 1], [v], NotEqual(v));
        FilterKeepsAll(xs[..|xs| - 1], NotEqual(v));
        assert Filter([v], NotEqual(v)) == [];
      }
      if ys + [v] == xs {
        assert xs[..|xs| - 1] == ys;
        assert v !in ys;
      }
    }
  }

  /** When the id occurred at most once, toggling twice restores the multiset of selected ids. */
  lemma ToggleTwiceMultiset<T>(xs: seq<T>, v: T)
    requires multiset(xs)[v] <= 1
    ensures multiset(Toggle(Toggle(xs, v), v)) == multiset(xs)
  {
    ToggleTwiceShape(xs, v);
    FilterNotEqualMultiset(xs, v);
  }

  /** No element occurs twice. */
  predicate NoDuplicates<T(==)>(xs: seq<T>)
  {
    forall i, j :: 0 <= i < j < |xs| ==> xs[i] != xs[j]
  }

  /** A filter of a list without duplicates has none either. */
  lemma {:induction false} FilterNoDuplicates<T>(xs: seq<T>, p: T -> bool)
    requires NoDuplicates(xs)
    ensures NoDuplicates(Filter(xs, p))
  {
    if xs != [] {
      assert NoDuplicates(xs[1..]) by {
        forall i, j | 0 <= i < j < |xs| - 1 ensures xs[1..][i] != xs[1..][j] {
          assert xs[1..][i] == xs[i + 1] && xs[1..][j] == xs[j + 1];
        }
      }
      FilterNoDuplicates(xs[1..], p);
      if p(xs[0]) {
        var rest := Filter(xs[1..], p);
        assert xs[0] !in xs[1..] by {
          forall k | 0 <= k < |xs| - 1 ensures xs[1..][k] != xs[0] {
            assert xs[1..][k] == xs[k + 1];
          }
        }
        FilterMembership(xs[1..], p, xs[0]);
        assert Filter(xs, p) == [xs[0]] + rest;
      }
    }
  }

  /** A list without duplicates holds each element at most once. */
  lemma {:induction false} NoDuplicatesCount<T>(xs: seq<T>, v: T)
    requires NoDuplicates(xs)
    ensures multiset(xs)[v] <= 1
  {
    if xs != [] {
      assert xs == [xs[0]] + xs[1..];
      assert NoDuplicates(xs[1..]) by {
        forall i, j | 0 <= i < j < |xs| - 1 ensures xs[1..][i] != xs[1..][j] {
          assert xs[1..][i] == xs[i + 1] && xs[1..][j] == xs[j + 1];
        }
      }
      NoDuplicatesCount(xs[1..], v);
      if xs[0] == v {
        assert v !in xs[1..] by {
          forall k | 0 <= k < |xs| - 1 ensures xs[1..][k] != v {
            assert xs[1..][k] == xs[k + 1];
          }
        }
      }
    }
  }

  /** A selection built by toggles never holds an id twice. */
  lemma ToggleKeepsNoDuplicates<T>(xs: seq<T>, v: T)
    requires NoDuplicates(xs)
    ensures NoDuplicates(Toggle(xs, v))
  {
    if v in xs {
      FilterNoDuplicates(xs, NotEqual(v));
    }
  }

  /** On a selection without duplicates, toggling an id twice gives back the same ids. */
  lemma ToggleTwiceSameIds<T>(xs: seq<T>, v: T)
    requires NoDuplicates(xs)
    ensures multiset(Toggle(Toggle(xs, v), v)) == multiset(xs)
  {
    NoDuplicatesCount(xs, v);
    ToggleTwiceMultiset(xs, v);
  }
}
