/**
 * The deterministic "matching" score: a 32-bit string hash of
 * `seed + employeeId + jobId` folded into 60..95, and the descending sort that
 * ranks scored entries (lib/utils/matching.ts).
 */
module Matching {
  import opened Types
  import opened Seqs
  import opened Text

  const TWO_31: int := 0x8000_0000
  const TWO_32: int := 0x1_0000_0000

  /** ECMAScript ToInt32: the value in [-2^31, 2^31) congruent to `x` modulo 2^32. */
  function ToInt32(x: int): (r: int)
    ensures -TWO_31 <= r < TWO_31
    ensures (x - r) % TWO_32 == 0
  {
    (x + TWO_31) % TWO_32 - TWO_31
  }

  /** ToInt32 depends only on the residue modulo 2^32. */
  lemma ToInt32Congruent(x: int, y: int)
    requires (x - y) % TWO_32 == 0
    ensures ToInt32(x) == ToInt32(y)
  {
    var k := (x - y) / TWO_32;
    assert x + TWO_31 == (y + TWO_31) + k * TWO_32;
    ModAddMultiple(y + TWO_31, k);
  }

  lemma {:induction false} ModAddMultiple(a: int, k: int)
    ensures (a + k * TWO_32) % TWO_32 == a % TWO_32
    decreases if k < 0 then -k else k
  {
    if k > 0 {
      ModAddMultiple(a, k - 1);
      assert a + k * TWO_32 == (a + (k - 1) * TWO_32) + TWO_32;
    } else if k < 0 {
      ModAddMultiple(a, k + 1);
      assert a + k * TWO_32 == (a + (k + 1) * TWO_32) - TWO_32;
    }
  }

  /** `x << 5` on a JavaScript number: shift the 32-bit pattern, read it back as signed. */
  function ShiftLeft5(x: int): int
  {
    ToInt32(ToInt32(x) * 32)
  }

  /** One loop iteration: `hash = (hash << 5) - hash + char; hash = hash & hash`. */
  function Step(hash: int, unit: int): int
  {
    ToInt32(ShiftLeft5(hash) - hash + unit)
  }

  /** The shift-and-subtract step is the signed 32-bit wrap of `31 * hash + char`. */
  lemma StepIsTimes31(hash: int, unit: int)
    ensures Step(hash, unit) == ToInt32(31 * hash + unit)
    ensures -TWO_31 <= Step(hash, unit) < TWO_31
  {
    var a := ToInt32(hash);
    var b := ToInt32(a * 32);
    assert (hash - a) % TWO_32 == 0;
    var k := (hash - a) / TWO_32;
    assert hash * 32 == a * 32 + (32 * k) * TWO_32;
    assert ((b - a * 32) + (-32 * k) * TWO_32) == b - hash * 32;
    ModAddMultiple(b - a * 32, -32 * k);
    assert (b - hash * 32) % TWO_32 == 0;
    assert (b - hash + unit) - (31 * hash + unit) == b - hash * 32;
    ToInt32Congruent(b - hash + unit, 31 * hash + unit);
  }

  /** The hash after folding `units` left to right from 0. */
  function Hash(units: seq<int>): (h: int)
    ensures -TWO_31 <= h < TWO_31
  {
    if units == [] then 0 else Step(Hash(units[..|units| - 1]), units[|units| - 1])
  }

  /** The unbounded polynomial `sum units[i] * 31^(n-1-i)` (Java's String.hashCode before wrapping). */
  function Polynomial(units: seq<int>): int
  {
    if units == [] then 0 else 31 * Polynomial(units[..|units| - 1]) + units[|units| - 1]
  }

  /** Multiplying congruent values by 31 and adding the same unit keeps them congruent. */
  lemma Times31Congruent(p: int, h: int, unit: int)
    requires (p - h) % TWO_32 == 0
    ensures ToInt32(31 * p + unit) == ToInt32(31 * h + unit)
  {
    var k := (p - h) / TWO_32;
    assert p - h == k * TWO_32;
    assert (31 * p + unit) - (31 * h + unit) == 0 + (31 * k) * TWO_32;
    ModAddMultiple(0, 31 * k);
    ToInt32Congruent(31 * p + unit, 31 * h + unit);
  }

  /** The fold computes the polynomial string hash, wrapped once at the end to signed 32 bits. */
  lemma {:induction false} HashIsWrappedPolynomial(units: seq<int>)
    ensures Hash(units) == ToInt32(Polynomial(units))
  {
    if units != [] {
      var init, last := units[..|units| - 1], units[|units| - 1];
      HashIsWrappedPolynomial(init);
      StepIsTimes31(Hash(init), last);
      Times31Congruent(Polynomial(init), Hash(init), last);
    }
  }

  /** Hashing a concatenation continues from the hash of the first part. */
  lemma {:induction false} HashConcat(xs: seq<int>, ys: seq<int>)
    ensures Hash(xs + ys) == HashFrom(Hash(xs), ys)
  {
    if ys != [] {
      var n := |ys| - 1;
      assert (xs + ys)[..|xs + ys| - 1] == xs + ys[..n];
      HashConcat(xs, ys[..n]);
    } else {
      assert xs + ys == xs;
    }
  }

  /** The fold started from an arbitrary hash instead of 0. */
  function HashFrom(start: int, units: seq<int>): int
  {
    if units == [] then start else Step(HashFrom(start, units[..|units| - 1]), units[|units| - 1])
  }

  function Abs(x: int): nat
  {
    if x < 0 then -x else x
  }

  /** `(Math.abs(hash) % 36) + 60`. */
  function Normalize(hash: int): (n: int)
    ensures 60 <= n <= 95
  {
    Abs(hash) % 36 + 60
  }

  /** `Math.min(95, Math.max(60, normalized))`. */
  function Clamp(n: int): int
  {
    if n < 60 then 60 else if n > 95 then 95 else n
  }

  /**
   * `generateDeterministicScore(seed, employeeId, jobId)` as a value. It depends only
   * on the concatenated string, and the final clamp never changes the normalized
   * value because that value already lies in 60..95.
   */
  function DeterministicScore(seed: string, employeeId: string, jobId: string): (score: int)
    ensures 60 <= score <= 95
    ensures score == Normalize(Hash(Utf16(seed + employeeId + jobId)))
  {
    Clamp(Normalize(Hash(Utf16(seed + employeeId + jobId))))
  }

  /** The score of `a + b` is the hash of `b` continued from the hash of `a`; how the text is cut into arguments does not matter. */
  lemma ScoreOfSplitText(seed: string, employeeId: string, jobId: string)
    ensures DeterministicScore(seed, employeeId, jobId)
         == Normalize(HashFrom(Hash(Utf16(seed)), Utf16(employeeId + jobId)))
  {
    assert seed + employeeId + jobId == seed + (employeeId + jobId);
    Utf16Concat(seed, employeeId + jobId);
    HashConcat(Utf16(seed), Utf16(employeeId + jobId));
  }

  /** An empty concatenation hashes to 0 and scores 60. */
  lemma ScoreOfEmpty()
    ensures DeterministicScore("", "", "") == 60
  {
    assert "" + "" + "" == "";
  }

  /** The code units of "a" and "ab". */
  lemma Utf16Examples()
    ensures Utf16("a") == [97] && Utf16("ab") == [97, 98]
  {
    assert "a"[..0] == "";
    assert "ab"[..1] == "a";
  }

  /** Folding 97 gives 97; folding 97 then 98 gives 31 * 97 + 98 = 3105. */
  lemma HashExamples()
    ensures Hash([97]) == 97 && Hash([97, 98]) == 3105
  {
    assert [97][..0] == [];
    assert [97, 98][..1] == [97];
    StepIsTimes31(0, 97);
    assert ToInt32(97) == 97;
    StepIsTimes31(97, 98);
    assert ToInt32(3105) == 3105;
  }

  /** "a" scores 97 % 36 + 60 = 85. */
  lemma ScoreOfA()
    ensures DeterministicScore("a", "", "") == 85
  {
    assert "a" + "" + "" == "a";
    Utf16Examples();
    HashExamples();
  }

  /** "ab" scores 3105 % 36 + 60 = 69, however it is cut into arguments. */
  lemma ScoreOfAB()
    ensures DeterministicScore("", "a", "b") == 69 && DeterministicScore("ab", "", "") == 69
  {
    assert "" + "a" + "b" == "ab";
    assert "ab" + "" + "" == "ab";
    Utf16Examples();
    HashExamples();
  }

  /** The loop of `generateDeterministicScore`, over the UTF-16 code units of the concatenation. */
  method GenerateDeterministicScore(seed: string, employeeId: string, jobId: string) returns (score: int)
    ensures score == DeterministicScore(seed, employeeId, jobId)
    ensures 60 <= score <= 95
  {
    var combined := seed + employeeId + jobId;
    var units := Utf16(combined);
    var hash := 0;
    var i := 0;
    while i < |units|
      invariant 0 <= i <= |units|
      invariant hash == Hash(units[..i])
    {
      var unit := units[i];
      hash := ShiftLeft5(hash) - hash + unit;
      hash := ToInt32(hash);
      assert units[..i + 1][..i] == units[..i];
      i := i + 1;
    }
    assert units[..i] == units;
    var normalized := Abs(hash) % 36 + 60;
    score := if 95 < (if 60 < normalized then normalized else 60) then 95
             else if 60 < normalized then normalized else 60;
  }

  // sortByScore: `[...items].sort((a, b) => b.score - a.score)`, a stable sort.

  /** Every score is at least every later one. */
  predicate NonIncreasing(xs: seq<Scored>)
  {
    forall i, j :: 0 <= i < j < |xs| ==> xs[i].score >= xs[j].score
  }

  /** Every score is at least the next one. */
  predicate AdjacentNonIncreasing(xs: seq<Scored>)
  {
    forall i :: 0 < i < |xs| ==> xs[i - 1].score >= xs[i].score
  }

  lemma {:induction false} AdjacentGivesNonIncreasing(xs: seq<Scored>)
    requires AdjacentNonIncreasing(xs)
    ensures NonIncreasing(xs)
  {
    if xs != [] {
      AdjacentGivesNonIncreasing(xs[1..]);
      forall j | 0 < j < |xs|
        ensures xs[0].score >= xs[j].score
      {
        if j > 1 { assert xs[1..][0].score >= xs[1..][j - 1].score; }
      }
      forall i, j | 0 < i < j < |xs|
        ensures xs[i].score >= xs[j].score
      {
        assert xs[1..][i - 1].score >= xs[1..][j - 1].score;
      }
    }
  }

  /** Insert `x` before the first entry whose score does not exceed its own. */
  function InsertByScore(x: Scored, ys: seq<Scored>): (r: seq<Scored>)
    requires AdjacentNonIncreasing(ys)
    ensures AdjacentNonIncreasing(r)
    ensures multiset(r) == multiset(ys) + multiset{x}
    ensures |r| == |ys| + 1
    ensures r[0] == x || (ys != [] && r[0] == ys[0])
  {
    if ys == [] || ys[0].score <= x.score then [x] + ys
    else
      var rest := InsertByScore(x, ys[1..]);
      assert ys == [ys[0]] + ys[1..];
      [ys[0]] + rest
  }

  /** The insertion sort behind `sortByScore`, with neighbouring scores in order. */
  function InsertionSort(xs: seq<Scored>): (r: seq<Scored>)
    ensures AdjacentNonIncreasing(r)
    ensures multiset(r) == multiset(xs)
  {
    if xs == [] then []
    else
      assert xs == [xs[0]] + xs[1..];
      InsertByScore(xs[0], InsertionSort(xs[1..]))
  }

  /** `sortByScore(items)`: a new sequence, a permutation of the input, by non-increasing score. */
  function SortByScore(xs: seq<Scored>): (r: seq<Scored>)
    ensures NonIncreasing(r)
    ensures multiset(r) == multiset(xs)
    ensures |r| == |xs|
  {
    var r := InsertionSort(xs);
    AdjacentGivesNonIncreasing(r);
    assert |r| == |multiset(r)| == |multiset(xs)| == |xs|;
    r
  }

  function ScoreIs(s: int): Scored -> bool
  {
    (x: Scored) => x.score == s
  }

  lemma {:induction false} InsertKeepsTies(x: Scored, ys: seq<Scored>, s: int)
    requires AdjacentNonIncreasing(ys)
    ensures Filter(InsertByScore(x, ys), ScoreIs(s))
         == (if x.score == s then [x] else []) + Filter(ys, ScoreIs(s))
  {
    if !(ys == [] || ys[0].score <= x.score) {
      InsertKeepsTies(x, ys[1..], s);
      var rest := InsertByScore(x, ys[1..]);
      var tail := Filter(ys[1..], ScoreIs(s));
      assert ([ys[0]] + rest)[1..] == rest;
      assert Filter([ys[0]] + rest, ScoreIs(s))
          == (if ys[0].score == s then [ys[0]] else []) + Filter(rest, ScoreIs(s));
      assert Filter(ys, ScoreIs(s)) == (if ys[0].score == s then [ys[0]] else []) + tail;
      if x.score == s {
        assert ys[0].score != s;
      }
    }
  }

  /** The sort is stable: entries with equal scores keep their input order. */
  lemma {:induction false} SortByScoreIsStable(xs: seq<Scored>, s: int)
    ensures Filter(SortByScore(xs), ScoreIs(s)) == Filter(xs, ScoreIs(s))
  {
    if xs != [] {
      SortByScoreIsStable(xs[1..], s);
      InsertKeepsTies(xs[0], InsertionSort(xs[1..]), s);
    }
  }

  // The rankings of the two matching pages:
  // `candidates.slice(0, Math.min(5, candidates.length)).map(score).sort(...)`.

  const RANKED := 5

  function Min(a: int, b: int): int
  {
    if a < b then a else b
  }

  /** Each candidate id paired with its score, in candidate order. */
  function ScoreAll(ids: seq<string>, score: string -> int): (r: seq<Scored>)
    ensures |r| == |ids|
    ensures forall i :: 0 <= i < |ids| ==> r[i] == Scored(ids[i], score(ids[i]))
  {
    seq(|ids|, i requires 0 <= i < |ids| => Scored(ids[i], score(ids[i])))
  }

  /** The first five candidates (or all, when fewer), scored and sorted best first. */
  function Rank(ids: seq<string>, score: string -> int): (r: seq<Scored>)
    ensures |r| == Min(RANKED, |ids|)
    ensures NonIncreasing(r)
    ensures multiset(r) == multiset(ScoreAll(ids[..Min(RANKED, |ids|)], score))
  {
    SortByScore(ScoreAll(ids[..Min(RANKED, |ids|)], score))
  }

  /**
   * Every ranked entry is one of the first five candidates with its own score,
   * so with scores in 60..95 the ranking's scores are too.
   */
  lemma RankEntries(ids: seq<string>, score: string -> int)
    ensures forall i :: 0 <= i < |Rank(ids, score)| ==>
              var e := Rank(ids, score)[i];
              e.id in ids[..Min(RANKED, |ids|)] && e.score == score(e.id)
  {
    var r := Rank(ids, score);
    var all := ScoreAll(ids[..Min(RANKED, |ids|)], score);
    forall i | 0 <= i < |r|
      ensures r[i].id in ids[..Min(RANKED, |ids|)] && r[i].score == score(r[i].id)
    {
      assert r[i] in multiset(r);
      assert r[i] in all;
      var k :| 0 <= k < |all| && all[k] == r[i];
    }
  }
}
