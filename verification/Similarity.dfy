/**
  Jaro–Winkler name matching (apps/api/src/common/string-similarity.util.ts).

  The two methods are the program; `Jaro` and `Winkler` are what they compute, stated over
  the pairing of equal characters that the windowed scan picks. Scores are reals, and the
  normalisation `trim().toLowerCase()` is an arbitrary function on strings.
 */
module Similarity {
  import opened Wrappers

  /** Which position of `b` each matched position of `a` is paired with. */
  type Pairing = map<nat, nat>

  /** `matchDistance`; it is -1 when both strings have length 1, and then no pair is close. */
  function MatchDistance(a: string, b: string): int {
    (if |a| >= |b| then |a| else |b|) / 2 - 1
  }

  /** Positions `i` of `a` and `j` of `b` hold the same character and lie inside the window. */
  predicate Candidate(a: string, b: string, d: int, i: nat, j: nat) {
    i < |a| && j < |b| && a[i] == b[j] && i - d <= j <= i + d
  }

  /** A pairing uses candidates only, and no position of `b` twice. */
  ghost predicate ValidPairing(a: string, b: string, d: int, p: Pairing) {
    && (forall i :: i in p ==> Candidate(a, b, d, i, p[i]))
    && (forall i, i' :: i in p && i' in p && p[i] == p[i'] ==> i == i')
  }

  // ---- The greedy scan as a function ----

  predicate Free(a: string, b: string, d: int, p: Pairing, i: nat, j: nat) {
    Candidate(a, b, d, i, j) && j !in p.Values
  }

  /** The least free partner of `i` at or after `j`. */
  function FirstFree(a: string, b: string, d: int, p: Pairing, i: nat, j: nat): (r: Option<nat>)
    ensures r.Some? ==> j <= r.value && Free(a, b, d, p, i, r.value)
    ensures forall j' :: j <= j' && (r.Some? ==> j' < r.value) ==> !Free(a, b, d, p, i, j')
    decreases |b| - j
  {
    if j >= |b| then None
    else if Free(a, b, d, p, i, j) then Some(j)
    else FirstFree(a, b, d, p, i, j + 1)
  }

  function Extend(a: string, b: string, d: int, p: Pairing, i: nat): Pairing {
    match FirstFree(a, b, d, p, i, 0)
    case Some(j) => p[i := j]
    case None => p
  }

  /** The pairs picked once the first `n` positions of `a` have been scanned. */
  function Greedy(a: string, b: string, d: int, n: nat): Pairing {
    if n == 0 then map[] else Extend(a, b, d, Greedy(a, b, d, n - 1), n - 1)
  }

  function Matching(a: string, b: string): Pairing {
    Greedy(a, b, MatchDistance(a, b), |a|)
  }

  // ---- The scan yields the one stable pairing ----

  /**
    Every candidate pair among the first `n` positions of `a` is kept or blocked: its `a` side
    has a partner no later, or its `b` side was taken by an earlier position. The condition
    does not say which string was scanned.
   */
  ghost predicate Stable(a: string, b: string, d: int, p: Pairing, n: nat) {
    && ValidPairing(a, b, d, p)
    && (forall i :: i in p ==> i < n)
    && (forall i: nat, j: nat :: i < n && Candidate(a, b, d, i, j) ==>
          (i in p && p[i] <= j) || (exists i' :: i' in p && i' < i && p[i'] == j))
  }

  lemma {:induction false} GreedyIsStable(a: string, b: string, d: int, n: nat)
    ensures Stable(a, b, d, Greedy(a, b, d, n), n)
  {
    if n > 0 {
      GreedyIsStable(a, b, d, n - 1);
      var p, q := Greedy(a, b, d, n - 1), Greedy(a, b, d, n);
      forall i: nat, j: nat | i < n && Candidate(a, b, d, i, j)
        ensures (i in q && q[i] <= j) || (exists i' :: i' in q && i' < i && q[i'] == j)
      {
        if i < n - 1 {
          if !(i in p && p[i] <= j) {
            var i' :| i' in p && i' < i && p[i'] == j;
            assert i' in q && q[i'] == j;
          }
        } else if j in p.Values {
          var i' :| i' in p && p[i'] == j;
          assert i' in q && q[i'] == j;
        } else {
          assert Free(a, b, d, p, i, j);
        }
      }
    }
  }

  /** Stable pairings of (a, b) and of (b, a) are mirror images of each other. */
  lemma {:induction false} StableMirror(a: string, b: string, d: int, p: Pairing, q: Pairing, i: nat, j: nat)
    requires Stable(a, b, d, p, |a|) && Stable(b, a, d, q, |b|)
    requires Candidate(a, b, d, i, j)
    ensures (i in p && p[i] == j) <==> (j in q && q[j] == i)
    decreases i + j
  {
    if i in p && p[i] == j && !(j in q && q[j] == i) {
      assert Candidate(b, a, d, j, i);
      if j in q && q[j] <= i {
        StableMirror(a, b, d, p, q, q[j], j);
      } else {
        var j' :| j' in q && j' < j && q[j'] == i;
        StableMirror(a, b, d, p, q, i, j');
      }
    }
    if j in q && q[j] == i && !(i in p && p[i] == j) {
      if i in p && p[i] <= j {
        StableMirror(a, b, d, p, q, i, p[i]);
      } else {
        var i' :| i' in p && i' < i && p[i'] == j;
        StableMirror(a, b, d, p, q, i', j);
      }
    }
  }

  /** Scanning from `b` picks the same pairs as scanning from `a`. */
  lemma MatchingMirror(a: string, b: string)
    ensures forall i :: i in Matching(a, b) ==>
      Matching(a, b)[i] in Matching(b, a) && Matching(b, a)[Matching(a, b)[i]] == i
    ensures Matching(a, b).Keys == Matching(b, a).Values
    ensures Matching(a, b).Values == Matching(b, a).Keys
  {
    var d, p, q := MatchDistance(a, b), Matching(a, b), Matching(b, a);
    GreedyIsStable(a, b, d, |a|);
    GreedyIsStable(b, a, d, |b|);
    forall i | i in p
      ensures p[i] in q && q[p[i]] == i
    {
      StableMirror(a, b, d, p, q, i, p[i]);
    }
    forall j | j in q
      ensures q[j] in p && p[q[j]] == j
    {
      assert Candidate(b, a, d, j, q[j]);
      StableMirror(a, b, d, p, q, q[j], j);
    }
  }

  // ---- The scan yields a maximum pairing ----

  ghost predicate AgreeBelow(r: Pairing, p: Pairing, n: nat) {
    forall i: nat :: i < n ==> (i in r <==> i in p) && (i in r ==> r[i] == p[i])
  }

  lemma AgreeWith(r: Pairing, p: Pairing, n: nat, j: nat)
    requires AgreeBelow(r, p, n)
    ensures AgreeBelow(r[n := j], p[n := j], n + 1)
  {
  }

  /** `n` has no partner in `r` and `j` is not used by another position: the pair can be added. */
  lemma AddPair(a: string, b: string, d: int, r: Pairing, n: nat, j: nat)
    requires ValidPairing(a, b, d, r) && Candidate(a, b, d, n, j)
    requires forall i :: i in r && r[i] == j ==> i == n
    ensures ValidPairing(a, b, d, r[n := j])
    ensures |r[n := j]| >= |r|
  {
    assert (r[n := j]).Keys == r.Keys + {n};
  }

  /** `j` is used by a later `t`, and `n` has no partner: `n` takes over from `t`. */
  lemma MovePair(a: string, b: string, d: int, r: Pairing, p: Pairing, n: nat, j: nat, t: nat)
    requires ValidPairing(a, b, d, r) && AgreeBelow(r, p, n) && Candidate(a, b, d, n, j)
    requires t in r && r[t] == j && n < t && n !in r
    ensures ValidPairing(a, b, d, (r - {t})[n := j]) && AgreeBelow((r - {t})[n := j], p[n := j], n + 1)
    ensures |(r - {t})[n := j]| >= |r|
  {
    var s := r - {t};
    assert s.Keys == r.Keys - {t};
    AddPair(a, b, d, s, n, j);
    AgreeWith(s, p, n, j);
    assert (s[n := j]).Keys == s.Keys + {n};
  }

  /** `j` is used by a later `t`, and `n` has a later partner: the two swap. */
  lemma SwapPairs(a: string, b: string, d: int, r: Pairing, n: nat, j: nat, t: nat)
    requires ValidPairing(a, b, d, r) && Candidate(a, b, d, n, j)
    requires t in r && r[t] == j && n < t && n in r && j <= r[n]
    ensures ValidPairing(a, b, d, r[t := r[n]][n := j])
    ensures |r[t := r[n]][n := j]| >= |r|
  {
    var s := r[t := r[n]][n := j];
    assert s.Keys == r.Keys;
    assert Candidate(a, b, d, t, r[n]);
    forall i, i' | i in s && i' in s && s[i] == s[i']
      ensures i == i'
    {
      var k := if i == n then t else if i == t then n else i;
      var k' := if i' == n then t else if i' == t then n else i';
      assert r[k] == s[i] && r[k'] == s[i'];
    }
  }

  lemma AgreeAfterSwap(r: Pairing, p: Pairing, n: nat, j: nat, t: nat, k: nat)
    requires AgreeBelow(r, p, n) && n < t
    ensures AgreeBelow(r[t := k][n := j], p[n := j], n + 1)
  {
  }

  /** A partner that a pairing gives to `n` is one the scan could have chosen. */
  lemma StillFree(a: string, b: string, d: int, r: Pairing, p: Pairing, n: nat)
    requires ValidPairing(a, b, d, r) && AgreeBelow(r, p, n) && (forall i :: i in p ==> i < n)
    requires n in r
    ensures Free(a, b, d, p, n, r[n])
  {
    assert forall i :: i in p ==> i in r && r[i] == p[i];
  }

  /**
    Any pairing that agrees with the scan below `n` can be made to agree at `n` too without
    losing a pair.
   */
  lemma Exchange(a: string, b: string, d: int, r: Pairing, p: Pairing, n: nat, j: nat) returns (r': Pairing)
    requires ValidPairing(a, b, d, r) && AgreeBelow(r, p, n) && Candidate(a, b, d, n, j)
    requires forall i :: i in p ==> i < n && p[i] != j
    requires n in r ==> j <= r[n]
    ensures ValidPairing(a, b, d, r') && AgreeBelow(r', p[n := j], n + 1)
    ensures |r'| >= |r|
  {
    if t :| t in r && r[t] == j && t != n {
      assert n < t;
      if n in r {
        SwapPairs(a, b, d, r, n, j, t);
        AgreeAfterSwap(r, p, n, j, t, r[n]);
        r' := r[t := r[n]][n := j];
      } else {
        MovePair(a, b, d, r, p, n, j, t);
        r' := (r - {t})[n := j];
      }
    } else {
      AddPair(a, b, d, r, n, j);
      AgreeWith(r, p, n, j);
      r' := r[n := j];
    }
  }

  lemma ExchangeStep(a: string, b: string, d: int, r: Pairing, n: nat) returns (r': Pairing)
    requires n < |a| && ValidPairing(a, b, d, r) && AgreeBelow(r, Greedy(a, b, d, n), n)
    ensures ValidPairing(a, b, d, r') && AgreeBelow(r', Greedy(a, b, d, n + 1), n + 1)
    ensures |r'| >= |r|
  {
    var p := Greedy(a, b, d, n);
    assert forall i :: i in p ==> i < n by { GreedyIsStable(a, b, d, n); }
    if n in r { StillFree(a, b, d, r, p, n); }
    match FirstFree(a, b, d, p, n, 0)
    case None => r' := r;
    case Some(j) =>
      assert forall i :: i in p ==> p[i] in p.Values;
      r' := Exchange(a, b, d, r, p, n, j);
  }

  lemma {:induction false} GreedyBeats(a: string, b: string, d: int, r: Pairing, n: nat)
    requires n <= |a| && ValidPairing(a, b, d, r) && AgreeBelow(r, Greedy(a, b, d, n), n)
    ensures |r| <= |Greedy(a, b, d, |a|)|
    decreases |a| - n
  {
    if n < |a| {
      var r' := ExchangeStep(a, b, d, r, n);
      GreedyBeats(a, b, d, r', n + 1);
    } else {
      GreedyIsStable(a, b, d, n);
      assert r.Keys <= Greedy(a, b, d, n).Keys;
      SubsetSize(r.Keys, Greedy(a, b, d, n).Keys);
    }
  }

  /** `matches` is the size of the largest pairing of equal characters within the window. */
  lemma MatchingIsMaximum(a: string, b: string, r: Pairing)
    requires ValidPairing(a, b, MatchDistance(a, b), r)
    ensures ValidPairing(a, b, MatchDistance(a, b), Matching(a, b))
    ensures |r| <= |Matching(a, b)|
  {
    GreedyIsStable(a, b, MatchDistance(a, b), |a|);
    GreedyBeats(a, b, MatchDistance(a, b), r, 0);
  }

  lemma {:induction false} SubsetSize<T>(x: set<T>, y: set<T>)
    requires x <= y
    ensures |x| <= |y|
  {
    assert y == x + (y - x);
  }

  // ---- Matched characters in order, and the score ----

  /** The characters of `s` at the positions in `keep`, from position `from` on. */
  function Picked(s: string, keep: set<nat>, from: nat): string
    decreases |s| - from
  {
    if from >= |s| then ""
    else if from in keep then [s[from]] + Picked(s, keep, from + 1)
    else Picked(s, keep, from + 1)
  }

  function Mismatches(x: string, y: string): nat {
    if x == "" || y == "" then 0
    else (if x[0] != y[0] then 1 else 0) + Mismatches(x[1..], y[1..])
  }

  function JaroFormula(m: nat, mismatches: nat, aLen: nat, bLen: nat): real
    requires m > 0 && aLen > 0 && bLen > 0
  {
    var matches, transpositions := m as real, mismatches as real / 2.0;
    (matches / aLen as real + matches / bLen as real + (matches - transpositions) / matches) / 3.0
  }

  function Jaro(a: string, b: string): real {
    if a == b then 1.0
    else
      var p := Matching(a, b);
      if |a| == 0 || |b| == 0 || |p| == 0 then 0.0
      else JaroFormula(|p|, Mismatches(Picked(a, p.Keys, 0), Picked(b, p.Values, 0)), |a|, |b|)
  }

  function CommonPrefix(a: string, b: string, limit: nat): (n: nat)
    ensures n <= limit && n <= |a| && n <= |b| && a[..n] == b[..n]
    ensures n < limit && n < |a| && n < |b| ==> a[n] != b[n]
  {
    if limit == 0 || a == "" || b == "" || a[0] != b[0] then 0
    else 1 + CommonPrefix(a[1..], b[1..], limit - 1)
  }

  const MAX_PREFIX: nat := 4
  const SCALING_FACTOR: real := 0.1

  function Winkler(normalise: string -> string, a: string, b: string): real {
    var x, y := normalise(a), normalise(b);
    Jaro(x, y) + CommonPrefix(x, y, MAX_PREFIX) as real * SCALING_FACTOR * (1.0 - Jaro(x, y))
  }

  lemma {:induction false} PickedLength(s: string, keep: set<nat>, from: nat)
    requires from <= |s| && forall i :: i in keep ==> from <= i < |s|
    ensures |Picked(s, keep, from)| == |keep|
    decreases |s| - from
  {
    if from < |s| {
      var rest := keep - {from};
      PickedIgnores(s, keep, rest, from + 1);
      PickedLength(s, rest, from + 1);
      assert from in keep ==> keep == rest + {from};
      assert from !in keep ==> keep == rest;
    }
  }

  /** Only membership at or after `from` matters. */
  lemma {:induction false} PickedIgnores(s: string, keep: set<nat>, keep': set<nat>, from: nat)
    requires forall i :: from <= i < |s| ==> (i in keep <==> i in keep')
    ensures Picked(s, keep, from) == Picked(s, keep', from)
    decreases |s| - from
  {
    if from < |s| { PickedIgnores(s, keep, keep', from + 1); }
  }

  /** The first free partner is the free one that no other free one precedes. */
  lemma FirstFreeIs(a: string, b: string, d: int, p: Pairing, i: nat, choice: Option<nat>)
    requires choice.Some? ==> Free(a, b, d, p, i, choice.value)
    requires forall y: nat :: Free(a, b, d, p, i, y) ==> choice.Some? && choice.value <= y
    ensures FirstFree(a, b, d, p, i, 0) == choice
  {
  }

  lemma ValuesOfInsert(p: Pairing, i: nat, j: nat)
    requires i !in p
    ensures (p[i := j]).Values == p.Values + {j}
    ensures |p[i := j]| == |p| + 1
  {
    var q := p[i := j];
    forall y | y in p.Values
      ensures y in q.Values
    {
      var x :| x in p && p[x] == y;
      assert x in q && q[x] == y;
    }
    assert i in q && q[i] == j;
    assert q.Keys == p.Keys + {i};
  }

  lemma {:induction false} InjectiveSize(p: Pairing)
    requires forall i, i' :: i in p && i' in p && p[i] == p[i'] ==> i == i'
    ensures |p.Values| == |p|
  {
    if i :| i in p {
      var q := p - {i};
      InjectiveSize(q);
      assert p == q[i := p[i]];
      ValuesOfInsert(q, i, p[i]);
    } else {
      assert p.Values == {};
    }
  }

  /** Both strings keep as many characters as there are matches, and these fit into each. */
  lemma PickedSizes(a: string, b: string)
    ensures var p := Matching(a, b);
      |Picked(a, p.Keys, 0)| == |Picked(b, p.Values, 0)| == |p| && |p| <= |a| && |p| <= |b|
  {
    var p := Matching(a, b);
    GreedyIsStable(a, b, MatchDistance(a, b), |a|);
    InjectiveSize(p);
    PickedLength(a, p.Keys, 0);
    PickedLength(b, p.Values, 0);
    PickedAtMost(a, p.Keys, 0);
    PickedAtMost(b, p.Values, 0);
  }

  lemma {:induction false} PickedAtMost(s: string, keep: set<nat>, from: nat)
    requires from <= |s|
    ensures |Picked(s, keep, from)| <= |s| - from
    decreases |s| - from
  {
    if from < |s| { PickedAtMost(s, keep, from + 1); }
  }

  lemma {:induction false} PickedAll(s: string, keep: set<nat>, from: nat)
    requires from <= |s| && |Picked(s, keep, from)| == |s| - from
    ensures Picked(s, keep, from) == s[from..]
    decreases |s| - from
  {
    if from < |s| {
      PickedAtMost(s, keep, from + 1);
      PickedAll(s, keep, from + 1);
    }
  }

  lemma {:induction false} MismatchesFacts(x: string, y: string)
    requires |x| == |y|
    ensures Mismatches(x, y) == Mismatches(y, x) <= |x|
    ensures Mismatches(x, y) == 0 ==> x == y
  {
    if x != "" {
      MismatchesFacts(x[1..], y[1..]);
      assert x == [x[0]] + x[1..] && y == [y[0]] + y[1..];
    }
  }

  // ---- Theorems about the scores ----

  lemma JaroSymmetric(a: string, b: string)
    ensures Jaro(a, b) == Jaro(b, a)
  {
    MatchingMirror(a, b);
    PickedSizes(a, b);
    PickedSizes(b, a);
    var p := Matching(a, b);
    MismatchesFacts(Picked(a, p.Keys, 0), Picked(b, p.Values, 0));
  }

  lemma JaroRange(a: string, b: string)
    ensures 0.0 <= Jaro(a, b) <= 1.0
    ensures Jaro(a, b) == 1.0 <==> a == b
  {
    var p := Matching(a, b);
    PickedSizes(a, b);
    var x, y := Picked(a, p.Keys, 0), Picked(b, p.Values, 0);
    MismatchesFacts(x, y);
    if a != b && |p| > 0 {
      JaroFormulaRange(|p|, Mismatches(x, y), |a|, |b|);
      if |p| == |a| == |b| && Mismatches(x, y) == 0 { FullMatch(a, b); }
    }
  }

  /** If every position is matched and the matched characters agree in order, the strings are equal. */
  lemma FullMatch(a: string, b: string)
    requires |Matching(a, b)| == |a| == |b|
    requires Mismatches(Picked(a, Matching(a, b).Keys, 0), Picked(b, Matching(a, b).Values, 0)) == 0
    ensures a == b
  {
    var p := Matching(a, b);
    PickedSizes(a, b);
    PickedAll(a, p.Keys, 0);
    PickedAll(b, p.Values, 0);
    MismatchesFacts(a[0..], b[0..]);
    assert a[0..] == a && b[0..] == b;
  }

  lemma JaroFormulaRange(m: nat, t: nat, aLen: nat, bLen: nat)
    requires 0 < m <= aLen && m <= bLen && t <= m
    ensures 0.0 < JaroFormula(m, t, aLen, bLen) <= 1.0
    ensures JaroFormula(m, t, aLen, bLen) == 1.0 ==> m == aLen == bLen && t == 0
  {
    QuotientRange(m as real, aLen as real);
    QuotientRange(m as real, bLen as real);
    QuotientRange(m as real - t as real / 2.0, m as real);
  }

  lemma QuotientRange(x: real, y: real)
    requires 0.0 < x <= y
    ensures 0.0 < x / y <= 1.0
    ensures x / y == 1.0 ==> x == y
  {
    assert x / y * y == x;
  }

  lemma CommonPrefixSymmetric(a: string, b: string, limit: nat)
    ensures CommonPrefix(a, b, limit) == CommonPrefix(b, a, limit)
  {
  }

  /** The matcher's verdict does not depend on which name is given first. */
  lemma WinklerSymmetric(normalise: string -> string, a: string, b: string)
    ensures Winkler(normalise, a, b) == Winkler(normalise, b, a)
  {
    hide Jaro;
    JaroSymmetric(normalise(a), normalise(b));
    CommonPrefixSymmetric(normalise(a), normalise(b), MAX_PREFIX);
  }

  lemma WinklerRange(normalise: string -> string, a: string, b: string)
    ensures 0.0 <= Jaro(normalise(a), normalise(b)) <= Winkler(normalise, a, b) <= 1.0
    ensures Winkler(normalise, a, b) == 1.0 <==> normalise(a) == normalise(b)
  {
    hide Jaro;
    var x, y := normalise(a), normalise(b);
    JaroRange(x, y);
    BlendRange(Jaro(x, y), CommonPrefix(x, y, MAX_PREFIX) as real * SCALING_FACTOR);
  }

  lemma BlendRange(j: real, w: real)
    requires 0.0 <= j <= 1.0 && 0.0 <= w <= 0.4
    ensures j <= j + w * (1.0 - j) <= j + 0.4 * (1.0 - j) <= 1.0
    ensures j + w * (1.0 - j) == 1.0 ==> j == 1.0
  {
    var c := 1.0 - j;
    assert w * c >= 0.0;
    assert (0.4 - w) * c >= 0.0;
  }

  /** A pair of names reported as a likely duplicate, from a score of 0.88 on, has lengths within a factor 2/5. */
  lemma MatchForcesLengthRatio(normalise: string -> string, a: string, b: string)
    requires Winkler(normalise, a, b) >= 0.88
    ensures 5 * |normalise(a)| >= 2 * |normalise(b)| && 5 * |normalise(b)| >= 2 * |normalise(a)|
  {
    hide Jaro;
    var x, y := normalise(a), normalise(b);
    JaroRange(x, y);
    BlendRange(Jaro(x, y), CommonPrefix(x, y, MAX_PREFIX) as real * SCALING_FACTOR);
    assert Jaro(x, y) >= 0.8;
    JaroForcesLengthRatio(x, y);
  }

  lemma JaroForcesLengthRatio(x: string, y: string)
    requires Jaro(x, y) >= 0.8
    ensures 5 * |x| >= 2 * |y| && 5 * |y| >= 2 * |x|
  {
    if x != y {
      hide Matching, Picked, Mismatches, JaroFormula;
      var p := Matching(x, y);
      PickedSizes(x, y);
      var s, t := Picked(x, p.Keys, 0), Picked(y, p.Values, 0);
      MismatchesFacts(s, t);
      FormulaForcesMatches(|p|, Mismatches(s, t), |x|, |y|);
    }
  }

  /** Each of the three parts of the score is at most 1, so each is at least 0.4. */
  lemma FormulaForcesMatches(m: nat, t: nat, aLen: nat, bLen: nat)
    requires 0 < m <= aLen && m <= bLen && t <= m && JaroFormula(m, t, aLen, bLen) >= 0.8
    ensures 5 * m >= 2 * aLen && 5 * m >= 2 * bLen
  {
    QuotientRange(m as real, aLen as real);
    QuotientRange(m as real, bLen as real);
    QuotientRange(m as real - t as real / 2.0, m as real);
    QuotientAtLeast(m as real, aLen as real);
    QuotientAtLeast(m as real, bLen as real);
  }

  lemma QuotientAtLeast(x: real, y: real)
    requires y > 0.0 && x / y >= 0.4
    ensures 5.0 * x >= 2.0 * y
  {
    assert x / y * y == x;
    assert (x / y - 0.4) * y >= 0.0;
  }

  /** The common prefix is the only agreeing prefix that cannot be extended within the limit. */
  lemma {:induction false} CommonPrefixUnique(a: string, b: string, limit: nat, n: nat)
    requires n <= limit && n <= |a| && n <= |b| && forall i :: 0 <= i < n ==> a[i] == b[i]
    requires n < limit && n < |a| && n < |b| ==> a[n] != b[n]
    ensures CommonPrefix(a, b, limit) == n
  {
    if n > 0 { CommonPrefixUnique(a[1..], b[1..], limit - 1, n - 1); }
  }

  // ---- The program ----

  /** The inner scan over `b`: the first unmarked equal character in the window of `i`. */
  method FindPartner(a: string, b: string, matchDistance: int, bMatches: array<bool>, i: nat, ghost p: Pairing)
    returns (partner: Option<nat>)
    requires i < |a| && bMatches.Length == |b|
    requires forall y: nat :: y < |b| ==> (bMatches[y] <==> y in p.Values)
    ensures partner == FirstFree(a, b, matchDistance, p, i, 0)
  {
    var start := if i - matchDistance > 0 then i - matchDistance else 0;
    var end := if i + matchDistance + 1 < |b| then i + matchDistance + 1 else |b|;
    var j := start;
    while j < end && (bMatches[j] || a[i] != b[j])
      invariant start <= j && forall y :: start <= y < j && y < end ==> bMatches[y] || a[i] != b[y]
    {
      j := j + 1;
    }
    partner := if j < end then Some(j) else None;
    assert forall y: nat :: Free(a, b, matchDistance, p, i, y) ==> start <= y < end && !bMatches[y] && a[i] == b[y];
    FirstFreeIs(a, b, matchDistance, p, i, partner);
  }

  /** The first loop: marks the matched positions of both strings and counts the pairs. */
  method MarkMatches(a: string, b: string, matchDistance: int, aMatches: array<bool>, bMatches: array<bool>)
    returns (matches: nat)
    requires aMatches.Length == |a| && bMatches.Length == |b| && aMatches != bMatches
    requires forall x :: 0 <= x < |a| ==> !aMatches[x]
    requires forall y :: 0 <= y < |b| ==> !bMatches[y]
    modifies aMatches, bMatches
    ensures var p := Greedy(a, b, matchDistance, |a|);
      && matches == |p|
      && (forall x: nat :: x < |a| ==> (aMatches[x] <==> x in p.Keys))
      && (forall y: nat :: y < |b| ==> (bMatches[y] <==> y in p.Values))
  {
    matches := 0;
    for i := 0 to |a|
      invariant matches == |Greedy(a, b, matchDistance, i)|
      invariant forall x: nat :: x < |a| ==> (aMatches[x] <==> x in Greedy(a, b, matchDistance, i).Keys)
      invariant forall y: nat :: y < |b| ==> (bMatches[y] <==> y in Greedy(a, b, matchDistance, i).Values)
    {
      ghost var p := Greedy(a, b, matchDistance, i);
      assert i !in p by { GreedyIsStable(a, b, matchDistance, i); }
      var partner := FindPartner(a, b, matchDistance, bMatches, i, p);
      ghost var q := Greedy(a, b, matchDistance, i + 1);
      if partner.None? {
        assert q == p;
      } else {
        assert q == p[i := partner.value];
        ValuesOfInsert(p, i, partner.value);
        aMatches[i] := true;
        bMatches[partner.value] := true;
        matches := matches + 1;
      }
    }
  }

  /** The second loop: `k` walks the matched positions of `b` in step with those of `a`. */
  method CountMismatches(a: string, b: string, aMatches: array<bool>, bMatches: array<bool>, ghost p: Pairing)
    returns (mismatches: nat)
    requires aMatches.Length == |a| && bMatches.Length == |b|
    requires forall x: nat :: x < |a| ==> (aMatches[x] <==> x in p.Keys)
    requires forall y: nat :: y < |b| ==> (bMatches[y] <==> y in p.Values)
    requires |Picked(a, p.Keys, 0)| == |Picked(b, p.Values, 0)|
    ensures mismatches == Mismatches(Picked(a, p.Keys, 0), Picked(b, p.Values, 0))
  {
    mismatches := 0;
    var k := 0;
    for i := 0 to |a|
      invariant k <= |b|
      invariant |Picked(a, p.Keys, i)| == |Picked(b, p.Values, k)|
      invariant mismatches + Mismatches(Picked(a, p.Keys, i), Picked(b, p.Values, k))
             == Mismatches(Picked(a, p.Keys, 0), Picked(b, p.Values, 0))
    {
      if aMatches[i] {
        ghost var rest := Picked(b, p.Values, k);
        while !bMatches[k]
          invariant k < |b| && Picked(b, p.Values, k) == rest
          decreases |b| - k
        {
          k := k + 1;
        }
        if a[i] != b[k] {
          mismatches := mismatches + 1;
        }
        assert Picked(a, p.Keys, i)[1..] == Picked(a, p.Keys, i + 1);
        assert Picked(b, p.Values, k)[1..] == Picked(b, p.Values, k + 1);
        k := k + 1;
      }
    }
  }

  lemma MatchingIs(a: string, b: string)
    ensures Matching(a, b) == Greedy(a, b, MatchDistance(a, b), |a|)
  {
  }

  method JaroSimilarity(a: string, b: string) returns (score: real)
    ensures score == Jaro(a, b)
  {
    if a == b { return 1.0; }
    hide Greedy, Picked, Mismatches, Matching;
    var aLen, bLen := |a|, |b|;
    if aLen == 0 || bLen == 0 { return 0.0; }

    var matchDistance := (if aLen >= bLen then aLen else bLen) / 2 - 1;
    var aMatches := new bool[aLen](_ => false);
    var bMatches := new bool[bLen](_ => false);
    var matches := MarkMatches(a, b, matchDistance, aMatches, bMatches);
    ghost var p := Matching(a, b);
    assert p == Greedy(a, b, matchDistance, |a|) by { MatchingIs(a, b); }
    if matches == 0 { return 0.0; }

    PickedSizes(a, b);
    var mismatches := CountMismatches(a, b, aMatches, bMatches, p);
    var transpositions := mismatches as real / 2.0;
    return (matches as real / aLen as real + matches as real / bLen as real
            + (matches as real - transpositions) / matches as real) / 3.0;
  }

  method JaroWinklerSimilarity(normalise: string -> string, a: string, b: string) returns (score: real)
    ensures score == Winkler(normalise, a, b)
  {
    var normA, normB := normalise(a), normalise(b);
    var jaro := JaroSimilarity(normA, normB);
    var bound := if |normA| < |normB| then |normA| else |normB|;
    if MAX_PREFIX < bound { bound := MAX_PREFIX; }
    var prefixLen := 0;
    while prefixLen < bound && normA[prefixLen] == normB[prefixLen]
      invariant prefixLen <= bound && forall i :: 0 <= i < prefixLen ==> normA[i] == normB[i]
    {
      prefixLen := prefixLen + 1;
    }
    CommonPrefixUnique(normA, normB, MAX_PREFIX, prefixLen);
    return jaro + prefixLen as real * SCALING_FACTOR * (1.0 - jaro);
  }
}
