/** What the name scores of `Similarity` are, as arithmetic on the two names. */
module ScoreLaws {
  import opened Similarity

  // ---- The matches ----

  /** The positions are less than half the longer length apart: `|i - j| + 1` fits twice into it. */
  ghost predicate Close(a: string, b: string, i: nat, j: nat) {
    var longer := if |a| >= |b| then |a| else |b|;
    2 * (i - j + 1) <= longer && 2 * (j - i + 1) <= longer
  }

  /** Equal characters at close positions, and no position in two pairs. */
  ghost predicate Pairs(a: string, b: string, p: Pairing) {
    && (forall i :: i in p ==> i < |a| && p[i] < |b| && a[i] == b[p[i]] && Close(a, b, i, p[i]))
    && (forall i, j :: i in p && j in p && p[i] == p[j] ==> i == j)
  }

  /** The matches are as many pairs as can be formed at all. */
  lemma MatchesAreMost(a: string, b: string, r: Pairing)
    requires Pairs(a, b, r)
    ensures Pairs(a, b, Matching(a, b)) && |r| <= |Matching(a, b)|
  {
    MatchingIsMaximum(a, b, r);
  }

  // ---- The disagreements ----

  /** Where the strings differ, from position `from` on. */
  ghost function DisagreementsFrom(x: string, y: string, from: nat): set<nat> {
    set k: nat | from <= k < |x| && k < |y| && x[k] != y[k]
  }

  ghost function Disagreements(x: string, y: string): set<nat> { DisagreementsFrom(x, y, 0) }

  lemma {:induction false} MismatchesFrom(x: string, y: string, from: nat)
    requires |x| == |y| && from <= |x|
    ensures Mismatches(x[from..], y[from..]) == |DisagreementsFrom(x, y, from)|
    decreases |x| - from
  {
    if from < |x| {
      MismatchesFrom(x, y, from + 1);
      var later := DisagreementsFrom(x, y, from + 1);
      assert DisagreementsFrom(x, y, from) == if x[from] != y[from] then later + {from} else later;
      assert x[from..][1..] == x[from + 1..] && y[from..][1..] == y[from + 1..];
    } else {
      assert DisagreementsFrom(x, y, from) == {};
    }
  }

  lemma MismatchesCount(x: string, y: string)
    requires |x| == |y|
    ensures Mismatches(x, y) == |Disagreements(x, y)|
  {
    MismatchesFrom(x, y, 0);
    assert x[0..] == x && y[0..] == y;
  }

  /** How many of the kept positions lie before `i`. */
  ghost function Place(keep: set<nat>, from: nat, i: nat): nat { |set j | j in keep && from <= j < i| }

  /** The kept characters stand in their order: each at the place that its position has among the kept ones. */
  lemma {:induction false} PickedAt(s: string, keep: set<nat>, from: nat, i: nat)
    requires from <= i < |s| && i in keep
    ensures Place(keep, from, i) < |Picked(s, keep, from)|
    ensures Picked(s, keep, from)[Place(keep, from, i)] == s[i]
    decreases |s| - from
  {
    var before := set j | j in keep && from <= j < i;
    if from < i {
      PickedAt(s, keep, from + 1, i);
      var rest := set j | j in keep && from + 1 <= j < i;
      assert before == rest + if from in keep then {from} else {};
    } else {
      assert before == {};
    }
  }

  // ---- The score ----

  /**
    With `m` matches in strings of lengths `x` and `y`, and `t` disagreements: the shares of matches in
    both strings and of the matches that agree count equally, and two disagreements count as one.
   */
  ghost predicate IsScore(score: real, m: nat, t: nat, x: nat, y: nat) {
    var m', t', x', y' := m as real, t as real, x as real, y as real;
    6.0 * m' * x' * y' * score == 2.0 * m' * m' * (x' + y') + (2.0 * m' - t') * x' * y'
  }

  lemma ScoreArithmetic(m: real, t: real, x: real, y: real)
    requires m > 0.0 && x > 0.0 && y > 0.0
    ensures 6.0 * m * x * y * ((m / x + m / y + (m - t / 2.0) / m) / 3.0)
         == 2.0 * m * m * (x + y) + (2.0 * m - t) * x * y
  {
    var p, q, r := m / x, m / y, (m - t / 2.0) / m;
    assert p * x == m && q * y == m && r * m == m - t / 2.0;
    var score := (p + q + r) / 3.0;
    Sixfold(m, x, y, p, q, r, score);
    assert m * y * (p * x) == m * y * m && m * x * (q * y) == m * x * m;
    assert x * y * (r * m) == x * y * (m - t / 2.0);
  }

  lemma Sixfold(m: real, x: real, y: real, p: real, q: real, r: real, score: real)
    requires 3.0 * score == p + q + r
    ensures 6.0 * m * x * y * score == 2.0 * (m * y * (p * x)) + 2.0 * (m * x * (q * y)) + 2.0 * (x * y * (r * m))
  {
    var c := m * x * y;
    assert 6.0 * m * x * y * score == 2.0 * (c * (3.0 * score));
    assert c * (p + q + r) == c * p + c * q + c * r;
    assert c * p == m * y * (p * x) && c * q == m * x * (q * y) && c * r == x * y * (r * m);
  }

  lemma FormulaExactly(m: nat, t: nat, x: nat, y: nat)
    requires m > 0 && x > 0 && y > 0
    ensures IsScore(JaroFormula(m, t, x, y), m, t, x, y)
  {
    ScoreArithmetic(m as real, t as real, x as real, y as real);
  }

  /** The score of distinct strings with matches. */
  lemma ScoreExactly(a: string, b: string)
    requires a != b && |Matching(a, b)| > 0
    ensures var p := Matching(a, b);
      IsScore(Jaro(a, b), |p|, |Disagreements(Picked(a, p.Keys, 0), Picked(b, p.Values, 0))|, |a|, |b|)
  {
    hide Matching, Picked, Mismatches, Disagreements, IsScore, JaroFormula;
    var p := Matching(a, b);
    PickedSizes(a, b);
    var x, y := Picked(a, p.Keys, 0), Picked(b, p.Values, 0);
    MismatchesCount(x, y);
    FormulaExactly(|p|, Mismatches(x, y), |a|, |b|);
  }

  /** The score is zero exactly if no character of one string occurs close by in the other. */
  lemma ScoreZeroExactly(a: string, b: string)
    ensures Jaro(a, b) == 0.0
       <==> a != b && forall i: nat, j: nat :: i < |a| && j < |b| && a[i] == b[j] ==> !Close(a, b, i, j)
  {
    var p := Matching(a, b);
    MatchesAreMost(a, b, map[]);
    hide Matching, Close;
    if |p| > 0 {
      var i :| i in p;
      PickedSizes(a, b);
      MismatchesFacts(Picked(a, p.Keys, 0), Picked(b, p.Values, 0));
      if a != b { JaroFormulaRange(|p|, Mismatches(Picked(a, p.Keys, 0), Picked(b, p.Values, 0)), |a|, |b|); }
    } else if i: nat, j: nat :| i < |a| && j < |b| && a[i] == b[j] && Close(a, b, i, j) {
      MatchesAreMost(a, b, map[i := j]);
    }
  }

  // ---- One slip of the pen ----

  ghost function Swapped(a: string, i: nat): string
    requires i + 1 < |a|
  {
    a[..i] + [a[i + 1], a[i]] + a[i + 2..]
  }

  /** Pairs each of the first `n` positions with itself, but `i` and its successor crosswise. */
  ghost function SwapPairing(n: nat, i: nat): (p: Pairing)
    ensures |p| == n
    ensures forall k: nat :: k in p <==> k < n
    ensures forall k :: k in p ==> p[k] == if k == i then i + 1 else if k == i + 1 then i else k
  {
    if n == 0 then map[]
    else
      var k := n - 1;
      SwapPairing(k, i)[k := if k == i then i + 1 else if k == i + 1 then i else k]
  }

  lemma SwapPairs(a: string, i: nat)
    requires i + 1 < |a| && |a| >= 4
    ensures Pairs(a, Swapped(a, i), SwapPairing(|a|, i)) && |Swapped(a, i)| == |a|
  {
    hide SwapPairing;
  }

  /** Every position is matched, so all characters are kept. */
  lemma AllMatched(a: string, b: string, r: Pairing)
    requires |a| == |b| == |r| && Pairs(a, b, r)
    ensures |Matching(a, b)| == |a|
    ensures Picked(a, Matching(a, b).Keys, 0) == a && Picked(b, Matching(a, b).Values, 0) == b
  {
    hide Matching, Pairs;
    MatchesAreMost(a, b, r);
    PickedSizes(a, b);
    PickedAll(a, Matching(a, b).Keys, 0);
    PickedAll(b, Matching(a, b).Values, 0);
    hide Picked;
    assert a[0..] == a && b[0..] == b;
  }

  lemma AllMatchedScore(a: string, b: string, r: Pairing)
    requires a != b && |a| == |b| == |r| > 0 && Pairs(a, b, r)
    ensures IsScore(Jaro(a, b), |a|, |Disagreements(a, b)|, |a|, |a|)
  {
    hide *;
    AllMatched(a, b, r);
    ScoreExactly(a, b);
  }

  /** Two different neighbours swapped, in a name of four characters or more, cost exactly a third of one match. */
  lemma SwapCosts(a: string, i: nat)
    requires i + 1 < |a| && |a| >= 4 && a[i] != a[i + 1]
    ensures Jaro(a, Swapped(a, i)) == 1.0 - 1.0 / (3.0 * |a| as real)
  {
    hide *;
    SwapPairs(a, i);
    SwapDisagrees(a, i);
    AllMatchedScore(a, Swapped(a, i), SwapPairing(|a|, i));
    SwapScore(|a|, Jaro(a, Swapped(a, i)));
  }

  lemma SwapDisagrees(a: string, i: nat)
    requires i + 1 < |a| && a[i] != a[i + 1]
    ensures |Disagreements(a, Swapped(a, i))| == 2 && a != Swapped(a, i)
  {
    assert a[i] != Swapped(a, i)[i];
    assert Disagreements(a, Swapped(a, i)) == {i, i + 1};
  }

  /** So names that differ by such a swap are always reported as likely duplicates. */
  lemma SwapReported(normalise: string -> string, a: string, b: string, i: nat)
    requires var x := normalise(a);
      i + 1 < |x| && |x| >= 4 && x[i] != x[i + 1] && normalise(b) == Swapped(x, i)
    ensures Winkler(normalise, a, b) >= 0.88
  {
    hide Jaro, Winkler, Swapped;
    var n := |normalise(a)| as real;
    SwapCosts(normalise(a), i);
    WinklerRange(normalise, a, b);
    assert 1.0 / (3.0 * n) * (3.0 * n) == 1.0;
    assert 1.0 / (3.0 * n) <= 0.1;
  }

  lemma SwapScore(n: nat, score: real)
    requires n > 0 && IsScore(score, n, 2, n, n)
    ensures score == 1.0 - 1.0 / (3.0 * n as real)
  {
    var x := n as real;
    var c := 2.0 * x * x;
    assert c * (3.0 * x * score) == c * (3.0 * x - 1.0);
    assert c > 0.0;
    CancelFactor(c, 3.0 * x * score, 3.0 * x - 1.0);
    assert 1.0 / (3.0 * x) * (3.0 * x) == 1.0;
    CancelFactor(3.0 * x, score, 1.0 - 1.0 / (3.0 * x));
  }

  lemma CancelFactor(c: real, x: real, y: real)
    requires c > 0.0 && c * x == c * y
    ensures x == y
  {
    assert c * (x - y) == 0.0;
  }

  /** The boost takes the score a tenth of the way up to 1 for each of the first four characters in common. */
  lemma BoostExactly(normalise: string -> string, a: string, b: string, n: nat)
    requires var x, y := normalise(a), normalise(b);
      && n <= 4 && n <= |x| && n <= |y| && x[..n] == y[..n]
      && (n == 4 || n == |x| || n == |y| || x[n] != y[n])
    ensures var j := Jaro(normalise(a), normalise(b));
      10.0 * (Winkler(normalise, a, b) - j) == n as real * (1.0 - j)
  {
    hide Jaro;
    var x, y := normalise(a), normalise(b);
    assert forall i :: 0 <= i < n ==> x[..n][i] == x[i] && y[..n][i] == y[i];
    CommonPrefixUnique(x, y, 4, n);
  }
}
