/**
 * The arg-max with random tie-break that three of the selection policies share:
 * `np.where(v == np.max(v))[0]` gives the tied indices in increasing order and
 * `np.random.choice(len(ties))` picks one of them.
 *
 * The random source is injected: `draw` is the raw value the generator produced,
 * and `np.random.choice(n)` is modelled as `draw % n`, so every index below `n`
 * is the outcome of some draw. Only membership in the choice set is modelled,
 * not the uniformity of the distribution.
 */
module ArgMax {

  /** `np.max(v)`: the largest element of a non-empty sequence. */
  function MaxOf(v: seq<real>): (m: real)
    requires |v| > 0
    ensures exists i :: 0 <= i < |v| && v[i] == m
    ensures forall i :: 0 <= i < |v| ==> v[i] <= m
    decreases |v|
  {
    if |v| == 1 then v[0]
    else
      var rest := MaxOf(v[..|v| - 1]);
      if v[|v| - 1] > rest then v[|v| - 1] else rest
  }

  predicate StrictlyIncreasing(s: seq<nat>) {
    forall j, k :: 0 <= j < k < |s| ==> s[j] < s[k]
  }

  /** `np.where(v == x)[0]`: the indices holding `x`, in increasing order. */
  function IndicesOf(v: seq<real>, x: real): (r: seq<nat>)
    ensures forall k :: 0 <= k < |r| ==> r[k] < |v| && v[r[k]] == x
    ensures forall i :: 0 <= i < |v| && v[i] == x ==> i in r
    ensures StrictlyIncreasing(r)
    decreases |v|
  {
    if |v| == 0 then []
    else
      var front := IndicesOf(v[..|v| - 1], x);
      if v[|v| - 1] == x then front + [|v| - 1] else front
  }

  /** The indices that attain the maximum of a non-empty sequence. */
  function Ties(v: seq<real>): (r: seq<nat>)
    requires |v| > 0
    ensures |r| > 0
    ensures forall k :: 0 <= k < |r| ==> r[k] < |v| && v[r[k]] == MaxOf(v)
    ensures forall i :: 0 <= i < |v| && v[i] == MaxOf(v) ==> i in r
  {
    var m := MaxOf(v);
    var i :| 0 <= i < |v| && v[i] == m;
    assert i in IndicesOf(v, m);
    IndicesOf(v, m)
  }

  /** `np.random.choice(n)` for the raw random value `draw`. */
  function Draw(n: nat, draw: nat): (k: nat)
    requires n > 0
    ensures k < n
  {
    draw % n
  }

  /** `c[np.random.choice(len(c))]`: a random member of a non-empty sequence. */
  function Choice(c: seq<nat>, draw: nat): (x: nat)
    requires |c| > 0
    ensures x in c
  {
    c[Draw(|c|, draw)]
  }

  /** Every index below `n` is what `np.random.choice(n)` returns for some draw. */
  lemma DrawCovers(n: nat, k: nat)
    requires k < n
    ensures exists draw: nat :: Draw(n, draw) == k
  {
    assert Draw(n, k) == k;
  }

  /** Every member of `c` is what `Choice` returns for some draw. */
  lemma ChoiceCovers(c: seq<nat>, x: nat)
    requires x in c
    ensures exists draw: nat :: Choice(c, draw) == x
  {
    var k :| 0 <= k < |c| && c[k] == x;
    assert Choice(c, k) == x;
  }

  /** The arg-max with random tie-break: the pick is in range and attains the maximum. */
  lemma {:induction false} TieBreakIsArgMax(v: seq<real>, draw: nat)
    requires |v| > 0
    ensures Choice(Ties(v), draw) < |v|
    ensures forall j :: 0 <= j < |v| ==> v[j] <= v[Choice(Ties(v), draw)]
  {
    var t := Ties(v);
    var x := Choice(t, draw);
    var k :| 0 <= k < |t| && t[k] == x;
    assert v[x] == MaxOf(v);
  }

  /** Every index that attains the maximum is the pick for some draw. */
  lemma {:induction false} TieBreakReachesEveryMaximum(v: seq<real>, i: nat)
    requires i < |v| && v[i] == MaxOf(v)
    ensures exists d: nat :: Choice(Ties(v), d) == i
  {
    ChoiceCovers(Ties(v), i);
  }

  /** When exactly one index attains the maximum, the tie-break is deterministic. */
  lemma {:induction false} UniqueMaximumIsChosen(v: seq<real>, i: nat, draw: nat)
    requires i < |v|
    requires forall j :: 0 <= j < |v| && j != i ==> v[j] < v[i]
    ensures Choice(Ties(v), draw) == i
  {
    var x := Choice(Ties(v), draw);
    assert v[x] == MaxOf(v);
    assert v[i] <= MaxOf(v);
  }
}
