/** Small notions several of the models share. */
module Collections {

  function Min(a: int, b: int): int { if a <= b then a else b }

  function Max(a: int, b: int): int { if a >= b then a else b }

  ghost predicate Distinct<A>(s: seq<A>) { forall i, j | 0 <= i < j < |s| :: s[i] != s[j] }

  lemma Multiples(k: int, d: nat)
    ensures k >= 1 ==> k * d >= d
    ensures k <= -1 ==> k * d + d <= 0
  {}
}
