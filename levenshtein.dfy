/** The edit distance that `fast-levenshtein`'s `get` computes: the least number
    of single-character insertions, deletions and substitutions turning one
    string into the other. */
module Levenshtein {

  function Min3(a: nat, b: nat, c: nat): (m: nat)
    ensures m <= a && m <= b && m <= c
    ensures m == a || m == b || m == c
  {
    if a <= b && a <= c then a else if b <= c then b else c
  }

  function Distance(a: string, b: string): (d: nat)
    ensures d <= (if |a| >= |b| then |a| else |b|)
    ensures d >= |a| - |b| && d >= |b| - |a|
    decreases |a| + |b|
  {
    if a == [] then |b|
    else if b == [] then |a|
    else
      var substitute := Distance(a[1..], b[1..]) + (if a[0] == b[0] then 0 else 1);
      Min3(Distance(a[1..], b) + 1, Distance(a, b[1..]) + 1, substitute)
  }

  /** The distance is zero exactly between equal strings. */
  lemma {:induction false} DistanceZeroIffEqual(a: string, b: string)
    ensures Distance(a, b) == 0 <==> a == b
    decreases |a| + |b|
  {
    if a != [] && b != [] {
      DistanceZeroIffEqual(a[1..], b[1..]);
      if a == b {
        assert a[1..] == b[1..];
      }
    }
  }
}
