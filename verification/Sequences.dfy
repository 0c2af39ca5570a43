/** Sequences of ids: each id once, and which of two comes first. */
module Sequences {

  predicate Distinct(s: seq<int>) {
    forall i, j :: 0 <= i < j < |s| ==> s[i] != s[j]
  }

  lemma {:induction false} DistinctCons(d: int, s: seq<int>)
    requires Distinct(s) && d !in s
    ensures Distinct([d] + s)
  {
  }

  /** `a` stands before `b`. */
  predicate Precedes(s: seq<int>, a: int, b: int) {
    exists i, j :: 0 <= i < j < |s| && s[i] == a && s[j] == b
  }

  lemma {:induction false} PrecedesCons(d: int, s: seq<int>, a: int, b: int)
    ensures Precedes([d] + s, a, b) <==> (a == d && b in s) || Precedes(s, a, b)
  {
    var t := [d] + s;
    if a == d && b in s {
      var j :| 0 <= j < |s| && s[j] == b;
      assert t[0] == a && t[j + 1] == b;
    }
    if Precedes(s, a, b) {
      var i, j :| 0 <= i < j < |s| && s[i] == a && s[j] == b;
      assert t[i + 1] == a && t[j + 1] == b;
    }
    if Precedes(t, a, b) {
      var i, j :| 0 <= i < j < |t| && t[i] == a && t[j] == b;
      assert s[j - 1] == b;
      assert i > 0 ==> s[i - 1] == a;
    }
  }

  lemma {:induction false} PrecedesLast(s: seq<int>, d: int, a: int, b: int)
    ensures Precedes(s + [d], a, b) <==> (b == d && a in s) || Precedes(s, a, b)
  {
    var t := s + [d];
    if b == d && a in s {
      var i :| 0 <= i < |s| && s[i] == a;
      assert t[i] == a && t[|s|] == b;
    }
    if Precedes(s, a, b) {
      var i, j :| 0 <= i < j < |s| && s[i] == a && s[j] == b;
      assert t[i] == a && t[j] == b;
    }
    if Precedes(t, a, b) {
      var i, j :| 0 <= i < j < |t| && t[i] == a && t[j] == b;
      assert s[i] == a;
      assert j < |s| ==> s[j] == b;
    }
  }
}
