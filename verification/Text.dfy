/** The string operations of Python that the program uses: find, rfind, strip, split and join. */
module Text {

  /** `pat` stands at index `i` of `s`. */
  predicate OccursAt(s: string, pat: string, i: int) {
    0 <= i && i + |pat| <= |s| && s[i..i + |pat|] == pat
  }

  /** s.find(pat, start) */
  function Find(s: string, pat: string, start: nat): (r: int)
    ensures r == -1 ==> forall i :: start <= i ==> !OccursAt(s, pat, i)
    ensures r != -1 ==> start <= r && OccursAt(s, pat, r) && forall i :: start <= i < r ==> !OccursAt(s, pat, i)
    decreases |s| + 1 - start
  {
    if start > |s| then -1
    else if OccursAt(s, pat, start) then start
    else Find(s, pat, start + 1)
  }

  /** s.rfind(pat, lo, hi): the last occurrence lying wholly inside [lo, hi). */
  function FindLast(s: string, pat: string, lo: nat, hi: nat): (r: int)
    requires hi <= |s|
    ensures r == -1 ==> forall i :: lo <= i && i + |pat| <= hi ==> !OccursAt(s, pat, i)
    ensures r != -1 ==> lo <= r && r + |pat| <= hi && OccursAt(s, pat, r)
    ensures r != -1 ==> forall i :: r < i && i + |pat| <= hi ==> !OccursAt(s, pat, i)
    decreases hi
  {
    if hi < lo + |pat| then -1
    else if OccursAt(s, pat, hi - |pat|) then hi - |pat|
    else if hi == 0 then -1
    else FindLast(s, pat, lo, hi - 1)
  }

  /** An occurrence is an occurrence in every longer text around it, at the shifted place. */
  lemma {:induction false} OccursInside(a: string, s: string, z: string, pat: string, i: nat)
    requires i + |pat| <= |s|
    ensures OccursAt(a + s + z, pat, |a| + i) <==> OccursAt(s, pat, i)
  {
    assert (a + s + z)[|a| + i..|a| + i + |pat|] == s[i..i + |pat|];
  }

  lemma {:induction false} OccursBefore(s: string, z: string, pat: string, i: int)
    ensures i + |pat| <= |s| ==> (OccursAt(s + z, pat, i) <==> OccursAt(s, pat, i))
  {
    if 0 <= i && i + |pat| <= |s| {
      assert (s + z)[i..i + |pat|] == s[i..i + |pat|];
    }
  }

  /** A prefix of `s` before some text, taken apart at `k`. */
  lemma {:induction false} SplitPrefix(s: string, k: nat, p: nat, z: string)
    requires k <= p <= |s|
    ensures s[..p] + z == s[..k] + (s[k..][..p - k] + z)
  {
    assert s[..p] == s[..k] + s[k..][..p - k];
  }

  lemma {:induction false} SplitAt(s: string, k: nat)
    requires k <= |s|
    ensures s[..k] + s[k..] == s
  {
  }

  lemma {:induction false} SuffixBefore(s: string, k: nat, z: string)
    requires k <= |s|
    ensures (s + z)[k..] == s[k..] + z
  {
  }

  lemma {:induction false} SubSlice(s: string, lo: nat, hi: nat, i: nat, j: nat)
    requires lo <= hi <= |s| && i <= j <= hi - lo
    ensures s[lo..hi][i..j] == s[lo + i..lo + j]
  {
    var a, b := s[lo..hi][i..j], s[lo + i..lo + j];
    assert |a| == |b| && forall k :: 0 <= k < |a| ==> a[k] == b[k];
  }

  lemma {:induction false} SplitThree(s: string, p: nat, c: nat, x: string, y: string)
    requires p <= c <= |s| && x + y == s[c..]
    ensures s[..p] + s[p..c] + x + y == s
  {
    assert s[..p] + s[p..c] + x + y == s[..p] + s[p..c] + (x + y);
  }

  lemma {:induction false} Cancel(a: string, b: string, c: string)
    ensures a + b == a + c <==> b == c
  {
    assert (a + b)[|a|..] == b && (a + c)[|a|..] == c;
  }

  lemma {:induction false} ConcatAssoc<T>(a: seq<T>, b: seq<T>, c: seq<T>)
    ensures (a + b) + c == a + (b + c)
  {
  }

  /** The characters str.strip() removes. */
  predicate IsSpace(c: char) {
    var n := c as int;
    || 0x09 <= n <= 0x0d || 0x1c <= n <= 0x20 || n == 0x85 || n == 0xa0 || n == 0x1680
    || 0x2000 <= n <= 0x200a || n == 0x2028 || n == 0x2029 || n == 0x202f || n == 0x205f || n == 0x3000
  }

  predicate AllSpace(s: string) {
    forall i :: 0 <= i < |s| ==> IsSpace(s[i])
  }

  function TrimLeft(s: string): string {
    if s == "" || !IsSpace(s[0]) then s else TrimLeft(s[1..])
  }

  function TrimRight(s: string): string {
    if s == "" || !IsSpace(s[|s| - 1]) then s else TrimRight(s[..|s| - 1])
  }

  /** s.strip() */
  function Trim(s: string): string {
    TrimRight(TrimLeft(s))
  }

  lemma {:induction false} TrimTight(s: string)
    requires s == "" || (!IsSpace(s[0]) && !IsSpace(s[|s| - 1]))
    ensures Trim(s) == s
  {
  }

  /** All the pieces one after the other: "".join(pieces) */
  function Concat(pieces: seq<string>): string {
    if pieces == [] then "" else pieces[0] + Concat(pieces[1..])
  }

  lemma {:induction false} ConcatOne(s: string)
    ensures Concat([s]) == s
  {
    assert Concat([s]) == s + Concat([s][1..]);
  }

  lemma {:induction false} ConcatAppend(a: seq<string>, b: seq<string>)
    ensures Concat(a + b) == Concat(a) + Concat(b)
  {
    if a == [] {
      assert a + b == b;
    } else {
      assert (a + b)[0] == a[0] && (a + b)[1..] == a[1..] + b;
      ConcatAppend(a[1..], b);
    }
  }
}
