/** Splitting a text into lines and joining lines again: s.split("\n") and "\n".join(lines). */
module Lines {

  function Split(s: string): (ls: seq<string>)
    ensures |ls| >= 1
  {
    if s == "" then [""]
    else
      var ls := Split(s[1..]);
      if s[0] == '\n' then [""] + ls else [[s[0]] + ls[0]] + ls[1..]
  }

  function Join(ls: seq<string>, sep: string := "\n"): string {
    if ls == [] then "" else if |ls| == 1 then ls[0] else ls[0] + sep + Join(ls[1..], sep)
  }

  predicate OneLine(s: string) {
    forall i :: 0 <= i < |s| ==> s[i] != '\n'
  }

  /** The lines of several texts, one after the other. */
  function SplitAll(ts: seq<string>): seq<string> {
    if ts == [] then [] else Split(ts[0]) + SplitAll(ts[1..])
  }

  lemma {:induction false} SplitOneLine(s: string)
    requires OneLine(s)
    ensures Split(s) == [s]
  {
    if s != "" {
      SplitOneLine(s[1..]);
      assert [s[0]] + s[1..] == s;
    }
  }

  lemma {:induction false} SplitAround(a: string, b: string)
    ensures Split(a + "\n" + b) == Split(a) + Split(b)
  {
    if a == "" {
      assert (a + "\n" + b)[1..] == b;
    } else {
      assert (a + "\n" + b)[1..] == a[1..] + "\n" + b && (a + "\n" + b)[0] == a[0];
      SplitAround(a[1..], b);
    }
  }

  lemma {:induction false} SplitJoin(ts: seq<string>)
    requires ts != []
    ensures Split(Join(ts)) == SplitAll(ts)
  {
    if |ts| == 1 {
      assert ts[1..] == [] && Split(ts[0]) + [] == Split(ts[0]);
    } else {
      SplitJoin(ts[1..]);
      SplitAround(ts[0], Join(ts[1..]));
    }
  }

  lemma {:induction false} SplitsOneLine(s: string)
    ensures forall i :: 0 <= i < |Split(s)| ==> OneLine(Split(s)[i])
  {
    if s != "" {
      SplitsOneLine(s[1..]);
    }
  }

  lemma {:induction false} JoinSplit(s: string)
    ensures Join(Split(s)) == s
  {
    if s != "" {
      var ls := Split(s[1..]);
      JoinSplit(s[1..]);
      if s[0] == '\n' {
        assert ([""] + ls)[1..] == ls;
        assert s == "" + "\n" + s[1..];
      } else {
        assert ([[s[0]] + ls[0]] + ls[1..])[1..] == ls[1..];
        if |ls| > 1 {
          assert [s[0]] + (ls[0] + "\n" + Join(ls[1..])) == ([s[0]] + ls[0]) + "\n" + Join(ls[1..]);
        }
        assert [s[0]] + s[1..] == s;
      }
    }
  }

  lemma {:induction false} SplitAllAppend(a: seq<string>, b: seq<string>)
    ensures SplitAll(a + b) == SplitAll(a) + SplitAll(b)
  {
    if a == [] {
      assert a + b == b;
    } else {
      assert (a + b)[0] == a[0] && (a + b)[1..] == a[1..] + b;
      SplitAllAppend(a[1..], b);
    }
  }

  lemma {:induction false} SplitAllLines(ls: seq<string>)
    requires forall i :: 0 <= i < |ls| ==> OneLine(ls[i])
    ensures SplitAll(ls) == ls
  {
    if ls != [] {
      SplitOneLine(ls[0]);
      SplitAllLines(ls[1..]);
    }
  }

  /** A character before the first line, and one after the last. */
  function Before(x: char, ls: seq<string>): (r: seq<string>)
    requires ls != []
    ensures r != []
  {
    if x == '\n' then [""] + ls else [[x] + ls[0]] + ls[1..]
  }

  function Behind(ls: seq<string>, c: char): (r: seq<string>)
    requires ls != []
    ensures r != []
  {
    if c == '\n' then ls + [""] else ls[..|ls| - 1] + [ls[|ls| - 1] + [c]]
  }

  lemma {:induction false} BeforeBehind(x: char, ls: seq<string>, c: char)
    requires ls != []
    ensures Behind(Before(x, ls), c) == Before(x, Behind(ls, c))
  {
    var a, b := Behind(Before(x, ls), c), Before(x, Behind(ls, c));
    if |ls| == 1 && x != '\n' && c != '\n' {
      assert [x] + (ls[0] + [c]) == ([x] + ls[0]) + [c];
    }
    assert |a| == |b| && forall i :: 0 <= i < |a| ==> a[i] == b[i];
  }

  /** A last character makes the last line longer, or begins a new one. */
  lemma {:induction false} SplitLast(s: string, c: char)
    ensures Split(s + [c]) == Behind(Split(s), c)
  {
    if s == "" {
      assert s + [c] == [c] && [c][1..] == "";
      assert [c] + "" == "" + [c] == [c];
    } else {
      assert (s + [c])[1..] == s[1..] + [c] && (s + [c])[0] == s[0];
      SplitLast(s[1..], c);
      BeforeBehind(s[0], Split(s[1..]), c);
    }
  }
}
