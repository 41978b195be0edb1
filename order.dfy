/** The order Python's `sorted` puts strings in: lexicographic by code point, a proper
    prefix first. A finite set of strings read in that order is `SortedSeq`. */
module StringOrder {

  /** `a <= b` on Python strings. */
  predicate LessEq(a: string, b: string)
    decreases |a|
  {
    if a == [] then true
    else if b == [] then false
    else if a[0] != b[0] then a[0] < b[0]
    else LessEq(a[1..], b[1..])
  }

  lemma {:induction false} LessEqReflexive(a: string)
    ensures LessEq(a, a)
    decreases |a|
  {
    if a != [] {
      LessEqReflexive(a[1..]);
    }
  }

  lemma {:induction false} LessEqAntisymmetric(a: string, b: string)
    requires LessEq(a, b) && LessEq(b, a)
    ensures a == b
    decreases |a|
  {
    if a != [] && b != [] {
      LessEqAntisymmetric(a[1..], b[1..]);
      assert a == [a[0]] + a[1..] && b == [b[0]] + b[1..];
    }
  }

  lemma {:induction false} LessEqTransitive(a: string, b: string, c: string)
    requires LessEq(a, b) && LessEq(b, c)
    ensures LessEq(a, c)
    decreases |a|
  {
    if a != [] && b != [] && c != [] && a[0] == b[0] && b[0] == c[0] {
      LessEqTransitive(a[1..], b[1..], c[1..]);
    }
  }

  lemma {:induction false} LessEqTotal(a: string, b: string)
    ensures LessEq(a, b) || LessEq(b, a)
    decreases |a|
  {
    if a != [] && b != [] && a[0] == b[0] {
      LessEqTotal(a[1..], b[1..]);
    }
  }

  /** `m` comes first among the strings of `s`. */
  predicate IsLeast(m: string, s: set<string>) {
    m in s && forall x :: x in s ==> LessEq(m, x)
  }

  /** Every finite non-empty set of strings has a first element. */
  lemma {:induction false} LeastExists(s: set<string>)
    requires s != {}
    ensures exists m :: IsLeast(m, s)
    decreases |s|
  {
    var x :| x in s;
    if s - {x} == {} {
      assert s == {x};
      LessEqReflexive(x);
      assert IsLeast(x, s);
    } else {
      LeastExists(s - {x});
      var m :| IsLeast(m, s - {x});
      LessEqTotal(m, x);
      if LessEq(m, x) {
        assert IsLeast(m, s);
      } else {
        forall y | y in s ensures LessEq(x, y) {
          if y == x {
            LessEqReflexive(x);
          } else {
            LessEqTransitive(x, m, y);
          }
        }
        assert IsLeast(x, s);
      }
    }
  }

  /** ... and only one. */
  lemma LeastUnique(m: string, n: string, s: set<string>)
    requires IsLeast(m, s) && IsLeast(n, s)
    ensures m == n
  {
    LessEqAntisymmetric(m, n);
  }

  ghost function Least(s: set<string>): (m: string)
    requires s != {}
    ensures IsLeast(m, s)
  {
    LeastExists(s);
    var m :| IsLeast(m, s); m
  }

  /** `sorted(s)`. */
  ghost function SortedSeq(s: set<string>): (r: seq<string>)
    decreases |s|
  {
    if s == {} then [] else [Least(s)] + SortedSeq(s - {Least(s)})
  }

  /** Strictly ascending. */
  predicate Ascending(r: seq<string>) {
    forall i, j :: 0 <= i < j < |r| ==> LessEq(r[i], r[j]) && r[i] != r[j]
  }

  /** `sorted(s)` lists every element of `s` exactly once, in ascending order. */
  lemma {:induction false} SortedSeqIsSorted(s: set<string>)
    ensures Ascending(SortedSeq(s))
    ensures forall x :: x in SortedSeq(s) <==> x in s
    ensures |SortedSeq(s)| == |s|
    decreases |s|
  {
    if s != {} {
      var m := Least(s);
      var rest := s - {m};
      SortedSeqIsSorted(rest);
      var r := SortedSeq(s);
      assert r == [m] + SortedSeq(rest);
      forall i, j | 0 <= i < j < |r| ensures LessEq(r[i], r[j]) && r[i] != r[j] {
        if i == 0 {
          assert r[j] in rest;
        }
      }
    }
  }
}
