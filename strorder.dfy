/**
 * Python's ordering of strings (code point by code point, a proper prefix
 * first) and `sorted()` applied to a set of strings.
 */
module StrOrder {

  predicate Lt(a: string, b: string)
    decreases |a|
  {
    if a == [] then b != []
    else if b == [] then false
    else if a[0] != b[0] then a[0] < b[0]
    else Lt(a[1..], b[1..])
  }

  lemma {:induction false} LtIrreflexive(a: string)
    ensures !Lt(a, a)
    decreases |a|
  {
    if a != [] { LtIrreflexive(a[1..]); }
  }

  lemma {:induction false} LtAsymmetric(a: string, b: string)
    requires Lt(a, b)
    ensures !Lt(b, a)
    decreases |a|
  {
    if a != [] && b != [] && a[0] == b[0] { LtAsymmetric(a[1..], b[1..]); }
  }

  lemma {:induction false} LtTransitive(a: string, b: string, c: string)
    requires Lt(a, b) && Lt(b, c)
    ensures Lt(a, c)
    decreases |a|
  {
    if a != [] && b != [] && c != [] && a[0] == b[0] && b[0] == c[0] {
      LtTransitive(a[1..], b[1..], c[1..]);
    }
  }

  lemma {:induction false} LtTotal(a: string, b: string)
    ensures a == b || Lt(a, b) || Lt(b, a)
    decreases |a|
  {
    if a != [] && b != [] && a[0] == b[0] {
      LtTotal(a[1..], b[1..]);
      if a[1..] == b[1..] {
        assert a == [a[0]] + a[1..] && b == [b[0]] + b[1..];
      }
    }
  }

  predicate IsLeast(m: string, s: set<string>) {
    m in s && forall y | y in s :: m == y || Lt(m, y)
  }

  lemma LeastExists(s: set<string>)
    requires s != {}
    ensures exists m :: IsLeast(m, s)
  {
    var m := Least(s);
  }

  lemma {:induction false} Least(s: set<string>) returns (m: string)
    requires s != {}
    ensures IsLeast(m, s)
    decreases |s|
  {
    var x :| x in s;
    if s == {x} {
      m := x;
    } else {
      var rest := s - {x};
      var r := Least(rest);
      LtTotal(x, r);
      if Lt(x, r) {
        m := x;
        forall y | y in s ensures m == y || Lt(m, y) {
          if y != x && y != r { LtTransitive(x, r, y); }
        }
      } else {
        m := r;
      }
    }
  }

  lemma LeastUnique(s: set<string>, a: string, b: string)
    requires IsLeast(a, s) && IsLeast(b, s)
    ensures a == b
  {
    if a != b { LtAsymmetric(a, b); }
  }

  predicate StrictlySorted(r: seq<string>) {
    forall i, j | 0 <= i < j < |r| :: Lt(r[i], r[j])
  }

  /** `sorted(s)` for a set of strings: its members in ascending order. */
  function Sorted(s: set<string>): (r: seq<string>)
    ensures |r| == |s|
    ensures forall x :: x in r <==> x in s
    ensures StrictlySorted(r)
    decreases |s|
  {
    if s == {} then []
    else
      LeastExists(s);
      assert forall a, b | IsLeast(a, s) && IsLeast(b, s) :: a == b by {
        forall a, b | IsLeast(a, s) && IsLeast(b, s) ensures a == b { LeastUnique(s, a, b); }
      }
      var m :| IsLeast(m, s);
      var rest := Sorted(s - {m});
      assert forall j | 0 <= j < |rest| :: Lt(m, rest[j]) by {
        forall j | 0 <= j < |rest| ensures Lt(m, rest[j]) { assert rest[j] in s - {m}; }
      }
      [m] + rest
  }

  lemma SortedNoDuplicates(s: set<string>, i: int, j: int)
    requires 0 <= i < j < |Sorted(s)|
    ensures Sorted(s)[i] != Sorted(s)[j]
  {
    LtIrreflexive(Sorted(s)[i]);
  }
}
