/** Helpers that several modules share: optional values and ascending enumerations of integer sets. */
module Prelude {

  datatype Option<+T> = None | Some(value: T)

  ghost predicate Distinct<T>(s: seq<T>) {
    forall i, j | 0 <= i < j < |s| :: s[i] != s[j]
  }

  ghost predicate Ascending(s: seq<int>) {
    forall i, j | 0 <= i < j < |s| :: s[i] < s[j]
  }

  function Elements<T>(s: seq<T>): set<T> {
    set x | x in s
  }

  lemma Inhabited(s: set<int>)
    ensures s == {} || exists x :: x in s
  {
    if forall x :: x !in s {
      assert s == {};
    }
  }

  predicate IsLeast(m: int, s: set<int>) {
    m in s && forall x | x in s :: m <= x
  }

  lemma {:induction false} LeastExists(s: set<int>)
    requires s != {}
    ensures exists m :: IsLeast(m, s)
  {
    Inhabited(s);
    var y :| y in s;
    if s == {y} {
      assert IsLeast(y, s);
    } else {
      LeastExists(s - {y});
      var m :| IsLeast(m, s - {y});
      assert forall x | x in s :: x == y || x in s - {y};
      if y < m { assert IsLeast(y, s); } else { assert IsLeast(m, s); }
    }
  }

  function Least(s: set<int>): (m: int)
    requires s != {}
    ensures IsLeast(m, s)
  {
    LeastExists(s);
    var m :| m in s && IsLeast(m, s);
    m
  }

  /** The elements of `s` in ascending order: the SQL `ORDER BY` over a set of keys. */
  function InOrder(s: set<int>): (q: seq<int>)
    ensures |q| == |s|
  {
    if s == {} then [] else [Least(s)] + InOrder(s - {Least(s)})
  }

  lemma {:induction false} InOrderSorts(s: set<int>)
    ensures Ascending(InOrder(s))
    ensures forall k :: k in InOrder(s) <==> k in s
  {
    if s != {} {
      var m := Least(s);
      var rest := InOrder(s - {m});
      InOrderSorts(s - {m});
      forall j | 0 <= j < |rest| ensures m < rest[j] {
        assert rest[j] in rest;
      }
      ConsAscends(m, rest);
    }
  }

  lemma ConsAscends(m: int, rest: seq<int>)
    requires Ascending(rest) && forall j | 0 <= j < |rest| :: m < rest[j]
    ensures Ascending([m] + rest)
    ensures forall k :: k in [m] + rest <==> k == m || k in rest
  {
  }

  lemma {:induction false} InOrderElements(s: set<int>)
    ensures Elements(InOrder(s)) == s
  {
    if s == {} {
      assert InOrder(s) == [];
    } else {
      var m := Least(s);
      InOrderElements(s - {m});
      ElementsOfCons(m, InOrder(s - {m}));
    }
  }

  /** Taking the first `k` elements out of a set leaves the rest of its enumeration. */
  lemma {:induction false} InOrderDrop(s: set<int>, k: nat)
    requires k <= |s|
    ensures InOrder(s - Elements(InOrder(s)[..k])) == InOrder(s)[k..]
    decreases k
  {
    var q := InOrder(s);
    if k == 0 {
      assert Elements(q[..0]) == {};
      assert s - {} == s && q[0..] == q;
    } else {
      var m := Least(s);
      var rest := InOrder(s - {m});
      InOrderDrop(s - {m}, k - 1);
      assert q[..k] == [m] + rest[..k - 1] && q[k..] == rest[k - 1..];
      ElementsOfCons(m, rest[..k - 1]);
      assert s - Elements(q[..k]) == (s - {m}) - Elements(rest[..k - 1]);
    }
  }

  lemma ElementsOfCons(m: int, rest: seq<int>)
    ensures Elements([m] + rest) == {m} + Elements(rest)
  {
  }
}
