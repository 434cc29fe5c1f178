/** The ordered set of approved inbounds (database/service.py, ApprovedInboundRepository), under operations
    that run one after another. */
module ApprovedInbounds {
  import opened Prelude

  /** inbound_id to sort_order. */
  type Table = map<int, int>

  // ---------------------------------------------------------------- ORDER BY sort_order, inbound_id

  predicate Before(t: Table, a: int, b: int)
    requires a in t && b in t
  {
    t[a] < t[b] || (t[a] == t[b] && a < b)
  }

  predicate IsFirst(t: Table, m: int) {
    m in t && forall k | k in t && k != m :: Before(t, m, k)
  }

  lemma {:induction false} FirstExists(t: Table)
    requires t != map[]
    ensures exists m :: IsFirst(t, m)
    decreases |t.Keys|
  {
    Inhabited(t.Keys);
    assert t.Keys != {};
    var y :| y in t.Keys;
    var rest := t - {y};
    if rest == map[] {
      assert forall k | k in t :: k == y || k in rest;
      assert IsFirst(t, y);
    } else {
      assert rest.Keys < t.Keys;
      SmallerKeys(t, y);
      FirstExists(rest);
      var m :| IsFirst(rest, m);
      assert forall k | k in t :: k == y || k in rest;
      if Before(t, y, m) { assert IsFirst(t, y); } else { assert IsFirst(t, m); }
    }
  }

  lemma SmallerKeys(t: Table, k: int)
    requires k in t
    ensures |(t - {k}).Keys| == |t.Keys| - 1
  {
    assert (t - {k}).Keys == t.Keys - {k};
  }

  function First(t: Table): (m: int)
    requires t != map[]
    ensures IsFirst(t, m)
  {
    FirstExists(t);
    var m :| m in t.Keys && IsFirst(t, m);
    m
  }

  /** `list_ordered`. */
  function Listing(t: Table): seq<int>
    decreases |t.Keys|
  {
    if t == map[] then [] else
      var m := First(t);
      SmallerKeys(t, m);
      [m] + Listing(t - {m})
  }

  /** The list `q` holds the table's keys, in order. */
  ghost predicate Lists(q: seq<int>, t: Table) {
    && (forall k | k in t :: k in q)
    && (forall i | 0 <= i < |q| :: q[i] in t)
    && forall i, j | 0 <= i < j < |q| :: Before(t, q[i], q[j])
  }

  lemma ConsLists(m: int, q: seq<int>, t: Table)
    requires IsFirst(t, m) && Lists(q, t - {m})
    ensures Lists([m] + q, t)
  {
    var all, rest := [m] + q, t - {m};
    forall k | k in t ensures k in all {
      assert k == m || k in rest;
    }
    forall i, j | 0 <= i < j < |all| ensures all[j] in t && Before(t, all[i], all[j]) {
      assert all[j] == q[j - 1] && q[j - 1] in rest;
      if i > 0 {
        assert Before(rest, q[i - 1], q[j - 1]);
      }
    }
  }

  lemma HeadIsFirst(q: seq<int>, t: Table)
    requires Lists(q, t) && q != []
    ensures IsFirst(t, q[0])
  {
    forall k | k in t && k != q[0] ensures Before(t, q[0], k) {
      var i :| 0 <= i < |q| && q[i] == k;
      assert Before(t, q[0], q[i]);
    }
  }

  lemma {:induction false} ListingLists(t: Table)
    ensures Lists(Listing(t), t)
    decreases |t.Keys|
  {
    if t != map[] {
      var m := First(t);
      SmallerKeys(t, m);
      ListingLists(t - {m});
      ConsLists(m, Listing(t - {m}), t);
    }
  }

  /** There is only one such list. */
  lemma {:induction false} ListingUnique(q: seq<int>, t: Table)
    requires Lists(q, t)
    ensures q == Listing(t)
    decreases |t.Keys|
  {
    if t != map[] {
      var m := First(t);
      assert m in q;
      HeadIsFirst(q, t);
      assert q[0] == m;
      SmallerKeys(t, m);
      TailLists(q, t);
      ListingUnique(q[1..], t - {m});
      assert q == [m] + q[1..];
    }
  }

  lemma TailLists(q: seq<int>, t: Table)
    requires Lists(q, t) && q != []
    ensures Lists(q[1..], t - {q[0]})
  {
    var rest := t - {q[0]};
    forall k | k in rest ensures k in q[1..] {
      assert k in q && q == [q[0]] + q[1..];
    }
    forall i | 0 <= i < |q[1..]| ensures q[1..][i] in rest {
      assert Before(t, q[0], q[i + 1]);
    }
  }

  // ---------------------------------------------------------------- the statements

  datatype Step = Add(id: int) | Remove(id: int) | Seed(ids: seq<int>)

  /** COALESCE(MAX(sort_order), -1). */
  function MaxOrder(t: Table): int {
    if t == map[] then -1 else
      var q := Listing(t);
      ListingLists(t);
      t[q[|q| - 1]]
  }

  lemma MaxOrderIsMax(t: Table)
    ensures forall k | k in t :: t[k] <= MaxOrder(t)
    ensures t != map[] ==> exists k | k in t :: t[k] == MaxOrder(t)
  {
    ListingLists(t);
    var q := Listing(t);
    forall k | k in t ensures t[k] <= MaxOrder(t) {
      var i :| 0 <= i < |q| && q[i] == k;
      assert i < |q| - 1 ==> Before(t, q[i], q[|q| - 1]);
    }
  }

  /** Rows of `unnest(...) WITH ORDINALITY`; a repeated identifier keeps its first row. */
  function SeedRows(ids: seq<int>): Table {
    if ids == [] then map[] else
      var n := |ids| - 1;
      var earlier := SeedRows(ids[..n]);
      if ids[n] in earlier then earlier else earlier[ids[n] := n]
  }

  function Apply(t: Table, s: Step): Table {
    match s
    case Add(id) => if id in t then t else t[id := MaxOrder(t) + 1]
    case Remove(id) => if id in t && |t| > 1 then t - {id} else t
    case Seed(ids) => if |t| > 0 then t else SeedRows(ids)
  }

  // ---------------------------------------------------------------- the ideal: a list without duplicates

  function Without(q: seq<int>, id: int): seq<int> {
    if q == [] then [] else (if q[0] == id then [] else [q[0]]) + Without(q[1..], id)
  }

  function FirstOccurrences(ids: seq<int>): seq<int> {
    if ids == [] then [] else
      var earlier, last := FirstOccurrences(ids[..|ids| - 1]), ids[|ids| - 1];
      if last in earlier then earlier else earlier + [last]
  }

  function OnList(q: seq<int>, s: Step): seq<int> {
    match s
    case Add(id) => if id in q then q else q + [id]
    case Remove(id) => if id in q && |q| > 1 then Without(q, id) else q
    case Seed(ids) => if q != [] then q else FirstOccurrences(ids)
  }

  lemma {:induction false} WithoutLists(q: seq<int>, t: Table, id: int)
    requires Lists(q, t)
    ensures Lists(Without(q, id), t - {id})
  {
    if q != [] {
      var tail := Without(q[1..], id);
      TailLists(q, t);
      WithoutLists(q[1..], t - {q[0]}, id);
      HeadIsFirst(q, t);
      if q[0] == id {
        assert t - {id} - {id} == t - {id};
        assert [] + tail == tail;
      } else {
        assert t - {q[0]} - {id} == t - {id} - {q[0]};
        assert IsFirst(t - {id}, q[0]) by { StillFirst(t, q[0], id); }
        ConsLists(q[0], tail, t - {id});
      }
    } else {
      assert forall k | k in t :: k in q;
    }
  }

  lemma StillFirst(t: Table, m: int, id: int)
    requires IsFirst(t, m) && id != m
    ensures IsFirst(t - {id}, m)
  {
    forall k | k in t - {id} && k != m ensures Before(t - {id}, m, k) {
      assert Before(t, m, k);
    }
  }

  lemma {:induction false} SeedLists(ids: seq<int>)
    ensures Lists(FirstOccurrences(ids), SeedRows(ids))
    ensures forall k | k in SeedRows(ids) :: SeedRows(ids)[k] < |ids|
  {
    if ids != [] {
      var n := |ids| - 1;
      SeedLists(ids[..n]);
      var q, t := FirstOccurrences(ids[..n]), SeedRows(ids[..n]);
      if ids[n] !in t {
        AppendLists(q, t, ids[n], n);
      }
      assert ids[n] in t <==> ids[n] in q;
    }
  }

  lemma AppendLists(q: seq<int>, t: Table, id: int, order: int)
    requires Lists(q, t) && id !in t && forall k | k in t :: t[k] < order
    ensures Lists(q + [id], t[id := order])
  {
    var all, next := q + [id], t[id := order];
    forall i, j | 0 <= i < j < |all| ensures all[i] in next && all[j] in next && Before(next, all[i], all[j]) {
      if j < |q| {
        assert Before(t, q[i], q[j]);
      }
    }
  }

  lemma SameSize(q: seq<int>, t: Table)
    requires Lists(q, t)
    ensures |q| == |t|
    decreases |q|
  {
    if q == [] {
      assert forall k :: k in t ==> k in q;
      assert t.Keys == {};
    } else {
      TailLists(q, t);
      SmallerKeys(t, q[0]);
      SameSize(q[1..], t - {q[0]});
      assert |t| == |t.Keys| && |t - {q[0]}| == |(t - {q[0]}).Keys|;
    }
  }

  /** Every statement does to the table what the ideal operation does to the list. */
  lemma StepRefines(t: Table, s: Step)
    ensures Listing(Apply(t, s)) == OnList(Listing(t), s)
  {
    var q := Listing(t);
    ListingLists(t);
    SameSize(q, t);
    match s
    case Add(id) =>
      if id !in t {
        MaxOrderIsMax(t);
        AppendLists(q, t, id, MaxOrder(t) + 1);
        ListingUnique(q + [id], Apply(t, s));
      }
      assert id in q <==> id in t;
    case Remove(id) =>
      assert id in q <==> id in t;
      WithoutLists(q, t, id);
      ListingUnique(Without(q, id), t - {id});
    case Seed(ids) =>
      SeedLists(ids);
      ListingUnique(FirstOccurrences(ids), SeedRows(ids));
  }

  // ---------------------------------------------------------------- whole runs

  function After(t: Table, h: seq<Step>): Table {
    if h == [] then t else Apply(After(t, h[..|h| - 1]), h[|h| - 1])
  }

  function ListAfter(q: seq<int>, h: seq<Step>): seq<int> {
    if h == [] then q else OnList(ListAfter(q, h[..|h| - 1]), h[|h| - 1])
  }

  lemma {:induction false} RunRefines(t: Table, h: seq<Step>)
    ensures Listing(After(t, h)) == ListAfter(Listing(t), h)
  {
    if h != [] {
      RunRefines(t, h[..|h| - 1]);
      StepRefines(After(t, h[..|h| - 1]), h[|h| - 1]);
    }
  }

  lemma WithoutHead(q: seq<int>, id: int)
    requires q != [] && q[0] != id
    ensures Without(q, id) != [] && Without(q, id)[0] == q[0]
  {
  }

  lemma {:induction false} WithoutSize(q: seq<int>, id: int)
    requires Distinct(q)
    ensures |Without(q, id)| >= |q| - 1
  {
    if q != [] {
      WithoutSize(q[1..], id);
      if q[0] == id {
        WithoutAbsent(q[1..], id);
      }
    }
  }

  lemma {:induction false} WithoutAbsent(q: seq<int>, id: int)
    requires forall i | 0 <= i < |q| :: q[i] != id
    ensures Without(q, id) == q
  {
    if q != [] {
      WithoutAbsent(q[1..], id);
    }
  }

  lemma ListingDistinct(t: Table)
    ensures Distinct(Listing(t))
  {
    ListingLists(t);
    var q := Listing(t);
    forall i, j | 0 <= i < j < |q| ensures q[i] != q[j] {
      assert Before(t, q[i], q[j]);
    }
  }

  /** One statement on a set that is not empty: it stays so, and its first inbound stays the first unless it
      is itself removed. */
  lemma StepKeepsPrimary(t: Table, s: Step)
    requires Listing(t) != []
    ensures Listing(Apply(t, s)) != []
    ensures s != Remove(Listing(t)[0]) ==> Listing(Apply(t, s))[0] == Listing(t)[0]
  {
    var q := Listing(t);
    StepRefines(t, s);
    ListingDistinct(t);
    if s.Remove? {
      WithoutSize(q, s.id);
      if s.id != q[0] {
        WithoutHead(q, s.id);
      }
    }
  }

  /** Once the set has an inbound it always has one, whatever is done to it. */
  lemma {:induction false} NeverEmptyAgain(t: Table, h: seq<Step>)
    requires Listing(t) != []
    ensures Listing(After(t, h)) != []
  {
    if h != [] {
      NeverEmptyAgain(t, h[..|h| - 1]);
      StepKeepsPrimary(After(t, h[..|h| - 1]), h[|h| - 1]);
    }
  }

  /** New keys go to the same primary inbound until that very inbound is removed. */
  lemma {:induction false} PrimaryStays(t: Table, h: seq<Step>)
    requires Listing(t) != [] && Remove(Listing(t)[0]) !in h
    ensures Listing(After(t, h)) != [] && Listing(After(t, h))[0] == Listing(t)[0]
  {
    if h != [] {
      assert h == h[..|h| - 1] + [h[|h| - 1]];
      PrimaryStays(t, h[..|h| - 1]);
      StepKeepsPrimary(After(t, h[..|h| - 1]), h[|h| - 1]);
    }
  }

  // ---------------------------------------------------------------- the repository

  class ApprovedInboundRepository {
    var rows: Table

    constructor ()
      ensures rows == map[]
    {
      rows := map[];
    }

    method ListOrdered() returns (q: seq<int>)
      ensures q == Listing(rows)
    {
      q := Listing(rows);
    }

    /** The stored sort order, and whether the row is new. */
    method Add(id: int) returns (order: int, created: bool)
      modifies this
      ensures rows == Apply(old(rows), Step.Add(id)) && id in rows && order == rows[id]
      ensures created <==> id !in old(rows)
    {
      created := id !in rows;
      if created {
        rows := rows[id := MaxOrder(rows) + 1];
      }
      order := rows[id];
    }

    method RemoveIfNotLast(id: int) returns (removed: bool)
      modifies this
      ensures rows == Apply(old(rows), Remove(id))
      ensures removed <==> id in old(rows) && |old(rows)| > 1
    {
      removed := id in rows && |rows| > 1;
      if removed {
        rows := rows - {id};
      }
    }

    /** The number of inserted rows. */
    method SeedIfEmpty(ids: seq<int>) returns (inserted: nat)
      modifies this
      ensures rows == Apply(old(rows), Seed(ids))
      ensures inserted == if |old(rows)| > 0 then 0 else |FirstOccurrences(ids)|
    {
      SeedLists(ids);
      SameSize(FirstOccurrences(ids), SeedRows(ids));
      if |rows| > 0 || ids == [] {
        return 0;
      }
      var seeded: Table := map[];
      var i := 0;
      while i < |ids|
        invariant 0 <= i <= |ids| && seeded == SeedRows(ids[..i])
      {
        assert ids[..i + 1][..i] == ids[..i];
        if ids[i] !in seeded {
          seeded := seeded[ids[i] := i];
        }
        i := i + 1;
      }
      assert ids[..i] == ids;
      rows := seeded;
      inserted := |seeded|;
    }
  }
}
