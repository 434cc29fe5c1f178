/** The in-memory cache with expiry times (services/cache/storage.py). Times are in seconds and come from
    a clock that never goes back; every method runs without a suspension, so each is one step. */
module TimedCache {
  import opened Prelude

  datatype Item<V> = Item(value: V, expiresAt: Option<real>)

  type Storage<V> = map<string, map<string, Item<V>>>

  datatype Op<V> =
    | Set(ns: string, key: string, value: V, ttl: Option<real>, now: real)
    | Get(ns: string, key: string, now: real)
    | Delete(ns: string, key: string, now: real)
    | Clear(ns: string, now: real)
    | Sweep(now: real)

  predicate Expired<V>(item: Item<V>, now: real) {
    item.expiresAt.Some? && item.expiresAt.value <= now
  }

  /** No ttl and a ttl of zero both mean that the item never expires. */
  function Stored<V>(value: V, ttl: Option<real>, now: real): Item<V> {
    Item(value, if ttl.Some? && ttl.value != 0.0 then Some(now + ttl.value) else None)
  }

  function ItemAt<V>(s: Storage<V>, ns: string, key: string): Option<Item<V>> {
    if ns in s && key in s[ns] then Some(s[ns][key]) else None
  }

  // ---------------------------------------------------------------- what each method does to the dictionaries

  function Fresh<V>(items: map<string, Item<V>>, now: real): map<string, Item<V>> {
    map k | k in items && !Expired(items[k], now) :: items[k]
  }

  function Inserted<V>(s: Storage<V>, ns: string, key: string, item: Item<V>): Storage<V> {
    s[ns := (if ns in s then s[ns] else map[])[key := item]]
  }

  function Without<V>(s: Storage<V>, ns: string, key: string): Storage<V> {
    if ns in s then s[ns := s[ns] - {key}] else s
  }

  function Swept<V>(s: Storage<V>, now: real): Storage<V> {
    map ns | ns in s :: Fresh(s[ns], now)
  }

  function Apply<V>(s: Storage<V>, op: Op<V>): Storage<V> {
    match op
    case Set(ns, key, value, ttl, now) => Inserted(s, ns, key, Stored(value, ttl, now))
    case Get(ns, key, now) =>
      var item := ItemAt(s, ns, key);
      if item.Some? && Expired(item.value, now) then Without(s, ns, key) else s
    case Delete(ns, key, _) => Without(s, ns, key)
    case Clear(ns, _) => s - {ns}
    case Sweep(now) => Swept(s, now)
  }

  function After<V>(h: seq<Op<V>>): Storage<V> {
    if h == [] then map[] else Apply(After(h[..|h| - 1]), h[|h| - 1])
  }

  /** What `get` returns. */
  function Got<V>(s: Storage<V>, ns: string, key: string, now: real): Option<V> {
    var item := ItemAt(s, ns, key);
    if item.Some? && !Expired(item.value, now) then Some(item.value.value) else None
  }

  // ---------------------------------------------------------------- the ideal: a map whose entries time out

  /** The last item set under the key and neither deleted nor cleared since. */
  function LastSet<V>(h: seq<Op<V>>, ns: string, key: string): Option<Item<V>> {
    if h == [] then None else
      var op := h[|h| - 1];
      if op.Set? && op.ns == ns && op.key == key then Some(Stored(op.value, op.ttl, op.now))
      else if op.Delete? && op.ns == ns && op.key == key then None
      else if op.Clear? && op.ns == ns then None
      else LastSet(h[..|h| - 1], ns, key)
  }

  function Ideal<V>(h: seq<Op<V>>, ns: string, key: string, now: real): Option<V> {
    var item := LastSet(h, ns, key);
    if item.Some? && !Expired(item.value, now) then Some(item.value.value) else None
  }

  ghost predicate ClockNeverGoesBack<V>(h: seq<Op<V>>, now: real) {
    && (forall i | 0 <= i < |h| :: h[i].now <= now)
    && forall i, j | 0 <= i < j < |h| :: h[i].now <= h[j].now
  }

  /** The cache may have lost an item only if it has expired. */
  ghost predicate Agrees<V>(stored: Option<Item<V>>, ideal: Option<Item<V>>, now: real) {
    stored == ideal || (stored.None? && Expired(ideal.value, now))
  }

  lemma {:induction false} StorageAgrees<V>(h: seq<Op<V>>, ns: string, key: string, now: real)
    requires ClockNeverGoesBack(h, now)
    ensures Agrees(ItemAt(After(h), ns, key), LastSet(h, ns, key), now)
  {
    if h != [] {
      var prefix, op := h[..|h| - 1], h[|h| - 1];
      StorageAgrees(prefix, ns, key, op.now);
      StepAgrees(After(prefix), op, ns, key, LastSet(prefix, ns, key), LastSet(h, ns, key));
    }
  }

  lemma StepAgrees<V>(s: Storage<V>, op: Op<V>, ns: string, key: string, ideal: Option<Item<V>>, next: Option<Item<V>>)
    requires Agrees(ItemAt(s, ns, key), ideal, op.now)
    requires next == if op.Set? && op.ns == ns && op.key == key then Some(Stored(op.value, op.ttl, op.now))
                     else if (op.Delete? && op.ns == ns && op.key == key) || (op.Clear? && op.ns == ns) then None
                     else ideal
    ensures Agrees(ItemAt(Apply(s, op), ns, key), next, op.now)
  {
  }

  /** `get` returns the last value set and not deleted or cleared since, as long as it has not expired:
      expired entries dropped by earlier reads and sweeps never show. */
  lemma GetIsIdeal<V>(h: seq<Op<V>>, ns: string, key: string, now: real)
    requires ClockNeverGoesBack(h, now)
    ensures Got(After(h), ns, key, now) == Ideal(h, ns, key, now)
  {
    StorageAgrees(h, ns, key, now);
  }

  /** No call of `later` sets or removes the key. */
  ghost predicate Untouched<V>(later: seq<Op<V>>, ns: string, key: string) {
    forall i | 0 <= i < |later| ::
      && !((later[i].Set? || later[i].Delete?) && later[i].ns == ns && later[i].key == key)
      && !(later[i].Clear? && later[i].ns == ns)
  }

  lemma {:induction false} LastSetStays<V>(h: seq<Op<V>>, later: seq<Op<V>>, ns: string, key: string)
    requires Untouched(later, ns, key)
    ensures LastSet(h + later, ns, key) == LastSet(h, ns, key)
  {
    if later == [] {
      assert h + later == h;
    } else {
      LastSetStays(h, later[..|later| - 1], ns, key);
      assert (h + later)[..|h + later| - 1] == h + later[..|later| - 1];
    }
  }

  /** A value set at time t is returned until its key is set or removed again: forever without a ttl or with one
      of zero, otherwise exactly before t plus its ttl. A removed key returns nothing. */
  lemma HeldUntilExpiry<V>(h: seq<Op<V>>, op: Op<V>, later: seq<Op<V>>, ns: string, key: string, now: real)
    requires ClockNeverGoesBack(h + [op] + later, now) && Untouched(later, ns, key)
    ensures op.Set? && op.ns == ns && op.key == key ==>
              Got(After(h + [op] + later), ns, key, now)
              == if op.ttl.None? || op.ttl.value == 0.0 || now < op.now + op.ttl.value then Some(op.value) else None
    ensures (op.Delete? && op.ns == ns && op.key == key) || (op.Clear? && op.ns == ns) ==>
              Got(After(h + [op] + later), ns, key, now) == None
  {
    GetIsIdeal(h + [op] + later, ns, key, now);
    LastSetStays(h + [op], later, ns, key);
    assert (h + [op])[..|h|] == h;
  }

  /** A key that was never set returns nothing. */
  lemma NothingUnlessSet<V>(h: seq<Op<V>>, ns: string, key: string, now: real)
    requires ClockNeverGoesBack(h, now)
    requires forall i | 0 <= i < |h| && h[i].Set? :: h[i].ns != ns || h[i].key != key
    ensures Got(After(h), ns, key, now) == None
  {
    GetIsIdeal(h, ns, key, now);
    NeverSet(h, ns, key);
  }

  lemma {:induction false} NeverSet<V>(h: seq<Op<V>>, ns: string, key: string)
    requires forall i | 0 <= i < |h| && h[i].Set? :: h[i].ns != ns || h[i].key != key
    ensures LastSet(h, ns, key) == None
  {
    if h != [] {
      NeverSet(h[..|h| - 1], ns, key);
    }
  }

  /** The same calls without the sweeps of the cleanup loop. */
  function WithoutSweeps<V>(h: seq<Op<V>>): seq<Op<V>> {
    if h == [] then [] else
      WithoutSweeps(h[..|h| - 1]) + (if h[|h| - 1].Sweep? then [] else [h[|h| - 1]])
  }

  lemma {:induction false} IdealIgnoresSweeps<V>(h: seq<Op<V>>, ns: string, key: string)
    ensures LastSet(WithoutSweeps(h), ns, key) == LastSet(h, ns, key)
  {
    if h != [] {
      IdealIgnoresSweeps(h[..|h| - 1], ns, key);
      var rest := WithoutSweeps(h[..|h| - 1]);
      assert rest + [] == rest;
      assert (rest + [h[|h| - 1]])[..|rest|] == rest;
    }
  }

  lemma {:induction false} StillInOrder<V>(h: seq<Op<V>>, now: real)
    requires ClockNeverGoesBack(h, now)
    ensures ClockNeverGoesBack(WithoutSweeps(h), now)
  {
    if h != [] {
      StillInOrder(h[..|h| - 1], h[|h| - 1].now);
    }
  }

  /** However often and whenever the cleanup loop runs, every later `get` returns what it would have
      returned had the loop never run. */
  lemma SweepsNeverShow<V>(h: seq<Op<V>>, ns: string, key: string, now: real)
    requires ClockNeverGoesBack(h, now)
    ensures Got(After(h), ns, key, now) == Got(After(WithoutSweeps(h)), ns, key, now)
  {
    GetIsIdeal(h, ns, key, now);
    StillInOrder(h, now);
    GetIsIdeal(WithoutSweeps(h), ns, key, now);
    IdealIgnoresSweeps(h, ns, key);
  }

  // ---------------------------------------------------------------- listing is not protected

  function KeysOf<V>(s: Storage<V>, ns: string): set<string> {
    if ns in s then s[ns].Keys else {}
  }

  /** `keys` and `all_values` do not look at the expiry times: a sweep shows in what they list if and only
      if the namespace holds an expired entry. */
  lemma SweepShowsInKeys<V>(s: Storage<V>, ns: string, now: real)
    ensures KeysOf(Swept(s, now), ns) != KeysOf(s, ns)
            <==> exists key :: ItemAt(s, ns, key).Some? && Expired(ItemAt(s, ns, key).value, now)
  {
    if KeysOf(Swept(s, now), ns) != KeysOf(s, ns) {
      MissingKey(KeysOf(s, ns), KeysOf(Swept(s, now), ns));
      var key :| key in KeysOf(s, ns) && key !in KeysOf(Swept(s, now), ns);
      assert ItemAt(s, ns, key).Some? && Expired(ItemAt(s, ns, key).value, now);
    }
    forall key | ItemAt(s, ns, key).Some? && Expired(ItemAt(s, ns, key).value, now)
      ensures KeysOf(Swept(s, now), ns) != KeysOf(s, ns)
    {
      assert key in KeysOf(s, ns) && key !in KeysOf(Swept(s, now), ns);
    }
  }

  lemma MissingKey(all: set<string>, some: set<string>)
    requires some <= all && some != all
    ensures exists key :: key in all && key !in some
  {
    assert !(all <= some);
  }

  /** What is listed lies between the live keys and all keys ever set and not removed. */
  lemma KeysBetween<V>(h: seq<Op<V>>, ns: string, key: string, now: real)
    requires ClockNeverGoesBack(h, now)
    ensures Ideal(h, ns, key, now).Some? ==> key in KeysOf(After(h), ns)
    ensures key in KeysOf(After(h), ns) ==> LastSet(h, ns, key).Some?
  {
    StorageAgrees(h, ns, key, now);
  }

  // ---------------------------------------------------------------- the class

  lemma SomeName(s: set<string>)
    ensures s == {} || exists x :: x in s
  {
    if forall x :: x !in s {
      assert s == {};
    }
  }

  function SweptIn<V>(s: Storage<V>, done: set<string>, now: real): Storage<V> {
    map ns | ns in s :: if ns in done then Fresh(s[ns], now) else s[ns]
  }

  lemma SweepOne<V>(s: Storage<V>, done: set<string>, ns: string, now: real)
    requires ns in s
    ensures SweptIn(s, done, now)[ns := Fresh(s[ns], now)] == SweptIn(s, done + {ns}, now)
  {
  }

  lemma SweepEnds<V>(s: Storage<V>, now: real)
    ensures SweptIn(s, {}, now) == s && SweptIn(s, s.Keys, now) == Swept(s, now)
  {
  }

  class CacheStorage<V> {
    var storage: Storage<V>
    /** Every call so far, and the time of the last one. */
    ghost var history: seq<Op<V>>
    ghost var clock: real

    ghost predicate Valid()
      reads this
    {
      storage == After(history) && ClockNeverGoesBack(history, clock)
    }

    constructor (ghost now: real)
      ensures Valid() && history == [] && clock == now
    {
      storage := map[];
      history, clock := [], now;
    }

    ghost method Record(op: Op<V>)
      requires ClockNeverGoesBack(history, clock) && clock <= op.now && storage == Apply(After(history), op)
      modifies this`history, this`clock
      ensures Valid() && history == old(history) + [op] && clock == op.now
    {
      assert (history + [op])[..|history|] == history;
      history, clock := history + [op], op.now;
    }

    method Set(ns: string, key: string, value: V, ttl: Option<real>, now: real)
      requires Valid() && clock <= now
      modifies this
      ensures Valid() && history == old(history) + [Op.Set(ns, key, value, ttl, now)] && clock == now
    {
      if ns !in storage {
        storage := storage[ns := map[]];
      }
      var expiresAt := if ttl.Some? && ttl.value != 0.0 then Some(now + ttl.value) else None;
      storage := storage[ns := storage[ns][key := Item(value, expiresAt)]];
      assert storage == Apply(After(history), Op.Set(ns, key, value, ttl, now));
      Record(Op.Set(ns, key, value, ttl, now));
    }

    method Get(ns: string, key: string, now: real) returns (r: Option<V>)
      requires Valid() && clock <= now
      modifies this
      ensures Valid() && history == old(history) + [Op.Get(ns, key, now)] && clock == now
      ensures r == Ideal(old(history), ns, key, now)
    {
      GetIsIdeal(history, ns, key, now);
      r := None;
      if ns in storage && key in storage[ns] {
        var item := storage[ns][key];
        if Expired(item, now) {
          Drop(ns, key);
        } else {
          r := Some(item.value);
        }
      }
      Record(Op.Get(ns, key, now));
    }

    method Drop(ns: string, key: string)
      modifies this`storage
      ensures storage == Without(old(storage), ns, key)
    {
      if ns in storage && key in storage[ns] {
        storage := storage[ns := storage[ns] - {key}];
      } else if ns in storage {
        assert storage[ns] - {key} == storage[ns];
        assert storage[ns := storage[ns]] == storage;
      }
    }

    method Delete(ns: string, key: string, ghost now: real)
      requires Valid() && clock <= now
      modifies this
      ensures Valid() && history == old(history) + [Op.Delete(ns, key, now)] && clock == now
    {
      Drop(ns, key);
      Record(Op.Delete(ns, key, now));
    }

    method Clear(ns: string, ghost now: real)
      requires Valid() && clock <= now
      modifies this
      ensures Valid() && history == old(history) + [Op.Clear(ns, now)] && clock == now
    {
      storage := storage - {ns};
      Record(Op.Clear(ns, now));
    }

    method Keys(ns: string) returns (keys: set<string>)
      ensures keys == KeysOf(storage, ns)
    {
      keys := if ns in storage then storage[ns].Keys else {};
    }

    /** One round of the cleanup loop. */
    method RemoveExpired(now: real)
      requires Valid() && clock <= now
      modifies this
      ensures Valid() && history == old(history) + [Op.Sweep(now)] && clock == now
    {
      storage := SweepAll(storage, now);
      Record(Op.Sweep(now));
    }
  }

  method SweepAll<V>(s: Storage<V>, now: real) returns (r: Storage<V>)
    ensures r == Swept(s, now)
  {
    r := s;
    var todo := s.Keys;
    SweepEnds(s, now);
    while todo != {}
      invariant todo <= s.Keys && r == SweptIn(s, s.Keys - todo, now)
      decreases |todo|
    {
      SomeName(todo);
      var ns :| ns in todo;
      SweepOne(s, s.Keys - todo, ns, now);
      assert s.Keys - (todo - {ns}) == s.Keys - todo + {ns};
      var items := RemoveKeys(r[ns], now);
      r := r[ns := items];
      todo := todo - {ns};
    }
    assert s.Keys - {} == s.Keys;
  }

  method RemoveKeys<V>(items: map<string, Item<V>>, now: real) returns (r: map<string, Item<V>>)
    ensures r == Fresh(items, now)
  {
    var expired := set k | k in items && Expired(items[k], now);
    r := items;
    while expired != {}
      invariant r.Keys <= items.Keys && forall k | k in r :: r[k] == items[k]
      invariant forall k | k in items && Expired(items[k], now) :: k in r <==> k in expired
      invariant forall k | k in items && !Expired(items[k], now) :: k in r && k !in expired
      decreases |expired|
    {
      SomeName(expired);
      var k :| k in expired;
      r := r - {k};
      expired := expired - {k};
    }
    assert r.Keys == Fresh(items, now).Keys;
  }
}
