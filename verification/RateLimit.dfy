/** The sliding-window rate limiter of the public endpoints (app/rate_limit.py). Times are in seconds
    and come from a clock that never goes back. A limit belongs to an endpoint, a bucket to an endpoint name
    and an address: endpoints that share a name share the bucket. */
module RateLimit {
  import opened Prelude

  const MAX_BUCKETS := 10000

  /** Endpoint name and client address. */
  type Key = (string, string)

  datatype Limit = Limit(times: int, seconds: real)

  /** One request of an endpoint that was declared with `limit`. */
  datatype Req = Req(key: Key, limit: Limit, now: real)

  /** One accepted request. */
  datatype Entry = Entry(key: Key, time: real)

  /** popleft while the first stamp is older than `from`. */
  function Trim(bucket: seq<real>, from: real): (r: seq<real>)
    ensures |r| <= |bucket|
  {
    if bucket != [] && bucket[0] < from then Trim(bucket[1..], from) else bucket
  }

  // ---------------------------------------------------------------- the specification: the full history

  function TimesOf(accepted: seq<Entry>, key: Key): seq<real> {
    if accepted == [] then [] else
      var last := accepted[|accepted| - 1];
      TimesOf(accepted[..|accepted| - 1], key) + (if last.key == key then [last.time] else [])
  }

  /** How many of the stamps are not older than `from`. */
  function CountFrom(ts: seq<real>, from: real): nat {
    if ts == [] then 0 else CountFrom(ts[1..], from) + (if ts[0] >= from then 1 else 0)
  }

  /** How many of the stamps lie in a closed interval. */
  function CountIn(ts: seq<real>, from: real, to: real): nat {
    if ts == [] then 0 else CountIn(ts[1..], from, to) + (if from <= ts[0] <= to then 1 else 0)
  }

  ghost predicate Sorted(ts: seq<real>) {
    forall i, j | 0 <= i < j < |ts| :: ts[i] <= ts[j]
  }

  /** Any `times` + 1 successive stamps span more than the window; a limit of none accepts nothing. */
  ghost predicate Spread(ts: seq<real>, limit: Limit) {
    if limit.times <= 0 then ts == [] else
      forall i, j | 0 <= i && j == i + limit.times && j < |ts| :: ts[i] < ts[j] - limit.seconds
  }

  lemma {:induction false} TrimKeepsRecent(ts: seq<real>, from: real)
    requires Sorted(ts)
    ensures |Trim(ts, from)| == CountFrom(ts, from)
    ensures Trim(ts, from) == ts[|ts| - |Trim(ts, from)|..]
    ensures forall i | 0 <= i < |ts| - |Trim(ts, from)| :: ts[i] < from
    ensures Trim(ts, from) != [] ==> Trim(ts, from)[0] >= from
  {
    if ts != [] && ts[0] < from {
      TrimKeepsRecent(ts[1..], from);
      var n := |ts| - |Trim(ts, from)|;
      assert ts[1..][n - 1..] == ts[n..];
    } else {
      AllRecent(ts, from);
      assert ts[0..] == ts;
    }
  }

  lemma {:induction false} AllRecent(ts: seq<real>, from: real)
    requires Sorted(ts) && (ts != [] ==> ts[0] >= from)
    ensures CountFrom(ts, from) == |ts|
  {
    if ts != [] {
      AllRecent(ts[1..], from);
    }
  }

  /** Stamps that are already out of the window may be forgotten. */
  lemma {:induction false} ForgetOld(ts: seq<real>, dropped: nat, from: real)
    requires Sorted(ts) && dropped <= |ts| && forall i | 0 <= i < dropped :: ts[i] < from
    ensures Trim(ts[dropped..], from) == Trim(ts, from)
    decreases dropped
  {
    if dropped > 0 {
      assert ts[1..][dropped - 1..] == ts[dropped..];
      ForgetOld(ts[1..], dropped - 1, from);
    }
  }

  lemma {:induction false} NoneIn(ts: seq<real>, from: real, to: real)
    requires Sorted(ts) && (ts != [] ==> ts[0] > to)
    ensures CountIn(ts, from, to) == 0
  {
    if ts != [] {
      NoneIn(ts[1..], from, to);
    }
  }

  lemma {:induction false} CountInAtMost(ts: seq<real>, from: real, to: real, n: nat)
    requires Sorted(ts) && (n < |ts| ==> ts[n] > to)
    ensures CountIn(ts, from, to) <= n
  {
    if n == 0 || ts == [] {
      NoneIn(ts, from, to);
    } else {
      CountInAtMost(ts[1..], from, to, n - 1);
    }
  }

  /** No closed window of the configured length ever holds more than `times` accepted requests. */
  lemma {:induction false} WindowHoldsAtMostTimes(ts: seq<real>, limit: Limit, t: real)
    requires Sorted(ts) && Spread(ts, limit) && limit.times >= 1
    ensures CountIn(ts, t, t + limit.seconds) <= limit.times
  {
    if ts != [] {
      if ts[0] >= t {
        CountInAtMost(ts, t, t + limit.seconds, limit.times);
      } else {
        WindowHoldsAtMostTimes(ts[1..], limit, t);
      }
    }
  }

  lemma TimesOfSnoc(accepted: seq<Entry>, key: Key, now: real, k: Key)
    ensures TimesOf(accepted + [Entry(key, now)], k) == TimesOf(accepted, k) + (if k == key then [now] else [])
  {
    assert (accepted + [Entry(key, now)])[..|accepted|] == accepted;
  }

  // ---------------------------------------------------------------- what a request does

  function BucketOf(buckets: map<Key, seq<real>>, key: Key): seq<real> {
    if key in buckets then buckets[key] else []
  }

  /** The dictionary without its empty buckets. */
  function Purged(buckets: map<Key, seq<real>>): map<Key, seq<real>> {
    map k | k in buckets && buckets[k] != [] :: buckets[k]
  }

  /** No purge ever changes a bucket, so none ever changes a decision. */
  lemma PurgeKeepsBuckets(buckets: map<Key, seq<real>>, key: Key)
    ensures BucketOf(Purged(buckets), key) == BucketOf(buckets, key)
  {
  }

  /** The buckets, and every accepted request in order. */
  datatype Limiter = Limiter(buckets: map<Key, seq<real>>, accepted: seq<Entry>)

  /** The bucket of the request after its old stamps were dropped. */
  function Kept(l: Limiter, r: Req): seq<real> {
    Trim(BucketOf(l.buckets, r.key), r.now - r.limit.seconds)
  }

  predicate Accepts(l: Limiter, r: Req) {
    |Kept(l, r)| < r.limit.times
  }

  function Serve(l: Limiter, r: Req): Limiter {
    if Accepts(l, r) then
      var stored := l.buckets[r.key := Kept(l, r) + [r.now]];
      Limiter(if |stored| > MAX_BUCKETS then Purged(stored) else stored, l.accepted + [Entry(r.key, r.now)])
    else
      Limiter(l.buckets[r.key := Kept(l, r)], l.accepted)
  }

  function After(h: seq<Req>): Limiter {
    if h == [] then Limiter(map[], []) else Serve(After(h[..|h| - 1]), h[|h| - 1])
  }

  /** What the limit promises: fewer than `times` accepted requests lie in the window, counted in full. */
  predicate ShouldAccept(l: Limiter, r: Req) {
    CountFrom(TimesOf(l.accepted, r.key), r.now - r.limit.seconds) < r.limit.times
  }

  /** The times of the requests of a key that were accepted when they came. */
  function AcceptedTimes(h: seq<Req>, key: Key): seq<real> {
    if h == [] then [] else
      var r := h[|h| - 1];
      AcceptedTimes(h[..|h| - 1], key) + (if r.key == key && Accepts(After(h[..|h| - 1]), r) then [r.now] else [])
  }

  /** The full history counts every accepted request at its own time, and nothing else. */
  lemma {:induction false} HistoryIsComplete(h: seq<Req>, key: Key)
    ensures TimesOf(After(h).accepted, key) == AcceptedTimes(h, key)
  {
    if h != [] {
      HistoryIsComplete(h[..|h| - 1], key);
      TimesOfSnoc(After(h[..|h| - 1]).accepted, h[|h| - 1].key, h[|h| - 1].now, key);
    }
  }

  ghost predicate Ordered(h: seq<Req>, clock: real) {
    h != [] ==> h[|h| - 1].now <= clock && Ordered(h[..|h| - 1], h[|h| - 1].now)
  }

  /** Every request of the key is by one of these endpoints. */
  ghost predicate UsedBy(h: seq<Req>, key: Key, users: set<Limit>) {
    forall i | 0 <= i < |h| && h[i].key == key :: h[i].limit in users
  }

  /** One request changes the bucket and the stamps of its own key only. */
  lemma ServeOnKey(l: Limiter, r: Req, key: Key)
    ensures BucketOf(Serve(l, r).buckets, key)
         == (if r.key != key then BucketOf(l.buckets, key) else Kept(l, r) + if Accepts(l, r) then [r.now] else [])
    ensures TimesOf(Serve(l, r).accepted, key)
         == TimesOf(l.accepted, key) + if r.key == key && Accepts(l, r) then [r.now] else []
  {
    TimesOfSnoc(l.accepted, r.key, r.now, key);
    PurgeKeepsBuckets(l.buckets[r.key := Kept(l, r) + [r.now]], key);
    assert TimesOf(l.accepted, key) + [] == TimesOf(l.accepted, key);
    assert Kept(l, r) + [] == Kept(l, r);
  }

  lemma UsedByPrefix(h: seq<Req>, key: Key, users: set<Limit>)
    requires h != [] && UsedBy(h, key, users)
    ensures UsedBy(h[..|h| - 1], key, users)
    ensures h[|h| - 1].key == key ==> h[|h| - 1].limit in users
  {
  }

  // ---------------------------------------------------------------- one key: all its stamps, and how many were dropped

  /** Index of the first stamp that is not older than `from`. */
  function FirstFrom(ts: seq<real>, from: real): (n: nat)
    ensures n <= |ts| && (forall i | 0 <= i < n :: ts[i] < from) && (n < |ts| ==> ts[n] >= from)
  {
    if ts == [] || ts[0] >= from then 0 else 1 + FirstFrom(ts[1..], from)
  }

  lemma FirstFromUnique(ts: seq<real>, from: real, n: nat)
    requires n <= |ts| && (forall i | 0 <= i < n :: ts[i] < from) && (n < |ts| ==> ts[n] >= from)
    ensures FirstFrom(ts, from) == n
  {
  }

  lemma CountIsRest(ts: seq<real>, from: real)
    requires Sorted(ts)
    ensures CountFrom(ts, from) == |ts| - FirstFrom(ts, from)
  {
    TrimKeepsRecent(ts, from);
    TrimIsDrop(ts, 0, from);
  }

  function Larger(a: nat, b: nat): nat {
    if a < b then b else a
  }

  lemma TrimIsDrop(ts: seq<real>, dropped: nat, from: real)
    requires Sorted(ts) && dropped <= |ts|
    ensures Trim(ts[dropped..], from) == ts[Larger(dropped, FirstFrom(ts, from))..]
  {
    var first := FirstFrom(ts, from);
    if dropped <= first {
      ForgetOld(ts, dropped, from);
      ForgetOld(ts, first, from);
    }
  }

  /** `stamps` are those of all accepted requests; the bucket holds them from index `dropped` on. */
  datatype Lane = Lane(stamps: seq<real>, dropped: nat)

  function DroppedBy(l: Lane, limit: Limit, now: real): nat {
    Larger(l.dropped, FirstFrom(l.stamps, now - limit.seconds))
  }

  predicate Admits(l: Lane, limit: Limit, now: real) {
    |l.stamps| - DroppedBy(l, limit, now) < limit.times
  }

  function LaneStep(l: Lane, r: Req): Lane {
    Lane(l.stamps + (if Admits(l, r.limit, r.now) then [r.now] else []), DroppedBy(l, r.limit, r.now))
  }

  function LaneOf(h: seq<Req>, key: Key): Lane {
    if h == [] then Lane([], 0)
    else if h[|h| - 1].key != key then LaneOf(h[..|h| - 1], key)
    else LaneStep(LaneOf(h[..|h| - 1], key), h[|h| - 1])
  }

  ghost predicate Sane(l: Lane, clock: real) {
    Sorted(l.stamps) && l.dropped <= |l.stamps| && forall i | 0 <= i < |l.stamps| :: l.stamps[i] <= clock
  }

  lemma {:induction false} LaneSane(h: seq<Req>, key: Key, clock: real)
    requires Ordered(h, clock)
    ensures Sane(LaneOf(h, key), clock)
  {
    if h != [] {
      LaneSane(h[..|h| - 1], key, h[|h| - 1].now);
    }
  }

  lemma DropAppend(ts: seq<real>, d: nat, now: real)
    requires d <= |ts|
    ensures (ts + [now])[d..] == ts[d..] + [now]
  {
  }

  /** Dropping the old stamps of a bucket moves the index of its lane. */
  lemma LaneFollows(bucket: seq<real>, l: Lane, limit: Limit, now: real)
    requires Sorted(l.stamps) && l.dropped <= |l.stamps| && bucket == l.stamps[l.dropped..]
    ensures var kept, d := Trim(bucket, now - limit.seconds), DroppedBy(l, limit, now);
            && d <= |l.stamps| && kept == l.stamps[d..] && kept + [now] == (l.stamps + [now])[d..]
            && Admits(l, limit, now) == (|kept| < limit.times)
  {
    TrimIsDrop(l.stamps, l.dropped, now - limit.seconds);
    DropAppend(l.stamps, DroppedBy(l, limit, now), now);
  }

  ghost predicate Mirrors(l: Lane, s: Limiter, key: Key) {
    && l.dropped <= |l.stamps| && l.stamps == TimesOf(s.accepted, key)
    && BucketOf(s.buckets, key) == l.stamps[l.dropped..]
  }

  lemma OtherMirrors(l: Lane, s: Limiter, r: Req, key: Key)
    requires Mirrors(l, s, key) && r.key != key
    ensures Mirrors(l, Serve(s, r), key)
  {
    ServeOnKey(s, r, key);
    assert l.stamps + [] == l.stamps;
  }

  lemma ServeMirrors(l: Lane, s: Limiter, r: Req)
    requires Mirrors(l, s, r.key) && Sorted(l.stamps)
    ensures Mirrors(LaneStep(l, r), Serve(s, r), r.key)
  {
    LaneFollows(BucketOf(s.buckets, r.key), l, r.limit, r.now);
    ServeOnKey(s, r, r.key);
    var kept, d := Kept(s, r), DroppedBy(l, r.limit, r.now);
    if Accepts(s, r) {
      assert BucketOf(Serve(s, r).buckets, r.key) == kept + [r.now] == (l.stamps + [r.now])[d..];
    } else {
      assert BucketOf(Serve(s, r).buckets, r.key) == kept + [] == kept == l.stamps[d..];
      assert l.stamps + [] == l.stamps;
    }
  }

  lemma {:induction false} LaneIsBucket(h: seq<Req>, key: Key, clock: real)
    requires Ordered(h, clock)
    ensures Mirrors(LaneOf(h, key), After(h), key)
  {
    if h != [] {
      var prefix, r := h[..|h| - 1], h[|h| - 1];
      LaneIsBucket(prefix, key, r.now);
      LaneSane(prefix, key, r.now);
      if r.key == key {
        ServeMirrors(LaneOf(prefix, key), After(prefix), r);
      } else {
        OtherMirrors(LaneOf(prefix, key), After(prefix), r, key);
      }
    }
  }

  /** The two decisions in terms of the lane. */
  lemma DecisionsOfLane(l: Lane, s: Limiter, r: Req)
    requires Mirrors(l, s, r.key) && Sorted(l.stamps)
    ensures Accepts(s, r) == Admits(l, r.limit, r.now)
    ensures ShouldAccept(s, r) == (|l.stamps| - FirstFrom(l.stamps, r.now - r.limit.seconds) < r.limit.times)
  {
    LaneFollows(BucketOf(s.buckets, r.key), l, r.limit, r.now);
    CountIsRest(l.stamps, r.now - r.limit.seconds);
  }

  lemma Decisions(h: seq<Req>, r: Req)
    requires Ordered(h, r.now)
    ensures var l := LaneOf(h, r.key);
            && Sane(l, r.now)
            && Accepts(After(h), r) == Admits(l, r.limit, r.now)
            && ShouldAccept(After(h), r) == (|l.stamps| - FirstFrom(l.stamps, r.now - r.limit.seconds) < r.limit.times)
  {
    LaneSane(h, r.key, r.now);
    LaneIsBucket(h, r.key, r.now);
    DecisionsOfLane(LaneOf(h, r.key), After(h), r);
  }

  // ---------------------------------------------------------------- no user has a shorter window

  /** The stamps that are gone are out of every window of s seconds. */
  ghost predicate Forgot(l: Lane, clock: real, s: real) {
    l.dropped <= |l.stamps| && forall i | 0 <= i < l.dropped :: l.stamps[i] < clock - s
  }

  lemma {:induction false} AlwaysForgot(h: seq<Req>, key: Key, clock: real, users: set<Limit>, s: real)
    requires Ordered(h, clock) && UsedBy(h, key, users) && forall a | a in users :: a.seconds >= s
    ensures Forgot(LaneOf(h, key), clock, s)
  {
    if h != [] {
      UsedByPrefix(h, key, users);
      AlwaysForgot(h[..|h| - 1], key, h[|h| - 1].now, users, s);
    }
  }

  lemma NothingLost(l: Lane, clock: real, s: real)
    requires Forgot(l, clock, s)
    ensures l.dropped <= FirstFrom(l.stamps, clock - s)
  {
  }

  /** A request of a limit whose window no user of its name undercuts is decided as the full history says. */
  lemma NoShorterWindow(h: seq<Req>, r: Req, users: set<Limit>)
    requires Ordered(h, r.now) && UsedBy(h, r.key, users) && forall a | a in users :: a.seconds >= r.limit.seconds
    ensures Accepts(After(h), r) == ShouldAccept(After(h), r)
  {
    AlwaysForgot(h, r.key, r.now, users, r.limit.seconds);
    Decisions(h, r);
    NothingLost(LaneOf(h, r.key), r.now, r.limit.seconds);
  }

  ghost predicate NotUndercut(h: seq<Req>, r: Req) {
    forall i | 0 <= i < |h| && h[i].key == r.key :: h[i].limit.seconds >= r.limit.seconds
  }

  lemma FullHistoryDecides(h: seq<Req>, r: Req)
    ensures Ordered(h, r.now) && NotUndercut(h, r) ==> Accepts(After(h), r) == ShouldAccept(After(h), r)
  {
    if Ordered(h, r.now) && NotUndercut(h, r) {
      NoShorterWindow(h, r, set i | 0 <= i < |h| && h[i].key == r.key :: h[i].limit);
    }
  }

  // ---------------------------------------------------------------- a limit of one request per window

  /** The latest stamp is still there, or it is out of every window of s seconds. */
  ghost predicate HoldsLatest(l: Lane, clock: real, s: real) {
    l.stamps != [] && l.dropped >= |l.stamps| ==> l.stamps[|l.stamps| - 1] < clock - s
  }

  lemma {:induction false} AlwaysHoldsLatest(h: seq<Req>, key: Key, clock: real, users: set<Limit>, s: real)
    requires Ordered(h, clock) && UsedBy(h, key, users) && forall a | a in users :: a.seconds >= s || a.times >= 1
    ensures HoldsLatest(LaneOf(h, key), clock, s)
  {
    if h != [] {
      UsedByPrefix(h, key, users);
      AlwaysHoldsLatest(h[..|h| - 1], key, h[|h| - 1].now, users, s);
      LaneSane(h[..|h| - 1], key, h[|h| - 1].now);
    }
  }

  /** A limit of one request also bears shorter windows, as long as their limits accept something. */
  lemma OneAtATime(h: seq<Req>, r: Req, users: set<Limit>)
    requires Ordered(h, r.now) && UsedBy(h, r.key, users) && r.limit.times == 1
    requires forall a | a in users :: a.seconds >= r.limit.seconds || a.times >= 1
    ensures Accepts(After(h), r) == ShouldAccept(After(h), r)
  {
    var l := LaneOf(h, r.key);
    AlwaysHoldsLatest(h, r.key, r.now, users, r.limit.seconds);
    Decisions(h, r);
    if l.dropped >= |l.stamps| && l.stamps != [] {
      assert l.stamps[|l.stamps| - 1] < r.now - r.limit.seconds;
    }
  }

  // ---------------------------------------------------------------- exactly when a name can be shared

  /** Every request of the limit `b` is decided as the full history says, whatever the endpoints `users` of
      its name did before. */
  ghost predicate NeverMisled(users: set<Limit>, b: Limit, key: Key) {
    forall h: seq<Req>, now: real | UsedBy(h, key, users) && Ordered(h, now) ::
      Accepts(After(h), Req(key, b, now)) == ShouldAccept(After(h), Req(key, b, now))
  }

  predicate SafeToShare(users: set<Limit>, b: Limit) {
    || b.times <= 0 || b.seconds < 0.0
    || forall a | a in users :: a.seconds >= b.seconds || (b.times == 1 && a.times >= 1)
  }

  lemma EmptyWindow(h: seq<Req>, r: Req)
    requires Ordered(h, r.now) && r.limit.seconds < 0.0
    ensures Accepts(After(h), r) == ShouldAccept(After(h), r)
  {
    Decisions(h, r);
    var l := LaneOf(h, r.key);
    FirstFromUnique(l.stamps, r.now - r.limit.seconds, |l.stamps|);
  }

  /** n requests of the limit at time 0. */
  function Burst(key: Key, b: Limit, n: nat): seq<Req> {
    seq(n, _ => Req(key, b, 0.0))
  }

  /** All of them are accepted as long as the limit allows. */
  lemma {:induction false} BurstFills(key: Key, b: Limit, n: nat)
    requires n <= b.times && b.seconds >= 0.0
    ensures LaneOf(Burst(key, b, n), key) == Lane(seq(n, _ => 0.0), 0)
    ensures Ordered(Burst(key, b, n), 0.0) && UsedBy(Burst(key, b, n), key, {b})
  {
    if n > 0 {
      assert Burst(key, b, n)[..n - 1] == Burst(key, b, n - 1);
      BurstFills(key, b, n - 1);
      FirstFromUnique(seq(n - 1, _ => 0.0), 0.0 - b.seconds, 0);
      assert seq(n - 1, _ => 0.0) + [0.0] == seq(n, _ => 0.0);
    }
  }

  lemma LaneSnoc(h: seq<Req>, r: Req)
    ensures LaneOf(h + [r], r.key) == LaneStep(LaneOf(h, r.key), r)
  {
    assert (h + [r])[..|h|] == h;
  }

  /** A burst up to the limit, one request of a shorter window when the long one is about to end, and the
      long limit accepts one too many. */
  lemma ShorterWindowForgets(key: Key, a: Limit, b: Limit)
    requires b.times >= 1 && b.seconds >= 0.0 && a.seconds < b.seconds && (b.times >= 2 || a.times <= 0)
    ensures var h, r := Burst(key, b, b.times) + [Req(key, a, b.seconds)], Req(key, b, b.seconds);
            && UsedBy(h, key, {a, b}) && Ordered(h, b.seconds)
            && Accepts(After(h), r) && !ShouldAccept(After(h), r)
  {
    var burst, last := Burst(key, b, b.times), Req(key, a, b.seconds);
    var zeros := seq(b.times, _ => 0.0);
    var h, r := burst + [last], Req(key, b, b.seconds);
    BurstFills(key, b, b.times);
    assert h[..|burst|] == burst;
    FirstFromUnique(zeros, b.seconds - a.seconds, b.times);
    LaneSnoc(burst, last);
    var l := LaneOf(h, key);
    assert l == Lane(zeros + (if a.times >= 1 then [b.seconds] else []), b.times);
    FirstFromUnique(l.stamps, 0.0, 0);
    Decisions(h, r);
  }

  /** The requests of one endpoint all get the decisions of the full history if and only if no endpoint of its
      name undercuts its window; only a limit of one request bears that, from a limit that accepts something. */
  lemma SharingIff(users: set<Limit>, b: Limit, key: Key)
    requires b in users
    ensures NeverMisled(users, b, key) <==> SafeToShare(users, b)
  {
    if SafeToShare(users, b) {
      forall h: seq<Req>, now: real | UsedBy(h, key, users) && Ordered(h, now)
        ensures Accepts(After(h), Req(key, b, now)) == ShouldAccept(After(h), Req(key, b, now))
      {
        if b.seconds < 0.0 {
          EmptyWindow(h, Req(key, b, now));
        } else if b.times == 1 {
          OneAtATime(h, Req(key, b, now), users);
        } else if b.times >= 2 {
          NoShorterWindow(h, Req(key, b, now), users);
        }
      }
    } else {
      var a :| a in users && !(a.seconds >= b.seconds || (b.times == 1 && a.times >= 1));
      ShorterWindowForgets(key, a, b);
      var h := Burst(key, b, b.times) + [Req(key, a, b.seconds)];
      assert UsedBy(h, key, users);
      assert Accepts(After(h), Req(key, b, b.seconds)) != ShouldAccept(After(h), Req(key, b, b.seconds));
    }
  }

  // ---------------------------------------------------------------- what a window holds

  lemma {:induction false} AlwaysSpread(h: seq<Req>, key: Key, clock: real, users: set<Limit>, limit: Limit)
    requires Ordered(h, clock) && UsedBy(h, key, users)
    requires forall a | a in users :: a.seconds >= limit.seconds && a.times <= limit.times
    ensures Spread(LaneOf(h, key).stamps, limit)
  {
    if h != [] {
      var prefix, r := h[..|h| - 1], h[|h| - 1];
      var l := LaneOf(prefix, key);
      UsedByPrefix(h, key, users);
      AlwaysSpread(prefix, key, r.now, users, limit);
      if r.key == key && Admits(l, r.limit, r.now) {
        LaneSane(prefix, key, r.now);
        AlwaysForgot(h, key, r.now, users, limit.seconds);
        SpreadStep(l.stamps, DroppedBy(l, r.limit, r.now), r.now, limit);
      }
    }
  }

  lemma SpreadStep(ts: seq<real>, dropped: nat, now: real, limit: Limit)
    requires Spread(ts, limit) && dropped <= |ts| && |ts| - dropped < limit.times
    requires forall i | 0 <= i < dropped :: (ts + [now])[i] < now - limit.seconds
    ensures Spread(ts + [now], limit)
  {
    var all := ts + [now];
    forall i, j | 0 <= i && j == i + limit.times && j < |all| ensures all[i] < all[j] - limit.seconds {
      if j == |ts| {
        assert i < dropped;
      }
    }
  }

  /** If every endpoint of a name has at most `times` and at least `seconds`, no closed window of that length
      ever holds more than `times` accepted requests of the name from one address, whatever else came in. */
  lemma NoWindowHoldsMore(h: seq<Req>, key: Key, users: set<Limit>, limit: Limit, clock: real, t: real)
    requires Ordered(h, clock) && UsedBy(h, key, users) && limit.times >= 0
    requires forall a | a in users :: a.seconds >= limit.seconds && a.times <= limit.times
    ensures CountIn(TimesOf(After(h).accepted, key), t, t + limit.seconds) <= limit.times
  {
    AlwaysSpread(h, key, clock, users, limit);
    LaneSane(h, key, clock);
    LaneIsBucket(h, key, clock);
    if limit.times >= 1 {
      WindowHoldsAtMostTimes(LaneOf(h, key).stamps, limit, t);
    }
  }

  // ---------------------------------------------------------------- the limiter

  method PopOld(bucket: seq<real>, windowStart: real) returns (r: seq<real>)
    ensures r == Trim(bucket, windowStart)
  {
    r := bucket;
    while r != [] && r[0] < windowStart
      invariant Trim(r, windowStart) == Trim(bucket, windowStart)
      decreases |r|
    {
      r := r[1..];
    }
  }

  class RateLimiter {
    var buckets: map<Key, seq<real>>
    /** Every request so far. */
    ghost var history: seq<Req>

    ghost predicate Valid()
      reads this
    {
      buckets == After(history).buckets
    }

    constructor ()
      ensures Valid() && history == []
    {
      buckets := map[];
      history := [];
    }

    /** False stands for the 429 response. When no endpoint has used the name with a shorter window, the
        decision is that of the full history. */
    method Request(key: Key, limit: Limit, now: real) returns (ok: bool)
      requires Valid()
      modifies this
      ensures Valid() && history == old(history) + [Req(key, limit, now)]
      ensures ok == Accepts(After(old(history)), Req(key, limit, now))
      ensures Ordered(old(history), now) && NotUndercut(old(history), Req(key, limit, now)) ==>
                ok == ShouldAccept(After(old(history)), Req(key, limit, now))
    {
      ghost var r := Req(key, limit, now);
      FullHistoryDecides(history, r);
      assert (history + [r])[..|history|] == history;
      history := history + [r];
      ok, buckets := ServeBuckets(buckets, key, limit, now);
    }
  }

  method ServeBuckets(buckets: map<Key, seq<real>>, key: Key, limit: Limit, now: real)
    returns (ok: bool, r: map<Key, seq<real>>)
    ensures forall accepted :: ok == Accepts(Limiter(buckets, accepted), Req(key, limit, now))
                            && r == Serve(Limiter(buckets, accepted), Req(key, limit, now)).buckets
  {
    var bucket := PopOld(BucketOf(buckets, key), now - limit.seconds);
    ok := |bucket| < limit.times;
    if !ok {
      return ok, buckets[key := bucket];
    }
    r := buckets[key := bucket + [now]];
    if |r| > MAX_BUCKETS {
      r := Purged(r);
    }
  }
}
