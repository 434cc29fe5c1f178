/** What clients are shown of a payment (api/v1/payments.py, get_payment_status). The endpoint answers from the
    copy of the row that its process caches; the stored row is changed by any process. The code between two
    awaits is one step, so polls may overlap. Times are in seconds. */
module PaymentStatus {
  import opened Prelude
  import opened PaymentClaims

  const CHECK_INTERVAL := 30.0

  predicate Final(s: Status) {
    s == Succeeded || s == Canceled
  }

  /** The stored row, the cached copy of its status, the last time YooKassa was asked, and how many polls wait
      for its reply or for the row. */
  datatype View = View(row: Payment, copy: Option<Status>, checkedAt: Option<real>, asking: nat, reading: nat)

  const START := View(NEW_PAYMENT, None, None, 0, 0)

  /** `Statement` is a statement of any process on the row, `CacheWrite` a copy that this process caches. A poll
      is `Begin`, then possibly `Asked` with whether YooKassa says canceled, then possibly `ReadRow`. */
  datatype Event =
    | Statement(s: Step)
    | CacheWrite(status: Status)
    | CacheDrop
    | Begin(now: real)
    | Asked(canceled: bool)
    | ReadRow

  predicate Due(checkedAt: Option<real>, now: real) {
    checkedAt.None? || now - checkedAt.value >= CHECK_INTERVAL
  }

  /** The poll goes on to ask YooKassa. */
  predicate Asks(v: View, now: real) {
    v.copy == Some(Pending) && Due(v.checkedAt, now)
  }

  /** `writeBack` is whether a row read from the database is also cached; in the code it is not. */
  function Next(writeBack: bool, v: View, e: Event): View {
    match e
    case Statement(s) => v.(row := Apply(v.row, s))
    case CacheWrite(status) => v.(copy := Some(status))
    case CacheDrop => v.(copy := None)
    case Begin(now) => if Asks(v, now) then v.(checkedAt := Some(now), asking := v.asking + 1) else v
    case Asked(canceled) =>
      if v.asking == 0 then v
      else if !canceled then v.(asking := v.asking - 1)
      else if v.row.status == Pending
      then v.(row := v.row.(status := Canceled), copy := Some(Canceled), asking := v.asking - 1)
      else v.(asking := v.asking - 1, reading := v.reading + 1)
    case ReadRow =>
      if v.reading == 0 then v
      else v.(reading := v.reading - 1, copy := if writeBack then Some(v.row.status) else v.copy)
  }

  /** The status that a client is shown by this event; None if the event answers no poll, or answers 404. */
  function Answer(v: View, e: Event): (shown: Option<Status>)
    ensures e.Begin? && v.copy == Some(Succeeded) ==> shown == Some(Succeeded)
    ensures e.Begin? && v.copy == Some(Canceled) ==> shown == Some(Canceled)
    ensures e.Begin? && v.copy == Some(Processing) ==> shown == Some(Pending)
    ensures e.Begin? && v.copy == Some(Pending) ==>
              shown == if v.checkedAt.Some? && e.now < v.checkedAt.value + 30.0 then Some(Pending) else None
    ensures e == ReadRow && v.reading > 0 ==>
              shown == Some(if v.row.status == Processing then Pending else v.row.status)
  {
    match e
    case Begin(now) => if v.copy.None? || Asks(v, now) then None else Some(PublicStatus(v.copy.value))
    case Asked(canceled) =>
      if v.asking == 0 then None
      else if !canceled then Some(Pending)
      else if v.row.status == Pending then Some(Canceled)
      else None
    case ReadRow => if v.reading == 0 then None else Some(PublicStatus(v.row.status))
    case _ => None
  }

  function AfterEvents(writeBack: bool, h: seq<Event>): View {
    if h == [] then START else Next(writeBack, AfterEvents(writeBack, h[..|h| - 1]), h[|h| - 1])
  }

  /** What clients are shown last; they learn at creation that the payment is pending. */
  function LastShown(writeBack: bool, h: seq<Event>): Status {
    if h == [] then Pending else
      var shown := Answer(AfterEvents(writeBack, h[..|h| - 1]), h[|h| - 1]);
      if shown.Some? then shown.value else LastShown(writeBack, h[..|h| - 1])
  }

  /** How often that changes. */
  function Changes(writeBack: bool, h: seq<Event>): nat {
    if h == [] then 0 else
      Changes(writeBack, h[..|h| - 1])
      + (if LastShown(writeBack, h) != LastShown(writeBack, h[..|h| - 1]) then 1 else 0)
  }

  // ---------------------------------------------------------------- which copies a process can cache

  /** Every copy is of the row as it was at some moment. Final statuses stay, so a copy that is final is of
      the present row. */
  ghost predicate CopiesOfRow(writeBack: bool, h: seq<Event>) {
    h != [] ==>
      var prefix, e := h[..|h| - 1], h[|h| - 1];
      && CopiesOfRow(writeBack, prefix)
      && (e.CacheWrite? && Final(e.status) ==> e.status == AfterEvents(writeBack, prefix).row.status)
  }

  ghost predicate Sound(v: View) {
    && (v.row.token.Some? <==> v.row.status == Processing)
    && (v.copy.Some? && Final(v.copy.value) ==> v.copy.value == v.row.status)
  }

  lemma StepSound(writeBack: bool, v: View, e: Event)
    requires Sound(v) && (e.CacheWrite? && Final(e.status) ==> e.status == v.row.status)
    ensures Sound(Next(writeBack, v, e))
    ensures Final(v.row.status) ==> Next(writeBack, v, e).row.status == v.row.status
    ensures var shown := Answer(v, e);
            shown.Some? ==> shown.value == Pending || (Final(shown.value) && shown.value == Next(writeBack, v, e).row.status)
  {
  }

  /** Every answer is "pending" or the final status of the stored row. */
  lemma {:induction false} AnswersAreTrue(writeBack: bool, h: seq<Event>)
    requires CopiesOfRow(writeBack, h)
    ensures var v, shown := AfterEvents(writeBack, h), LastShown(writeBack, h);
            Sound(v) && (shown == Pending || (Final(shown) && shown == v.row.status))
  {
    if h != [] {
      AnswersAreTrue(writeBack, h[..|h| - 1]);
      StepSound(writeBack, AfterEvents(writeBack, h[..|h| - 1]), h[|h| - 1]);
    }
  }

  // ---------------------------------------------------------------- when what clients see changes once

  /** The event answers a poll from a cached copy that is not final. */
  predicate ShowsOldCopy(v: View, e: Event) {
    || (e.Begin? && v.copy.Some? && !Final(v.copy.value) && !Asks(v, e.now))
    || (e == Asked(false) && v.asking > 0)
  }

  /** After a final answer no poll is answered from a copy that is not final. */
  ghost predicate NoOldCopyAfterFinal(writeBack: bool, h: seq<Event>) {
    h != [] ==>
      var prefix := h[..|h| - 1];
      && NoOldCopyAfterFinal(writeBack, prefix)
      && (Final(LastShown(writeBack, prefix)) ==> !ShowsOldCopy(AfterEvents(writeBack, prefix), h[|h| - 1]))
  }

  /** Under any interleaving of polls, cache writes and statements of any processes: what clients see changes
      at most once if and only if no poll that comes after a final answer is answered from a copy that is
      not final. */
  lemma {:induction false} ShownChangesOnceIff(writeBack: bool, h: seq<Event>)
    requires CopiesOfRow(writeBack, h)
    ensures Changes(writeBack, h) <= 1 <==> NoOldCopyAfterFinal(writeBack, h)
    ensures NoOldCopyAfterFinal(writeBack, h) ==>
              Changes(writeBack, h) == if LastShown(writeBack, h) == Pending then 0 else 1
  {
    if h != [] {
      var prefix := h[..|h| - 1];
      ShownChangesOnceIff(writeBack, prefix);
      AnswersAreTrue(writeBack, prefix);
      AnswersAreTrue(writeBack, h);
      StepSound(writeBack, AfterEvents(writeBack, prefix), h[|h| - 1]);
    }
  }

  // ---------------------------------------------------------------- writing back what was read

  /** One poll at a time, and every copy is of the row as it is. */
  ghost predicate Orderly(writeBack: bool, h: seq<Event>) {
    h != [] ==>
      var prefix, e := h[..|h| - 1], h[|h| - 1];
      var v := AfterEvents(writeBack, prefix);
      && Orderly(writeBack, prefix)
      && (e.Begin? ==> v.asking == 0 && v.reading == 0)
      && (e.CacheWrite? ==> e.status == v.row.status)
  }

  lemma {:induction false} WriteBackIsEnough(h: seq<Event>)
    requires Orderly(true, h)
    ensures CopiesOfRow(true, h) && NoOldCopyAfterFinal(true, h)
    ensures var v := AfterEvents(true, h);
            Final(LastShown(true, h)) ==> v.asking == 0 && (v.copy.Some? ==> Final(v.copy.value))
    ensures AfterEvents(true, h).asking + AfterEvents(true, h).reading <= 1
  {
    if h != [] {
      var prefix := h[..|h| - 1];
      WriteBackIsEnough(prefix);
      AnswersAreTrue(true, prefix);
      StepSound(true, AfterEvents(true, prefix), h[|h| - 1]);
    }
  }

  lemma AfterSnoc(writeBack: bool, h: seq<Event>, e: Event, v: View)
    requires AfterEvents(writeBack, h) == v
    ensures AfterEvents(writeBack, h + [e]) == Next(writeBack, v, e)
    ensures LastShown(writeBack, h + [e])
         == if Answer(v, e).Some? then Answer(v, e).value else LastShown(writeBack, h)
    ensures Changes(writeBack, h + [e])
         == Changes(writeBack, h) + if LastShown(writeBack, h + [e]) != LastShown(writeBack, h) then 1 else 0
    ensures Orderly(writeBack, h + [e]) <==>
              && Orderly(writeBack, h) && (e.Begin? ==> v.asking == 0 && v.reading == 0)
              && (e.CacheWrite? ==> e.status == v.row.status)
  {
    assert (h + [e])[..|h|] == h;
  }

  /** The payment is cached as pending; a client polls and sees "pending"; another process cancels the row; */
  const CANCELED_ELSEWHERE: seq<Event> :=
    [] + [CacheWrite(Pending)] + [Begin(0.0)] + [Asked(false)] + [Statement(Cancel(0.0))]

  /** half a minute later a poll asks YooKassa again and is answered "canceled" from the row; */
  const SHOWN_CANCELED := CANCELED_ELSEWHERE + [Begin(30.0)] + [Asked(true)] + [ReadRow]

  /** the next poll is answered "pending" from the copy. */
  const BACK_AND_FORTH := SHOWN_CANCELED + [Begin(31.0)]

  lemma ShownGoesBack()
    ensures Orderly(false, BACK_AND_FORTH) && Changes(false, BACK_AND_FORTH) == 2
    ensures LastShown(false, SHOWN_CANCELED) == Canceled && LastShown(false, BACK_AND_FORTH) == Pending
  {
    CanceledIsShown();
    AfterSnoc(false, SHOWN_CANCELED, Begin(31.0), View(CANCELED_ROW, Some(Pending), Some(30.0), 0, 0));
  }

  const CANCELED_ROW := NEW_PAYMENT.(status := Canceled)

  lemma CanceledIsShown()
    ensures var h := SHOWN_CANCELED;
            && AfterEvents(false, h) == View(CANCELED_ROW, Some(Pending), Some(30.0), 0, 0)
            && Orderly(false, h) && Changes(false, h) == 1 && LastShown(false, h) == Canceled
  {
    var h := CANCELED_ELSEWHERE;
    PendingIsShown();
    AfterSnoc(false, h, Begin(30.0), View(CANCELED_ROW, Some(Pending), Some(0.0), 0, 0));
    AfterSnoc(false, h + [Begin(30.0)], Asked(true), View(CANCELED_ROW, Some(Pending), Some(30.0), 1, 0));
    AfterSnoc(false, h + [Begin(30.0)] + [Asked(true)], ReadRow, View(CANCELED_ROW, Some(Pending), Some(30.0), 0, 1));
  }

  lemma PendingIsShown()
    ensures var h := CANCELED_ELSEWHERE;
            && AfterEvents(false, h) == View(CANCELED_ROW, Some(Pending), Some(0.0), 0, 0)
            && Orderly(false, h) && Changes(false, h) == 0 && LastShown(false, h) == Pending
  {
    var v := View(NEW_PAYMENT, Some(Pending), None, 0, 0);
    var cached := [] + [CacheWrite(Pending)];
    AfterSnoc(false, [], CacheWrite(Pending), START);
    AfterSnoc(false, cached, Begin(0.0), v);
    AfterSnoc(false, cached + [Begin(0.0)], Asked(false), v.(checkedAt := Some(0.0), asking := 1));
    AfterSnoc(false, cached + [Begin(0.0)] + [Asked(false)], Statement(Cancel(0.0)), v.(checkedAt := Some(0.0)));
  }

  /** For polls one after another and fresh copies, what clients see changes at most once in every history if
      and only if a row read from the database is written back to the cache. */
  lemma ChangesOnceIffWrittenBack(writeBack: bool)
    ensures (forall h | Orderly(writeBack, h) :: Changes(writeBack, h) <= 1) <==> writeBack
  {
    if writeBack {
      forall h | Orderly(writeBack, h) ensures Changes(writeBack, h) <= 1 {
        WriteBackIsEnough(h);
        ShownChangesOnceIff(true, h);
      }
    } else {
      ShownGoesBack();
    }
  }

  // ---------------------------------------------------------------- the throttle of the checks

  function CheckedAt(checks: map<string, real>, id: string): Option<real> {
    if id in checks then Some(checks[id]) else None
  }

  class CancelChecks {
    /** When YooKassa was last asked about a payment. */
    var checks: map<string, real>

    constructor ()
      ensures checks == map[]
    {
      checks := map[];
    }

    /** Decides by the payment's own last check. Dropping the old entries of all payments changes no later
        decision about any of them. */
    method CheckDue(id: string, now: real) returns (due: bool)
      modifies this
      ensures due == Due(CheckedAt(old(checks), id), now)
      ensures due ==> CheckedAt(checks, id) == Some(now)
      ensures forall other, t | (other != id || !due) && t >= now ::
                Due(CheckedAt(checks, other), t) == Due(CheckedAt(old(checks), other), t)
    {
      var expired := set other | other in checks && now - checks[other] >= CHECK_INTERVAL;
      checks := checks - expired;
      due := id !in checks;
      if due {
        checks := checks[id := now];
      }
    }
  }
}
