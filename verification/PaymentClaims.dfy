/** Claiming a payment for processing (database/service.py, class PaymentRepository): a lease with a
    fresh token per grant, taken over when it is older than ten minutes. Every conditional UPDATE is one
    atomic step; any number of workers run them in any order and may stop for good at any point. */
module PaymentClaims {
  import opened Prelude

  const STALE_MINUTES := 10.0

  datatype Status = Pending | Processing | Succeeded | Canceled

  datatype Payment = Payment(status: Status, startedAt: Option<real>, token: Option<string>, renewal: Option<int>)

  /** `now` is in minutes. */
  datatype Step =
    | Claim(token: string, now: real)
    | Release(token: string, now: real)
    | Complete(token: string, now: real)
    | Cancel(now: real)
    | Reserve(expiry: int, now: real)

  const NEW_PAYMENT := Payment(Pending, None, None, None)

  /** The WHERE clause of the statement matches the row. */
  predicate Wins(p: Payment, s: Step) {
    match s
    case Claim(_, now) =>
      || p.status == Pending
      || (p.status == Processing && p.startedAt.Some? && p.startedAt.value < now - STALE_MINUTES)
    case Release(token, _) => p.status == Processing && p.token == Some(token)
    case Complete(token, _) => p.status == Processing && p.token == Some(token)
    case Cancel(_) => p.status == Pending
    case Reserve(_, _) => p.renewal.None?
  }

  function Apply(p: Payment, s: Step): Payment {
    if !Wins(p, s) then p else
      match s
      case Claim(token, now) => p.(status := Processing, startedAt := Some(now), token := Some(token))
      case Release(_, _) => p.(status := Pending, startedAt := None, token := None)
      case Complete(_, _) => p.(status := Succeeded, token := None)
      case Cancel(_) => p.(status := Canceled)
      case Reserve(expiry, _) => p.(renewal := Some(expiry))
  }

  function After(h: seq<Step>): Payment {
    if h == [] then NEW_PAYMENT else Apply(After(h[..|h| - 1]), h[|h| - 1])
  }

  predicate WinsAt(h: seq<Step>, i: nat)
    requires i < |h|
  {
    Wins(After(h[..i]), h[i])
  }

  lemma AfterStep(h: seq<Step>, i: nat)
    requires i < |h|
    ensures After(h[..i + 1]) == Apply(After(h[..i]), h[i])
  {
    assert h[..i + 1][..i] == h[..i];
  }

  predicate Names(s: Step, token: string) {
    match s
    case Claim(t, _) => t == token
    case Release(t, _) => t == token
    case Complete(t, _) => t == token
    case Cancel(_) => false
    case Reserve(_, _) => false
  }

  /** A claim generates a token nobody has used before. */
  ghost predicate FreshTokens(h: seq<Step>) {
    forall i, j | 0 <= i < j < |h| && h[j].Claim? :: !Names(h[i], h[j].token)
  }

  ghost predicate ClockNeverGoesBack(h: seq<Step>) {
    forall i, j | 0 <= i < j < |h| :: h[i].now <= h[j].now
  }

  // ---------------------------------------------------------------- the row as a function of who won last

  function LastWin(h: seq<Step>): Option<Step> {
    if h == [] then None else
      var s := h[|h| - 1];
      if !s.Reserve? && WinsAt(h, |h| - 1) then Some(s) else LastWin(h[..|h| - 1])
  }

  /** The claim that won last, if any did since the last release. */
  function LastGrant(h: seq<Step>): Option<Step> {
    if h == [] then None else
      var s := h[|h| - 1];
      if WinsAt(h, |h| - 1) && s.Claim? then Some(s)
      else if WinsAt(h, |h| - 1) && s.Release? then None
      else LastGrant(h[..|h| - 1])
  }

  /** The status and the token depend only on the last statement that changed the row, and the start time
      is that of the last grant that was not released. */
  lemma {:induction false} RowIsLastWin(h: seq<Step>)
    ensures var p := After(h);
            match LastWin(h)
            case None => p.status == Pending && p.token == None
            case Some(Claim(token, now)) => p.status == Processing && p.token == Some(token) && LastGrant(h) == LastWin(h)
            case Some(Release(_, _)) => p.status == Pending && p.token == None && LastGrant(h) == None
            case Some(Complete(token, _)) =>
              && p.status == Succeeded && p.token == None
              && LastGrant(h).Some? && LastGrant(h).value.Claim? && LastGrant(h).value.token == token
            case Some(Cancel(_)) => p.status == Canceled && p.token == None && LastGrant(h) == None
            case Some(Reserve(_, _)) => false
    ensures After(h).startedAt == if LastGrant(h).Some? then Some(LastGrant(h).value.now) else None
    ensures LastWin(h) == None ==> LastGrant(h) == None
  {
    if h != [] {
      RowIsLastWin(h[..|h| - 1]);
    }
  }

  /** A token is stored exactly while the payment is being processed. */
  lemma TokenIffProcessing(h: seq<Step>)
    ensures After(h).token.Some? <==> After(h).status == Processing
  {
    RowIsLastWin(h);
  }

  /** Release and complete succeed if and only if the caller's claim is the last statement that won. */
  lemma OwnerIsLastGrant(h: seq<Step>, token: string, now: real)
    ensures Wins(After(h), Complete(token, now)) <==>
              LastWin(h).Some? && LastWin(h).value.Claim? && LastWin(h).value.token == token
    ensures Wins(After(h), Release(token, now)) <==> Wins(After(h), Complete(token, now))
  {
    RowIsLastWin(h);
  }

  // ---------------------------------------------------------------- final statuses

  lemma {:induction false} FinalStays(h: seq<Step>, i: nat, j: nat)
    requires i <= j <= |h|
    requires After(h[..i]).status == Succeeded || After(h[..i]).status == Canceled
    ensures After(h[..j]).status == After(h[..i]).status
    ensures j < |h| && WinsAt(h, j) ==> h[j].Reserve?
    decreases j
  {
    if i < j {
      FinalStays(h, i, j - 1);
      AfterStep(h, j - 1);
    }
    RowIsLastWin(h[..j]);
  }

  /** At most one `complete_claim` returns True over the whole life of a payment. */
  lemma OneCompletion(h: seq<Step>, i: nat, j: nat)
    requires i < |h| && j < |h| && h[i].Complete? && h[j].Complete? && WinsAt(h, i) && WinsAt(h, j)
    ensures i == j
  {
    var a, b := if i < j then i else j, if i < j then j else i;
    if a < b {
      AfterStep(h, a);
      FinalStays(h, a + 1, b);
    }
  }

  function PublicStatus(s: Status): Status {
    if s == Processing then Pending else s
  }

  function PublicChanges(h: seq<Step>): nat {
    if h == [] then 0 else
      PublicChanges(h[..|h| - 1])
      + (if PublicStatus(After(h).status) != PublicStatus(After(h[..|h| - 1]).status) then 1 else 0)
  }

  /** The stored status, masked as clients are shown it, changes at most once: from pending to succeeded or
      to canceled. */
  lemma {:induction false} MaskedStatusChangesOnce(h: seq<Step>)
    ensures PublicChanges(h) == if PublicStatus(After(h).status) == Pending then 0 else 1
  {
    if h != [] {
      MaskedStatusChangesOnce(h[..|h| - 1]);
      RowIsLastWin(h[..|h| - 1]);
    }
  }

  // ---------------------------------------------------------------- superseded workers

  lemma {:induction false} TokenStaysOut(h: seq<Step>, token: string, j: nat, k: nat)
    requires FreshTokens(h) && j <= k <= |h| && After(h[..j]).token != Some(token)
    requires exists i | 0 <= i < j :: Names(h[i], token)
    ensures After(h[..k]).token != Some(token)
    decreases k
  {
    if j < k {
      TokenStaysOut(h, token, j, k - 1);
      AfterStep(h, k - 1);
      if h[k - 1].Claim? {
        var i :| 0 <= i < j && Names(h[i], token);
        assert !Names(h[i], h[k - 1].token);
      }
    }
  }

  /** Once another worker was granted the payment, the previous owner can neither release nor complete it. */
  lemma SupersededNeverWins(h: seq<Step>, i: nat, j: nat, k: nat)
    requires FreshTokens(h) && i < j < k < |h|
    requires h[i].Claim? && WinsAt(h, i) && h[j].Claim? && WinsAt(h, j)
    requires (h[k].Release? || h[k].Complete?) && h[k].token == h[i].token
    ensures !WinsAt(h, k)
  {
    AfterStep(h, j);
    assert Names(h[i], h[i].token);
    assert !Names(h[i], h[j].token);
    assert After(h[..j + 1]).token != Some(h[i].token);
    TokenStaysOut(h, h[i].token, j + 1, k);
  }

  /** Exactly when each statement finds its row: a claim takes a payment that is new or released, or one whose
      grant is more than ten minutes old, and a cancel takes one that nobody has claimed. */
  lemma WinsIff(h: seq<Step>, token: string, now: real)
    ensures Wins(After(h), Claim(token, now)) <==>
              match LastWin(h)
              case None => true
              case Some(Release(_, _)) => true
              case Some(Claim(_, granted)) => granted + 10.0 < now
              case Some(_) => false
    ensures Wins(After(h), Cancel(now)) <==> LastWin(h).None? || LastWin(h).value.Release?
    ensures Wins(After(h), Reserve(0, now)) <==> FirstReserved(h).None?
  {
    RowIsLastWin(h);
    RenewalIsFirstReserved(h);
  }

  /** A takeover happens only more than ten minutes after the previous grant. */
  lemma TakeoverOnlyWhenStale(h: seq<Step>, token: string, now: real)
    requires Wins(After(h), Claim(token, now)) && LastWin(h).Some? && LastWin(h).value.Claim?
    ensures LastWin(h).value.now + 10.0 < now
  {
    RowIsLastWin(h);
  }

  lemma {:induction false} OwnerKeepsRow(h: seq<Step>, i: nat, k: nat)
    requires ClockNeverGoesBack(h) && i < k < |h| && h[i].Claim? && WinsAt(h, i)
    requires h[k - 1].now <= h[i].now + 10.0
    requires forall m | i < m < k :: (h[m].Release? || h[m].Complete?) ==> h[m].token != h[i].token
    ensures After(h[..k]).status == Processing && After(h[..k]).token == Some(h[i].token)
    ensures After(h[..k]).startedAt == Some(h[i].now)
    decreases k
  {
    AfterStep(h, k - 1);
    if k > i + 1 {
      assert h[k - 2].now <= h[k - 1].now;
      OwnerKeepsRow(h, i, k - 1);
    }
  }

  /** A worker that comes back within ten minutes of its grant always completes its claim. */
  lemma PromptOwnerCompletes(h: seq<Step>, i: nat, k: nat)
    requires ClockNeverGoesBack(h) && i < k < |h| && h[i].Claim? && WinsAt(h, i)
    requires h[k].Complete? && h[k].token == h[i].token && h[k].now <= h[i].now + 10.0
    requires forall m | i < m < k :: (h[m].Release? || h[m].Complete?) ==> h[m].token != h[i].token
    ensures WinsAt(h, k)
  {
    assert h[k - 1].now <= h[k].now;
    OwnerKeepsRow(h, i, k);
  }

  // ---------------------------------------------------------------- the renewal target

  /** The expiry proposed by the first reservation. */
  function FirstReserved(h: seq<Step>): Option<int> {
    if h == [] then None else
      var earlier := FirstReserved(h[..|h| - 1]);
      if earlier.Some? || !h[|h| - 1].Reserve? then earlier else Some(h[|h| - 1].expiry)
  }

  lemma {:induction false} RenewalIsFirstReserved(h: seq<Step>)
    ensures After(h).renewal == FirstReserved(h)
  {
    if h != [] {
      RenewalIsFirstReserved(h[..|h| - 1]);
    }
  }

  lemma {:induction false} FirstReservedStays(h: seq<Step>, more: seq<Step>)
    requires FirstReserved(h).Some?
    ensures FirstReserved(h + more) == FirstReserved(h)
  {
    if more == [] {
      assert h + more == h;
    } else {
      FirstReservedStays(h, more[..|more| - 1]);
      assert (h + more)[..|h + more| - 1] == h + more[..|more| - 1];
    }
  }

  /** What a `reserve_renewal_expiry` call returns when its write is step `|h|` and `between` are the
      statements of other workers before its read. */
  function ReserveResult(h: seq<Step>, expiry: int, now: real, between: seq<Step>): Option<int> {
    if Wins(After(h), Reserve(expiry, now)) then Some(expiry)
    else After(h + [Reserve(expiry, now)] + between).renewal
  }

  /** Every call returns the value of the first call, whatever it proposes itself and whatever other
      workers do between its two statements. */
  lemma ReserveReturnsFirst(h: seq<Step>, expiry: int, now: real, between: seq<Step>)
    ensures ReserveResult(h, expiry, now, between)
         == (if FirstReserved(h).Some? then FirstReserved(h) else Some(expiry))
  {
    RenewalIsFirstReserved(h);
    var h1 := h + [Reserve(expiry, now)];
    assert h1[..|h|] == h;
    FirstReservedStays(h1, between);
    RenewalIsFirstReserved(h1 + between);
  }

  // ---------------------------------------------------------------- renewals by overlapping workers

  /** Workers renew a key at the same time: each reserves an expiry, reads the stored one if its own was
      not written, and sets the key to the expiry it holds, once, repeatedly or never. */
  datatype RenewalEvent =
    | Propose(worker: nat, expiry: int, now: real)
    | ReadBack(worker: nat)
    | WriteKey(worker: nat)
    | Crash(worker: nat)
    | Other(s: Step)

  /** `held` is what `reserve_renewal_expiry` returned to a worker; `reading` are those before its read. */
  datatype Renewals = Renewals(row: Payment, key: int, held: map<nat, int>, reading: set<nat>)

  function RenewalStep(r: Renewals, e: RenewalEvent): Renewals {
    match e
    case Propose(w, expiry, now) =>
      if Wins(r.row, Reserve(expiry, now))
      then r.(row := Apply(r.row, Reserve(expiry, now)), held := r.held[w := expiry], reading := r.reading - {w})
      else r.(held := r.held - {w}, reading := r.reading + {w})
    case ReadBack(w) =>
      if w in r.reading && r.row.renewal.Some?
      then r.(held := r.held[w := r.row.renewal.value], reading := r.reading - {w}) else r
    case WriteKey(w) => if w in r.held then r.(key := r.held[w]) else r
    case Crash(w) => r.(held := r.held - {w}, reading := r.reading - {w})
    case Other(s) => r.(row := Apply(r.row, s))
  }

  function AfterRenewals(start: int, h: seq<RenewalEvent>): Renewals {
    if h == [] then Renewals(NEW_PAYMENT, start, map[], {})
    else RenewalStep(AfterRenewals(start, h[..|h| - 1]), h[|h| - 1])
  }

  /** The expiry of the first reservation, by a worker or by anyone else. */
  function FirstProposed(h: seq<RenewalEvent>): Option<int> {
    if h == [] then None else
      var earlier, e := FirstProposed(h[..|h| - 1]), h[|h| - 1];
      if earlier.Some? then earlier
      else if e.Propose? then Some(e.expiry)
      else if e.Other? && e.s.Reserve? then Some(e.s.expiry)
      else None
  }

  /** Some worker that held an expiry has written the key. */
  predicate KeyWritten(start: int, h: seq<RenewalEvent>) {
    h != [] &&
    var prefix, e := h[..|h| - 1], h[|h| - 1];
    KeyWritten(start, prefix) || (e.WriteKey? && e.worker in AfterRenewals(start, prefix).held)
  }

  /** However workers overlap, crash, repeat themselves or take over from each other, all of them hold the
      first reserved expiry, and the key has its old expiry until one of them writes it and that one
      ever after. */
  lemma {:induction false} KeyExtendedOnce(start: int, h: seq<RenewalEvent>)
    ensures var r, first := AfterRenewals(start, h), FirstProposed(h);
            && r.row.renewal == first
            && (forall w | w in r.held :: first == Some(r.held[w]))
            && Some(r.key) == (if KeyWritten(start, h) then first else Some(start))
  {
    if h != [] {
      KeyExtendedOnce(start, h[..|h| - 1]);
    }
  }

  // ---------------------------------------------------------------- the repository

  class PaymentRepository {
    var payments: map<string, Payment>

    ghost predicate Updated(before: map<string, Payment>, id: string, s: Step)
      reads this
    {
      payments == if id in before then before[id := Apply(before[id], s)] else before
    }

    /** `uuid` is the fresh token. Returns it if the payment was claimed. */
    method ClaimPending(id: string, uuid: string, now: real) returns (token: Option<string>)
      modifies this
      ensures Updated(old(payments), id, Claim(uuid, now))
      ensures token == if id in old(payments) && Wins(old(payments)[id], Claim(uuid, now)) then Some(uuid) else None
    {
      token := None;
      if id in payments {
        var p := payments[id];
        if p.status == Pending
           || (p.status == Processing && p.startedAt.Some? && p.startedAt.value < now - STALE_MINUTES) {
          payments := payments[id := p.(status := Processing, startedAt := Some(now), token := Some(uuid))];
          token := Some(uuid);
        } else {
          assert payments[id := p] == payments;
        }
      }
    }

    method ReleaseClaim(id: string, token: string, ghost now: real) returns (released: bool)
      modifies this
      ensures Updated(old(payments), id, Release(token, now))
      ensures released <==> id in old(payments) && Wins(old(payments)[id], Release(token, now))
    {
      released := id in payments && payments[id].status == Processing && payments[id].token == Some(token);
      assert id in payments ==> payments[id := payments[id]] == payments;
      if released {
        payments := payments[id := payments[id].(status := Pending, startedAt := None, token := None)];
      }
    }

    method CompleteClaim(id: string, token: string, ghost now: real) returns (completed: bool)
      modifies this
      ensures Updated(old(payments), id, Complete(token, now))
      ensures completed <==> id in old(payments) && Wins(old(payments)[id], Complete(token, now))
    {
      completed := id in payments && payments[id].status == Processing && payments[id].token == Some(token);
      assert id in payments ==> payments[id := payments[id]] == payments;
      if completed {
        payments := payments[id := payments[id].(status := Succeeded, token := None)];
      }
    }

    method MarkCanceledIfPending(id: string, ghost now: real) returns (canceled: bool)
      modifies this
      ensures Updated(old(payments), id, Cancel(now))
      ensures canceled <==> id in old(payments) && old(payments)[id].status == Pending
    {
      canceled := id in payments && payments[id].status == Pending;
      assert id in payments ==> payments[id := payments[id]] == payments;
      if canceled {
        payments := payments[id := payments[id].(status := Canceled)];
      }
    }

    /** The stored expiry; None stands for the error raised when the payment does not exist.
        `others` are statements of other workers that run between the write and the read. */
    method ReserveRenewalExpiry(id: string, expiry: int, ghost now: real, others: seq<Step>)
      returns (stored: Option<int>)
      modifies this
      ensures stored == if id !in old(payments) then None
                        else if old(payments)[id].renewal.Some? then old(payments)[id].renewal
                        else Some(expiry)
      ensures payments.Keys == old(payments).Keys
      ensures id in payments ==> payments[id].renewal == stored
    {
      if id in payments && payments[id].renewal.None? {
        payments := payments[id := payments[id].(renewal := Some(expiry))];
        return Some(expiry);
      }
      var i := 0;
      while i < |others|
        invariant 0 <= i <= |others| && payments.Keys == old(payments).Keys
        invariant id in payments ==> payments[id].renewal == old(payments)[id].renewal && payments[id].renewal.Some?
      {
        if id in payments {
          payments := payments[id := Apply(payments[id], others[i])];
        }
        i := i + 1;
      }
      stored := if id in payments then payments[id].renewal else None;
    }
  }
}
