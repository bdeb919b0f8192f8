/** `app/api/verify-payment/route.ts`: confirm a Stripe checkout session and
    credit its buyer once, guarded by a marker row keyed by the session. */
module VerifyPaymentRoute {
  import opened Wrappers
  import opened JsNumbers
  import opened Ledger
  import opened Http

  // ---------------------------------------------------------------------------
  // The processed-event key

  const EventPrefix: string := "session_"

  /** The `event_id` both looked up and inserted for a session. */
  function EventKey(sessionId: string): string
  {
    EventPrefix + sessionId
  }

  /** The session a key was derived from, if it has the prefix. */
  function SessionOfKey(key: string): Option<string>
  {
    if |key| >= |EventPrefix| && key[..|EventPrefix|] == EventPrefix then Some(key[|EventPrefix|..]) else None
  }

  lemma EventKeyRoundTrip(sessionId: string)
    ensures SessionOfKey(EventKey(sessionId)) == Some(sessionId)
  {
    var key := EventKey(sessionId);
    assert key[..|EventPrefix|] == EventPrefix;
    assert key[|EventPrefix|..] == sessionId;
  }

  lemma SessionOfKeyRoundTrip(key: string)
    ensures SessionOfKey(key).Some? ==> EventKey(SessionOfKey(key).value) == key
  {
    if SessionOfKey(key).Some? {
      assert key == key[..|EventPrefix|] + key[|EventPrefix|..];
    }
  }

  /** Distinct sessions have distinct markers. */
  lemma EventKeyInjective(a: string, b: string)
    ensures EventKey(a) == EventKey(b) ==> a == b
  {
    EventKeyRoundTrip(a);
    EventKeyRoundTrip(b);
  }

  // ---------------------------------------------------------------------------
  // The checkout session as Stripe reports it

  datatype PaymentStatus = Paid | Unpaid | NoPaymentRequired

  /** The fields of a retrieved session the route reads; the metadata values are
      strings attached when the session was created, possibly absent. */
  datatype CheckoutSession = CheckoutSession(
    paymentStatus: PaymentStatus,
    metadataUserId: Option<string>,
    metadataCredits: Option<string>)

  /** `stripe.checkout.sessions.retrieve(sessionId)`: the session, or a throw. */
  datatype Retrieval = Retrieved(session: CheckoutSession) | RetrieveFailed

  /** Which of the four store calls fail (with an error other than "no row"). */
  datatype StoreFaults = StoreFaults(
    selectProcessedFails: bool,
    selectBalanceFails: bool,
    upsertFails: bool,
    insertFails: bool)

  const NoFaults := StoreFaults(false, false, false, false)

  /** The request: the caller as `getAuth` reports it and the body's `sessionId`
      (None when absent or null). */
  datatype Request = Request(auth: Option<string>, body: JsonBody<Option<string>>)

  /** The session id the route acts on: the body parsed and `sessionId` is truthy. */
  function SessionIdOf(body: JsonBody<Option<string>>): Option<string>
  {
    if body.Parsed? && body.field.Some? && body.field.value != "" then body.field else None
  }

  // ---------------------------------------------------------------------------
  // The credits amount in the session metadata

  /** `session.metadata?.credits || '0'`. */
  function CreditsText(credits: Option<string>): string
  {
    if credits.Some? && credits.value != "" then credits.value else "0"
  }

  /** The guard as the route writes it, `credits <= 0` on the `parseInt` result:
      it rejects non-positive numbers and, since every comparison with NaN is
      false, lets NaN through. */
  predicate RejectsAsWritten(p: JsInt)
  {
    p.Num? && p.value <= 0
  }

  /** The credits amount a paid session awards, with NaN rejected alongside
      non-positive amounts: a positive number or nothing. */
  function CreditsAmount(credits: Option<string>): (r: Option<int>)
    ensures r.Some? ==> r.value > 0 && ParseInt(CreditsText(credits)) == Num(r.value)
    ensures r.None? ==> ParseInt(CreditsText(credits)).NaN? || ParseInt(CreditsText(credits)).value <= 0
  {
    match ParseInt(CreditsText(credits))
    case NaN => None
    case Num(n) => if n > 0 then Some(n) else None
  }

  /** Metadata holding the decimal form of a positive number awards that number,
      and holding any other integer awards nothing. */
  lemma CreditsAmountOfDecimal(n: int)
    ensures CreditsAmount(Some(Decimal(n))) == if n > 0 then Some(n) else None
  {
    ParseIntOfDecimal(n);
  }

  /** Missing or empty metadata reads as "0" and awards nothing. */
  lemma MissingCreditsAwardNothing()
    ensures CreditsAmount(None) == None
    ensures CreditsAmount(Some("")) == None
  {
    ParseIntOfDecimal(0);
    assert CreditsText(None) == Decimal(0);
    assert CreditsText(Some("")) == Decimal(0);
  }

  /** On metadata that does not parse, the guard as written lets the session
      through, where the corrected amount rejects it. */
  lemma AsWrittenAdmitsNaN()
    ensures ParseInt(CreditsText(Some("ten"))) == NaN
    ensures !RejectsAsWritten(ParseInt(CreditsText(Some("ten"))))
    ensures CreditsAmount(Some("ten")) == None
  {
    assert CreditsText(Some("ten")) == "ten";
    assert "ten"[0] == 't';
    ParseIntWithoutDigitsIsNaN("ten");
  }

  /** On every metadata value that parses to a number, the corrected amount and
      the guard as written agree. */
  lemma CorrectionOnlyAffectsNaN(credits: Option<string>)
    requires ParseInt(CreditsText(credits)).Num?
    ensures CreditsAmount(credits).Some? <==> !RejectsAsWritten(ParseInt(CreditsText(credits)))
  {
  }

  /** The guard applied at line 65: as written, or corrected to reject NaN too. */
  datatype CreditsGuard = AsWritten | RejectingNaN

  /** The amount a paid session goes on to award under `guard`: the `parseInt`
      result of its metadata credits, when the guard lets it through. */
  function AdmittedAmount(guard: CreditsGuard, credits: Option<string>): (r: Option<JsInt>)
    ensures r.Some? <==>
              !RejectsAsWritten(ParseInt(CreditsText(credits))) && (guard == RejectingNaN ==> ParseInt(CreditsText(credits)).Num?)
    ensures r.Some? ==> r.value == ParseInt(CreditsText(credits))
    ensures r.Some? && r.value.Num? ==> r.value.value > 0
    ensures guard == RejectingNaN ==>
              match CreditsAmount(credits)
              case None => r.None?
              case Some(n) => r == Some(Num(n))
  {
    match guard
    case AsWritten =>
      var p := ParseInt(CreditsText(credits));
      if RejectsAsWritten(p) then None else Some(p)
    case RejectingNaN =>
      match CreditsAmount(credits)
      case None => None
      case Some(n) => Some(Num(n))
  }

  // ---------------------------------------------------------------------------
  // The checks on a retrieved session

  datatype Verdict = Reject(response: Response) | Accept(credits: JsInt)

  /** Ownership, then payment status, then the amount: the first failing check
      decides the rejection. */
  function CheckSession(guard: CreditsGuard, user: UserId, session: CheckoutSession): (v: Verdict)
    ensures v.Accept? <==>
              && session.metadataUserId == Some(user) && session.paymentStatus == Paid
              && AdmittedAmount(guard, session.metadataCredits).Some?
    ensures v.Accept? ==>
              && v.credits == ParseInt(CreditsText(session.metadataCredits))
              && (v.credits.Num? ==> v.credits.value > 0)
              && (v.credits.NaN? ==> guard == AsWritten)
    ensures v.Reject? ==> v.response.status == 400
  {
    if session.metadataUserId != Some(user) then Reject(BadRequest("Invalid session"))
    else if session.paymentStatus != Paid then Reject(BadRequest("Payment not completed"))
    else match AdmittedAmount(guard, session.metadataCredits)
      case None => Reject(BadRequest("Invalid credits amount"))
      case Some(p) => Accept(p)
  }

  /** A session attached to someone else is "Invalid session" whatever its payment
      status: the ownership check comes first. */
  lemma ForeignSessionIsInvalid(guard: CreditsGuard, user: UserId, session: CheckoutSession)
    requires session.metadataUserId != Some(user)
    ensures CheckSession(guard, user, session) == Reject(BadRequest("Invalid session"))
  {
  }

  /** The caller's own session that is not paid is "Payment not completed",
      whatever its metadata credits. */
  lemma UnpaidSessionIsNotCompleted(guard: CreditsGuard, user: UserId, session: CheckoutSession)
    requires session.metadataUserId == Some(user) && session.paymentStatus != Paid
    ensures CheckSession(guard, user, session) == Reject(BadRequest("Payment not completed"))
  {
  }

  /** The two guards decide alike on every session whose credits parse to a number. */
  lemma GuardsAgreeOnNumbers(user: UserId, session: CheckoutSession)
    requires ParseInt(CreditsText(session.metadataCredits)).Num?
    ensures CheckSession(AsWritten, user, session) == CheckSession(RejectingNaN, user, session)
  {
    CorrectionOnlyAffectsNaN(session.metadataCredits);
  }

  // ---------------------------------------------------------------------------
  // The pipeline

  /** The position of a call in the route's pipeline. */
  function Stage(c: Call): nat
  {
    match c
    case SelectProcessed(_) => 0
    case RetrieveSession(_) => 1
    case SelectBalance(_) => 2
    case UpsertBalance(_, _) => 3
    case InsertProcessed(_, _) => 4
  }

  /** The calls made are the first steps of the pipeline, starting at stage
      `from`: in order, none skipped, none repeated. */
  predicate PipelineFrom(calls: seq<Call>, from: nat)
  {
    forall i :: 0 <= i < |calls| ==> Stage(calls[i]) == from + i
  }

  lemma PipelineFromPrepend(c: Call, calls: seq<Call>, from: nat)
    requires Stage(c) == from && PipelineFrom(calls, from + 1)
    ensures PipelineFrom([c] + calls, from)
  {
    forall i | 0 <= i < |[c] + calls|
      ensures Stage(([c] + calls)[i]) == from + i
    {
      if i > 0 {
        assert ([c] + calls)[i] == calls[i - 1];
      }
    }
  }

  /** The calls of the award stage when every one of them is made: the balance
      read, the upsert of the new total and the marker insert. */
  function AwardCalls(user: UserId, sessionId: string, total: Cell, credits: Cell): seq<Call>
  {
    [SelectBalance(user), UpsertBalance(user, total), InsertProcessed(EventKey(sessionId), Award(user, credits))]
  }

  lemma AwardCallsInPipeline(calls: seq<Call>, user: UserId, sessionId: string, total: Cell, credits: Cell)
    requires calls <= AwardCalls(user, sessionId, total, credits)
    ensures PipelineFrom(calls, 2)
  {
  }

  /** Insert the marker once the balance is credited. On failure the credited
      store stands and the caller gets a 500. */
  function MarkProcessed(key: string, award: Award, insertFails: bool, credited: Store): (o: Outcome)
    ensures o.calls == [InsertProcessed(key, award)]
    ensures o.response == OkSuccess <==> !insertFails && key !in credited.processed
    ensures o.response == OkSuccess ==>
              o.store == Store(credited.balances, credited.processed[key := award])
    ensures o.response != OkSuccess ==>
              o.response == ServerError("Error marking event as processed") && o.store == credited
  {
    match Insert(credited, key, award, insertFails)
    case None => Outcome(ServerError("Error marking event as processed"), credited, [InsertProcessed(key, award)])
    case Some(marked) => Outcome(OkSuccess, marked, [InsertProcessed(key, award)])
  }

  /** Read the balance, add the amount, upsert the sum, then insert the marker.
      The two writes are separate calls: when the insert fails, the balance stays
      changed with no marker recorded. A NaN amount makes the sum NaN, which both
      writes send as null. */
  function AwardCredits(user: UserId, sessionId: string, amount: JsInt, faults: StoreFaults, s: Store): (o: Outcome)
    requires amount.NaN? || amount.value > 0
    ensures o.calls <= AwardCalls(user, sessionId, AsCell(Plus(Balance(s, user), amount)), AsCell(amount)) && |o.calls| >= 1
    ensures o.store == s || ChangesAtMost(s, o.store, user, EventKey(sessionId))
    ensures o.store != s ==> o.response == OkSuccess || o.response == ServerError("Error marking event as processed")
    ensures o.store != s ==> o.store.balances == s.balances[user := AsCell(Plus(Balance(s, user), amount))]
    ensures o.response == OkSuccess ==>
              && EventKey(sessionId) !in s.processed
              && o.store.processed == s.processed[EventKey(sessionId) := Award(user, AsCell(amount))]
    ensures o.response != OkSuccess ==> o.response.status == 500
    ensures o.store.balances != s.balances && !faults.insertFails && EventKey(sessionId) !in s.processed ==> o.response == OkSuccess
    ensures NonNegative(s) ==> NonNegative(o.store)
  {
    var key := EventKey(sessionId);
    match ReadBalance(s, user, faults.selectBalanceFails)
    case ReadError => Outcome(ServerError("Error verifying payment"), s, [SelectBalance(user)])
    case _ =>
      // `(currentCredits?.credits || 0) + credits`, sent as JSON
      var total := AsCell(Plus(Balance(s, user), amount));
      var calls := [SelectBalance(user), UpsertBalance(user, total)];
      if faults.upsertFails then Outcome(ServerError("Error adding credits"), s, calls)
      else
        var m := MarkProcessed(key, Award(user, AsCell(amount)), faults.insertFails, Upsert(s, user, total));
        Outcome(m.response, m.store, AwardCalls(user, sessionId, total, AsCell(amount)))
  }

  /** A session with no marker is retrieved from Stripe, checked, and on
      acceptance credited. */
  function VerifyUnmarked(guard: CreditsGuard, user: UserId, sessionId: string, stripe: Retrieval, faults: StoreFaults, s: Store): (o: Outcome)
    requires EventKey(sessionId) !in s.processed
    ensures PipelineFrom(o.calls, 1) && |o.calls| >= 1
    ensures o.store == s || ChangesAtMost(s, o.store, user, EventKey(sessionId))
    ensures o.store != s ==> o.response == OkSuccess || o.response == ServerError("Error marking event as processed")
    ensures o.store != s ==>
              && stripe.Retrieved? && CheckSession(guard, user, stripe.session).Accept?
              && o.store.balances == s.balances[user := AsCell(Plus(Balance(s, user), CheckSession(guard, user, stripe.session).credits))]
    ensures o.store.balances != s.balances && !faults.insertFails ==> EventKey(sessionId) in o.store.processed
    ensures o.response.status == 200 ==> o.response == OkSuccess && EventKey(sessionId) in o.store.processed
    ensures o.response.status != 401
    ensures NonNegative(s) ==> NonNegative(o.store)
  {
    var asked := [RetrieveSession(sessionId)];
    match stripe
    case RetrieveFailed => Outcome(BadRequest("Stripe session not found"), s, asked)
    case Retrieved(session) =>
      match CheckSession(guard, user, session)
      case Reject(response) => Outcome(response, s, asked)
      case Accept(amount) =>
        var o := AwardCredits(user, sessionId, amount, faults, s);
        AwardCallsInPipeline(o.calls, user, sessionId, AsCell(Plus(Balance(s, user), amount)), AsCell(amount));
        PipelineFromPrepend(RetrieveSession(sessionId), o.calls, 1);
        Outcome(o.response, o.store, asked + o.calls)
  }

  /** The route, with the credits guard of line 65 as a parameter: `AsWritten` is
      the route as it stands. Every store failure outside the two writes ends in
      the generic 500 of the outer `catch`. */
  function VerifyPayment(guard: CreditsGuard, req: Request, stripe: Retrieval, faults: StoreFaults, s: Store): (o: Outcome)
    // Unauthenticated callers are turned away before anything is read.
    ensures o.response.status == 401 <==> req.auth.None? || req.auth.value == ""
    ensures o.response.status == 401 ==> o.store == s && o.calls == []
    // The calls are a prefix of the pipeline: marker lookup, Stripe, balance read,
    // upsert, insert; Stripe is asked only about this session, and only when it has no marker.
    ensures PipelineFrom(o.calls, 0)
    ensures o.calls != [] ==>
              && req.body.Parsed? && req.body.field.Some? && req.body.field.value != ""
              && o.calls[0] == SelectProcessed(EventKey(req.body.field.value))
    ensures |o.calls| >= 2 ==> o.calls[1] == RetrieveSession(SessionIdOf(req.body).value) && EventKey(SessionIdOf(req.body).value) !in s.processed
    // The store changes only at the caller's balance and at this session's marker,
    // and only on success or in the window between the two writes.
    ensures o.store == s ||
              (&& Caller(req.auth).Some? && SessionIdOf(req.body).Some?
               && ChangesAtMost(s, o.store, req.auth.value, EventKey(SessionIdOf(req.body).value)))
    ensures o.store != s ==> o.response == OkSuccess || o.response == ServerError("Error marking event as processed")
    // A change comes only from a paid session of the caller whose credits the
    // guard admits, and sets the caller's balance to the old one plus the parsed
    // credits: null when they are NaN.
    ensures o.store != s ==>
              && stripe.Retrieved?
              && stripe.session.metadataUserId == req.auth && stripe.session.paymentStatus == Paid
              && var p := ParseInt(CreditsText(stripe.session.metadataCredits));
                 && !RejectsAsWritten(p) && (p.NaN? ==> guard == AsWritten)
                 && o.store.balances == s.balances[req.auth.value := AsCell(Plus(Balance(s, req.auth.value), p))]
    // Credits go only to a session with no marker, and without an insert failure
    // the marker is recorded with them.
    ensures o.store.balances != s.balances ==>
              && SessionIdOf(req.body).Some?
              && EventKey(SessionIdOf(req.body).value) !in s.processed
              && (!faults.insertFails ==> EventKey(SessionIdOf(req.body).value) in o.store.processed)
    // Success means the session's marker is present.
    ensures o.response.status == 200 ==>
              o.response == OkSuccess && SessionIdOf(req.body).Some? && EventKey(SessionIdOf(req.body).value) in o.store.processed
    ensures NonNegative(s) ==> NonNegative(o.store)
  {
    match Caller(req.auth)
    case None => Outcome(Unauthorized, s, [])
    case Some(user) =>
      match req.body
      case Unparsable => Outcome(ServerError("Error verifying payment"), s, [])
      case Parsed(field) =>
        if field.None? || field.value == "" then Outcome(BadRequest("Missing session ID"), s, [])
        else
          var sessionId := field.value;
          var key := EventKey(sessionId);
          var looked := [SelectProcessed(key)];
          match ReadMarker(s, key, faults.selectProcessedFails)
          case ReadError => Outcome(ServerError("Error verifying payment"), s, looked)
          case Found(_) => Outcome(OkSuccess, s, looked)
          case NotFound =>
            var o := VerifyUnmarked(guard, user, sessionId, stripe, faults, s);
            PipelineFromPrepend(SelectProcessed(key), o.calls, 0);
            Outcome(o.response, o.store, looked + o.calls)
  }
}
