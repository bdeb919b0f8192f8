/** What the verify-payment route promises across its paths and across
    requests: every rejection leaves the store alone, a success credits
    additively and marks the session, a marked session is never credited
    again, and the one window where the marker is missing after a credit.
    Lemmas with a `guard` parameter hold for the route as written and for its
    correction alike; the ones about NaN credits tell the two apart. */
module VerifyPaymentProperties {
  import opened Wrappers
  import opened JsNumbers
  import opened Ledger
  import opened Http
  import opened VerifyPaymentRoute
  import CreditsRoute

  // ---------------------------------------------------------------------------
  // The pipeline one stage at a time

  /** With no store failure and no marker yet, the award stage reads, upserts
      the sum and inserts the marker. */
  lemma AwardCreditsHealthy(user: UserId, sessionId: string, amount: JsInt, s: Store)
    requires (amount.NaN? || amount.value > 0) && EventKey(sessionId) !in s.processed
    ensures var key := EventKey(sessionId);
            var total := AsCell(Plus(Balance(s, user), amount));
            var award := Award(user, AsCell(amount));
            AwardCredits(user, sessionId, amount, NoFaults, s) ==
              Outcome(OkSuccess,
                      Store(s.balances[user := total], s.processed[key := award]),
                      [SelectBalance(user), UpsertBalance(user, total), InsertProcessed(key, award)])
  {
  }

  /** An accepted session goes on to the award stage, after the Stripe call. */
  lemma VerifyUnmarkedAccepted(guard: CreditsGuard, user: UserId, sessionId: string, session: CheckoutSession, faults: StoreFaults, s: Store)
    requires EventKey(sessionId) !in s.processed
    requires CheckSession(guard, user, session).Accept?
    ensures var a := AwardCredits(user, sessionId, CheckSession(guard, user, session).credits, faults, s);
            VerifyUnmarked(guard, user, sessionId, Retrieved(session), faults, s) == Outcome(a.response, a.store, [RetrieveSession(sessionId)] + a.calls)
  {
  }

  /** A rejected session is answered with the check's response after the Stripe call. */
  lemma VerifyUnmarkedRejected(guard: CreditsGuard, user: UserId, sessionId: string, session: CheckoutSession, faults: StoreFaults, s: Store)
    requires EventKey(sessionId) !in s.processed
    requires CheckSession(guard, user, session).Reject?
    ensures VerifyUnmarked(guard, user, sessionId, Retrieved(session), faults, s) ==
              Outcome(CheckSession(guard, user, session).response, s, [RetrieveSession(sessionId)])
  {
  }

  /** A signed-in request for an unmarked session goes on past the marker lookup. */
  lemma VerifyPaymentUnmarked(guard: CreditsGuard, auth: Option<string>, sessionId: string, stripe: Retrieval, faults: StoreFaults, s: Store)
    requires Caller(auth).Some? && sessionId != ""
    requires EventKey(sessionId) !in s.processed && !faults.selectProcessedFails
    ensures var u := VerifyUnmarked(guard, Caller(auth).value, sessionId, stripe, faults, s);
            VerifyPayment(guard, Request(auth, Parsed(Some(sessionId))), stripe, faults, s) ==
              Outcome(u.response, u.store, [SelectProcessed(EventKey(sessionId))] + u.calls)
  {
  }

  // ---------------------------------------------------------------------------
  // One request

  /** An absent, null or empty `sessionId` is rejected before any call. */
  lemma MissingSessionIdRejected(guard: CreditsGuard, user: UserId, sessionId: Option<string>, stripe: Retrieval, faults: StoreFaults, s: Store)
    requires user != ""
    requires sessionId.None? || sessionId.value == ""
    ensures var o := VerifyPayment(guard, Request(Some(user), Parsed(sessionId)), stripe, faults, s);
            o.response == BadRequest("Missing session ID") && o.store == s && o.calls == []
  {
  }

  /** A session whose marker exists is answered with success at once, whoever
      asks: Stripe is not called and nothing is written. */
  lemma MarkedSessionShortCircuits(guard: CreditsGuard, auth: Option<string>, sessionId: string, stripe: Retrieval, faults: StoreFaults, s: Store)
    requires Caller(auth).Some? && sessionId != ""
    requires EventKey(sessionId) in s.processed
    requires !faults.selectProcessedFails
    ensures var o := VerifyPayment(guard, Request(auth, Parsed(Some(sessionId))), stripe, faults, s);
            o.response == OkSuccess && o.store == s && o.calls == [SelectProcessed(EventKey(sessionId))]
  {
  }

  /** A marker lookup that fails other than with "no row" is a 500 of the outer
      `catch`, before Stripe is asked. */
  lemma MarkerLookupErrorIsServerError(guard: CreditsGuard, auth: Option<string>, sessionId: string, stripe: Retrieval, faults: StoreFaults, s: Store)
    requires Caller(auth).Some? && sessionId != ""
    requires faults.selectProcessedFails
    ensures var o := VerifyPayment(guard, Request(auth, Parsed(Some(sessionId))), stripe, faults, s);
            o.response == ServerError("Error verifying payment") && o.store == s && NoWrites(o.calls)
            && o.calls == [SelectProcessed(EventKey(sessionId))]
  {
  }

  /** A session Stripe cannot retrieve is rejected with nothing written. */
  lemma StripeFailureRejected(guard: CreditsGuard, auth: Option<string>, sessionId: string, faults: StoreFaults, s: Store)
    requires Caller(auth).Some? && sessionId != ""
    requires EventKey(sessionId) !in s.processed && !faults.selectProcessedFails
    ensures var o := VerifyPayment(guard, Request(auth, Parsed(Some(sessionId))), RetrieveFailed, faults, s);
            o.response == BadRequest("Stripe session not found") && o.store == s && NoWrites(o.calls)
  {
  }

  /** A retrieved session the checks reject (someone else's, unpaid, or with
      credits the guard does not admit) is answered with that check's 400 and nothing written; a
      session attached to another user is "Invalid session" even when unpaid. */
  lemma RejectedSessionWritesNothing(guard: CreditsGuard, user: UserId, sessionId: string, session: CheckoutSession, faults: StoreFaults, s: Store)
    requires user != "" && sessionId != ""
    requires EventKey(sessionId) !in s.processed && !faults.selectProcessedFails
    requires CheckSession(guard, user, session).Reject?
    ensures var o := VerifyPayment(guard, Request(Some(user), Parsed(Some(sessionId))), Retrieved(session), faults, s);
            && o.response == CheckSession(guard, user, session).response
            && o.store == s
            && o.calls == [SelectProcessed(EventKey(sessionId)), RetrieveSession(sessionId)]
            && (session.metadataUserId != Some(user) ==> o.response == BadRequest("Invalid session"))
            && (session.metadataUserId == Some(user) && session.paymentStatus != Paid ==> o.response == BadRequest("Payment not completed"))
            && (session.metadataUserId == Some(user) && session.paymentStatus == Paid ==> o.response == BadRequest("Invalid credits amount"))
  {
  }

  /** The full pipeline: the caller's balance (0 when absent) grows by exactly the
      session's amount, the session's marker is added recording the caller and the
      amount, nothing else changes, and the five calls are made in order. */
  lemma PaidSessionCredited(guard: CreditsGuard, user: UserId, sessionId: string, session: CheckoutSession, n: int, s: Store)
    requires user != "" && sessionId != ""
    requires EventKey(sessionId) !in s.processed
    requires session.metadataUserId == Some(user) && session.paymentStatus == Paid
    requires CreditsAmount(session.metadataCredits) == Some(n)
    ensures var key := EventKey(sessionId);
            var o := VerifyPayment(guard, Request(Some(user), Parsed(Some(sessionId))), Retrieved(session), NoFaults, s);
            && o.response == OkSuccess
            && Balance(o.store, user) == Balance(s, user) + n
            && o.store.balances - {user} == s.balances - {user}
            && o.store.processed == s.processed[key := Award(user, Number(n))]
            && o.calls == [SelectProcessed(key), RetrieveSession(sessionId), SelectBalance(user),
                           UpsertBalance(user, Number(Balance(s, user) + n)), InsertProcessed(key, Award(user, Number(n)))]
  {
  }

  /** When the upsert fails, the 500 leaves the store as it was. */
  lemma UpsertFailureChangesNothing(guard: CreditsGuard, user: UserId, sessionId: string, session: CheckoutSession, faults: StoreFaults, s: Store)
    requires user != "" && sessionId != ""
    requires EventKey(sessionId) !in s.processed && !faults.selectProcessedFails && !faults.selectBalanceFails
    requires CheckSession(guard, user, session).Accept?
    requires faults.upsertFails
    ensures var o := VerifyPayment(guard, Request(Some(user), Parsed(Some(sessionId))), Retrieved(session), faults, s);
            o.response == ServerError("Error adding credits") && o.store == s
  {
    VerifyUnmarkedAccepted(guard, user, sessionId, session, faults, s);
    VerifyPaymentUnmarked(guard, Some(user), sessionId, Retrieved(session), faults, s);
  }

  /** When the insert fails after the upsert, the 500 leaves the caller credited
      (with the sum, or with null when the credits are NaN) and the session
      unmarked. */
  lemma InsertFailureKeepsCredit(guard: CreditsGuard, user: UserId, sessionId: string, session: CheckoutSession, faults: StoreFaults, s: Store)
    requires user != "" && sessionId != ""
    requires EventKey(sessionId) !in s.processed
    requires !faults.selectProcessedFails && !faults.selectBalanceFails && !faults.upsertFails && faults.insertFails
    requires CheckSession(guard, user, session).Accept?
    ensures var o := VerifyPayment(guard, Request(Some(user), Parsed(Some(sessionId))), Retrieved(session), faults, s);
            && o.response == ServerError("Error marking event as processed")
            && o.store.processed == s.processed
            && var amount := CheckSession(guard, user, session).credits;
               && o.store.balances == s.balances[user := AsCell(Plus(Balance(s, user), amount))]
               && (amount.Num? ==> Balance(o.store, user) == Balance(s, user) + amount.value)
  {
    VerifyUnmarkedAccepted(guard, user, sessionId, session, faults, s);
    VerifyPaymentUnmarked(guard, Some(user), sessionId, Retrieved(session), faults, s);
  }

  // ---------------------------------------------------------------------------
  // Credits that do not parse

  /** What any request does to the caller's balance: a change adds the parsed
      credits, and NaN credits (admitted only as written) leave a null cell, so
      the balance then reads 0 whatever it was. */
  lemma BalanceChangeIsParsedCredits(guard: CreditsGuard, req: Request, stripe: Retrieval, faults: StoreFaults, s: Store)
    ensures var o := VerifyPayment(guard, req, stripe, faults, s);
            o.store != s ==>
              && stripe.Retrieved? && Caller(req.auth).Some?
              && var user := req.auth.value;
                 var p := ParseInt(CreditsText(stripe.session.metadataCredits));
                 && o.store.balances - {user} == s.balances - {user}
                 && (p.Num? ==> p.value > 0 && Balance(o.store, user) == Balance(s, user) + p.value)
                 && (p.NaN? ==> guard == AsWritten && user in o.store.balances && o.store.balances[user] == Null
                                && Balance(o.store, user) == 0)
  {
  }

  /** As written, a paid session of the caller whose credits do not parse is
      accepted: the upsert sends NaN, which JSON writes as null, so the caller's
      balance is wiped (both routes read it as 0), and the session is marked with
      null credits and answered with success. */
  lemma NaNCreditsWipeBalance(user: UserId, sessionId: string, session: CheckoutSession, s: Store)
    requires user != "" && sessionId != ""
    requires EventKey(sessionId) !in s.processed
    requires session.metadataUserId == Some(user) && session.paymentStatus == Paid
    requires ParseInt(CreditsText(session.metadataCredits)).NaN?
    ensures var key := EventKey(sessionId);
            var o := VerifyPayment(AsWritten, Request(Some(user), Parsed(Some(sessionId))), Retrieved(session), NoFaults, s);
            && o.response == OkSuccess
            && o.store == Store(s.balances[user := Null], s.processed[key := Award(user, Null)])
            && CreditsRoute.GetCredits(Some(user), false, o.store).response == Response(200, CreditsBody(0))
  {
  }

  /** With the guard corrected, the same session is "Invalid credits amount" and
      nothing is written, whatever the store calls would have done. */
  lemma CorrectedRejectsNaN(user: UserId, sessionId: string, session: CheckoutSession, faults: StoreFaults, s: Store)
    requires user != "" && sessionId != ""
    requires EventKey(sessionId) !in s.processed && !faults.selectProcessedFails
    requires session.metadataUserId == Some(user) && session.paymentStatus == Paid
    requires ParseInt(CreditsText(session.metadataCredits)).NaN?
    ensures var o := VerifyPayment(RejectingNaN, Request(Some(user), Parsed(Some(sessionId))), Retrieved(session), faults, s);
            && o.response == BadRequest("Invalid credits amount")
            && o.store == s
            && o.calls == [SelectProcessed(EventKey(sessionId)), RetrieveSession(sessionId)]
  {
    RejectedSessionWritesNothing(RejectingNaN, user, sessionId, session, faults, s);
  }

  /** The correction changes nothing on a request whose session credits parse to
      a number (or whose session is never retrieved). */
  lemma CorrectionAgreesOnNumbers(req: Request, stripe: Retrieval, faults: StoreFaults, s: Store)
    requires stripe.Retrieved? ==> ParseInt(CreditsText(stripe.session.metadataCredits)).Num?
    ensures VerifyPayment(AsWritten, req, stripe, faults, s) == VerifyPayment(RejectingNaN, req, stripe, faults, s)
  {
    if stripe.Retrieved? && Caller(req.auth).Some? {
      GuardsAgreeOnNumbers(req.auth.value, stripe.session);
    }
  }

  // ---------------------------------------------------------------------------
  // Across requests

  /** After any successful verification, verifying the same session again
      succeeds without calling Stripe and changes nothing, whoever asks. */
  lemma SecondVerifyChangesNothing(guard: CreditsGuard, req: Request, stripe: Retrieval, faults: StoreFaults, s: Store,
                                   guard': CreditsGuard, again: Request, stripe': Retrieval, faults': StoreFaults)
    requires VerifyPayment(guard, req, stripe, faults, s).response.status == 200
    requires Caller(again.auth).Some? && SessionIdOf(again.body) == SessionIdOf(req.body)
    requires !faults'.selectProcessedFails
    ensures var first := VerifyPayment(guard, req, stripe, faults, s);
            var second := VerifyPayment(guard', again, stripe', faults', first.store);
            && second.response == OkSuccess
            && second.store == first.store
            && second.calls == [SelectProcessed(EventKey(SessionIdOf(req.body).value))]
  {
  }

  /** After a successful verification, the balance route reports the credited
      balance. */
  lemma VerifyThenGetShowsCredit(guard: CreditsGuard, user: UserId, sessionId: string, session: CheckoutSession, n: int, s: Store)
    requires user != "" && sessionId != ""
    requires EventKey(sessionId) !in s.processed
    requires session.metadataUserId == Some(user) && session.paymentStatus == Paid
    requires CreditsAmount(session.metadataCredits) == Some(n)
    ensures var o := VerifyPayment(guard, Request(Some(user), Parsed(Some(sessionId))), Retrieved(session), NoFaults, s);
            CreditsRoute.GetCredits(Some(user), false, o.store).response == Response(200, CreditsBody(Balance(s, user) + n))
  {
    PaidSessionCredited(guard, user, sessionId, session, n, s);
  }

  /** One request of a sequence, with the outcomes of its external calls. */
  datatype Attempt = Attempt(req: Request, stripe: Retrieval, faults: StoreFaults)

  /** The store after a sequence of requests, and the markers of the sessions
      credited along the way, in order (a credit is any change of balances). */
  datatype History = History(store: Store, credited: seq<string>)

  function CreditedBy(guard: CreditsGuard, a: Attempt, s: Store): seq<string>
  {
    var o := VerifyPayment(guard, a.req, a.stripe, a.faults, s);
    if o.store.balances != s.balances && SessionIdOf(a.req.body).Some? then [EventKey(SessionIdOf(a.req.body).value)] else []
  }

  /** Runs the requests one after another from `s`. Markers are never removed or
      rewritten along the way. */
  function Run(guard: CreditsGuard, attempts: seq<Attempt>, s: Store): (h: History)
    ensures forall k :: k in s.processed ==> k in h.store.processed && h.store.processed[k] == s.processed[k]
    decreases |attempts|
  {
    if attempts == [] then History(s, [])
    else
      var a := attempts[0];
      var o := VerifyPayment(guard, a.req, a.stripe, a.faults, s);
      var rest := Run(guard, attempts[1..], o.store);
      History(rest.store, CreditedBy(guard, a, s) + rest.credited)
  }

  /** What one request of a run contributes: a credited session was unmarked
      before and, without an insert failure, is marked after; no marker is lost. */
  lemma StepFacts(guard: CreditsGuard, a: Attempt, s: Store)
    ensures var o := VerifyPayment(guard, a.req, a.stripe, a.faults, s);
            && |CreditedBy(guard, a, s)| <= 1
            && (forall k :: k in s.processed ==> k in o.store.processed)
            && (forall k :: k in CreditedBy(guard, a, s) ==> k !in s.processed && (!a.faults.insertFails ==> k in o.store.processed))
  {
  }

  predicate Distinct(xs: seq<string>)
  {
    forall i, j :: 0 <= i < j < |xs| ==> xs[i] != xs[j]
  }

  /** At most one marked key in front of distinct unmarked keys keeps them distinct. */
  lemma DistinctPrepend(head: seq<string>, rest: seq<string>, marked: set<string>)
    requires |head| <= 1 && Distinct(rest)
    requires forall k :: k in head ==> k in marked
    requires forall k :: k in rest ==> k !in marked
    ensures Distinct(head + rest)
  {
    var c := head + rest;
    forall i, j | 0 <= i < j < |c|
      ensures c[i] != c[j]
    {
      assert c[j] == rest[j - |head|] && c[j] in rest;
      if i < |head| {
        assert c[i] == head[i] && c[i] in head;
      } else {
        assert c[i] == rest[i - |head|];
      }
    }
  }

  /** Exactly-once crediting where the marker insert never fails: over any
      sequence of requests, each session is credited at most once, only if it was
      not marked at the start, and it ends up marked. */
  lemma {:induction false} CreditedAtMostOnce(guard: CreditsGuard, attempts: seq<Attempt>, s: Store)
    requires forall i :: 0 <= i < |attempts| ==> !attempts[i].faults.insertFails
    ensures var h := Run(guard, attempts, s);
            && Distinct(h.credited)
            && (forall k :: k in h.credited ==> k !in s.processed && k in h.store.processed)
    decreases |attempts|
  {
    if attempts != [] {
      var a := attempts[0];
      var next := VerifyPayment(guard, a.req, a.stripe, a.faults, s).store;
      StepFacts(guard, a, s);
      CreditedAtMostOnce(guard, attempts[1..], next);
      var head := CreditedBy(guard, a, s);
      var rest := Run(guard, attempts[1..], next);
      assert Run(guard, attempts, s) == History(rest.store, head + rest.credited);
      DistinctPrepend(head, rest.credited, next.processed.Keys);
      forall k | k in head + rest.credited
        ensures k !in s.processed && k in rest.store.processed
      {
        if k in head {
          assert k in next.processed;
        } else {
          assert k in rest.credited;
        }
      }
    }
  }

  /** A run of two requests is the first, then the second from where it left off. */
  lemma RunOfTwo(guard: CreditsGuard, a: Attempt, b: Attempt, s: Store)
    ensures var mid := VerifyPayment(guard, a.req, a.stripe, a.faults, s).store;
            Run(guard, [a, b], s) == History(VerifyPayment(guard, b.req, b.stripe, b.faults, mid).store, CreditedBy(guard, a, s) + CreditedBy(guard, b, mid))
  {
    var mid := VerifyPayment(guard, a.req, a.stripe, a.faults, s).store;
    var last := VerifyPayment(guard, b.req, b.stripe, b.faults, mid).store;
    assert Run(guard, [b], mid) == History(last, CreditedBy(guard, b, mid)) by {
      assert [b][1..] == [];
      assert CreditedBy(guard, b, mid) + [] == CreditedBy(guard, b, mid);
    }
    assert [a, b][1..] == [b];
  }

  /** The first half of the gap: a credit with a failed insert leaves the session
      unmarked, and counts as a credit of that session. */
  lemma CreditWithoutMarker(guard: CreditsGuard, user: UserId, sessionId: string, session: CheckoutSession, n: int, s: Store)
    requires user != "" && sessionId != ""
    requires EventKey(sessionId) !in s.processed
    requires session.metadataUserId == Some(user) && session.paymentStatus == Paid
    requires CreditsAmount(session.metadataCredits) == Some(n)
    ensures var failed := Attempt(Request(Some(user), Parsed(Some(sessionId))), Retrieved(session), NoFaults.(insertFails := true));
            var first := VerifyPayment(guard, failed.req, failed.stripe, failed.faults, s);
            && CreditedBy(guard, failed, s) == [EventKey(sessionId)]
            && first.store.processed == s.processed
            && Balance(first.store, user) == Balance(s, user) + n
  {
    InsertFailureKeepsCredit(guard, user, sessionId, session, NoFaults.(insertFails := true), s);
  }

  /** The at-least-once gap: when the marker insert fails after the credit, a
      retry of the same request credits the same session a second time. */
  lemma RetryAfterInsertFailureCreditsTwice(guard: CreditsGuard, user: UserId, sessionId: string, session: CheckoutSession, n: int, s: Store)
    requires user != "" && sessionId != ""
    requires EventKey(sessionId) !in s.processed
    requires session.metadataUserId == Some(user) && session.paymentStatus == Paid
    requires CreditsAmount(session.metadataCredits) == Some(n)
    ensures var req := Request(Some(user), Parsed(Some(sessionId)));
            var failed := Attempt(req, Retrieved(session), NoFaults.(insertFails := true));
            var retry := Attempt(req, Retrieved(session), NoFaults);
            var h := Run(guard, [failed, retry], s);
            && h.credited == [EventKey(sessionId), EventKey(sessionId)]
            && Balance(h.store, user) == Balance(s, user) + 2 * n
  {
    var req := Request(Some(user), Parsed(Some(sessionId)));
    var failed := Attempt(req, Retrieved(session), NoFaults.(insertFails := true));
    var retry := Attempt(req, Retrieved(session), NoFaults);
    var mid := VerifyPayment(guard, req, Retrieved(session), failed.faults, s).store;
    CreditWithoutMarker(guard, user, sessionId, session, n, s);
    PaidSessionCredited(guard, user, sessionId, session, n, mid);
    RunOfTwo(guard, failed, retry, s);
  }
}
