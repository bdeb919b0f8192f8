/** `app/api/credits/route.ts`: read the caller's balance, or set it directly. */
module CreditsRoute {
  import opened Wrappers
  import opened Ledger
  import opened Http

  /** The `credits` field of the POST body as `typeof credits` sees it. */
  datatype CreditsField = NumberField(value: int) | NotANumber

  /** GET: the caller's balance, 0 when the caller has no row. The store is never
      written, and the one read is made only for a signed-in caller. */
  function GetCredits(auth: Option<string>, selectFails: bool, s: Store): (o: Outcome)
    ensures o.store == s
    ensures o.response.status in {200, 401, 500}
    ensures o.response.status == 401 <==> auth.None? || auth.value == ""
    ensures o.response.status == 401 ==> o.calls == []
    ensures o.response.status != 401 ==> o.calls == [SelectBalance(auth.value)]
    ensures o.response.status == 500 <==> (auth.Some? && auth.value != "") && selectFails
    ensures o.response.status == 200 ==> o.response.payload == CreditsBody(Balance(s, auth.value))
  {
    match Caller(auth)
    case None => Outcome(Unauthorized, s, [])
    case Some(user) =>
      var calls := [SelectBalance(user)];
      match ReadBalance(s, user, selectFails)
      case ReadError => Outcome(ServerError("Error fetching credits"), s, calls)
      case NotFound => Outcome(Response(200, CreditsBody(0)), s, calls)
      case Found(v) => Outcome(Response(200, CreditsBody(OrZero(v))), s, calls)
  }

  /** POST: validate the requested value, then overwrite the caller's balance with
      it. Only the caller's balance can change, it becomes exactly the requested
      value whatever it was before, and nothing is written on any rejection. */
  function PostCredits(auth: Option<string>, body: JsonBody<CreditsField>, upsertFails: bool, s: Store): (o: Outcome)
    ensures o.response.status in {200, 400, 401, 500}
    ensures o.response.status == 401 <==> auth.None? || auth.value == ""
    ensures o.response.status == 401 ==> o.calls == []
    ensures o.response.status == 400 <==> (auth.Some? && auth.value != "") && body.Parsed? && (body.field.NotANumber? || body.field.value < 0)
    ensures o.response.status != 200 ==> o.store == s
    ensures o.response.status == 200 <==>
              (auth.Some? && auth.value != "") && body.Parsed? && body.field.NumberField? && body.field.value >= 0 && !upsertFails
    ensures o.response.status == 200 ==>
              var user := auth.value;
              var v := body.field.value;
              && o.response.payload == SuccessWithCredits(v)
              && user in o.store.balances && o.store.balances[user] == Number(v)
              && Balance(o.store, user) == v
              && o.store.balances - {user} == s.balances - {user}
              && o.store.processed == s.processed
    ensures NonNegative(s) ==> NonNegative(o.store)
  {
    match Caller(auth)
    case None => Outcome(Unauthorized, s, [])
    case Some(user) =>
      match body
      case Unparsable => Outcome(ServerError("Unexpected error updating credits"), s, [])
      case Parsed(field) =>
        if field.NotANumber? || field.value < 0 then Outcome(BadRequest("Invalid credits value"), s, [])
        else
          var v := field.value;
          var calls := [UpsertBalance(user, Number(v))];
          if upsertFails then Outcome(ServerError("Error updating credits"), s, calls)
          else Outcome(Response(200, SuccessWithCredits(v)), Upsert(s, user, Number(v)), calls)
  }

  /** A signed-in caller without a balance row reads 0. */
  lemma GetWithoutRowIsZero(user: UserId, s: Store)
    requires user != "" && user !in s.balances
    ensures GetCredits(Some(user), false, s).response == Response(200, CreditsBody(0))
  {
  }

  /** A stored balance is read back as stored, and a null cell as 0. */
  lemma GetReturnsStoredBalance(user: UserId, s: Store)
    requires user != "" && user in s.balances
    ensures var c := s.balances[user];
            GetCredits(Some(user), false, s).response == Response(200, CreditsBody(if c.Number? then c.value else 0))
  {
  }

  /** A value that is not a number, or is negative, is rejected with nothing written. */
  lemma InvalidCreditsRejected(user: UserId, field: CreditsField, upsertFails: bool, s: Store)
    requires user != ""
    requires field.NotANumber? || field.value < 0
    ensures var o := PostCredits(Some(user), Parsed(field), upsertFails, s);
            o.response == BadRequest("Invalid credits value") && o.store == s && o.calls == []
  {
  }

  /** Setting a value and then reading it gives the value back, and the set does
      not depend on the previous balance (it is not an increment). */
  lemma SetThenGetRoundTrip(user: UserId, v: int, s: Store)
    requires user != "" && v >= 0
    ensures var o := PostCredits(Some(user), Parsed(NumberField(v)), false, s);
            && o.response == Response(200, SuccessWithCredits(v))
            && GetCredits(Some(user), false, o.store).response == Response(200, CreditsBody(v))
  {
  }
}
