# Credits ledger: the balance and payment-verification routes

A model of the two server routes behind a credits-based payment feature:

- `app/api/credits/route.ts` — `GET` reads the signed-in caller's credit
  balance (0 when the caller has no row); `POST` sets it to a requested
  non-negative number.
- `app/api/verify-payment/route.ts` — `POST` takes a checkout-session id,
  short-circuits when a `processed_stripe_events` marker `session_<id>` already
  exists, otherwise retrieves the session from Stripe, checks that it belongs
  to the caller and is paid, rejects a `credits` amount in its metadata that
  parses to a non-positive number (one that does not parse gets through; see
  Findings), adds that amount to the caller's `user_credits` row and inserts the
  marker.

Each handler is a pure function from its inputs and a `Store` (the two tables
as maps) to an `Outcome`: the JSON response (status and body), the store
afterwards, and the sequence of external calls made. Everything the routes get
from outside is an input value:

- the identity `getAuth` reports (`Option<string>`);
- the parsed JSON body, or `Unparsable` when `req.json()` throws;
- Stripe's answer (`Retrieved(session)` or `RetrieveFailed`);
- one fault flag per store call (`StoreFaults`), saying whether that call fails
  with an error other than "no row" (`PGRST116`).

Store reads are derived from the store, so a read always agrees with the state.
A `credits` cell holds a number or null; both routes read it through `|| 0`, so
null reads as 0. `parseInt` is modelled concretely after section 19.2.5 of
ECMA-262 (leading white space, sign, `0x` prefix, longest digit prefix, NaN when
no digit), over exact integers. A number sent to the store goes as JSON, where
NaN becomes null.

The guard on the session's credits at `app/api/verify-payment/route.ts:65` is a
parameter of the route model (`CreditsGuard`): `AsWritten` is the route as it
stands, and `RejectingNaN` is its correction (see Findings). Lemmas that take a
`guard` hold for both. `NaNCreditsWipeBalance` and `CorrectedRejectsNaN` tell the
two apart. `CorrectionAgreesOnNumbers` shows they coincide whenever the credits
parse to a number.

Modules: `Wrappers` (Option), `JsNumbers` (parseInt and decimal rendering),
`Ledger` (the tables and their point reads and writes), `Http` (responses,
request body, caller), `CreditsRoute`, `VerifyPaymentRoute`, and
`VerifyPaymentProperties` (properties across paths and across requests).

Two consequences of the code that are easy to miss:

- The message "Invalid credits amount" at line 67 shows that metadata which
  does not parse is meant to be rejected. But `credits <= 0` lets NaN through,
  so as written such a session wipes the caller's balance (see Findings).
- A unique-key violation on the marker insert is answered, like any insert
  error, with a 500 after the balance was credited. Crediting is therefore
  exactly-once only when the marker insert succeeds: `CreditedAtMostOnce`
  assumes no insert failure, and `RetryAfterInsertFailureCreditsTwice` shows
  the double credit on retry.

## Model

| member | source | states |
|---|---|---|
| Ledger.ReadBalance | app/api/verify-payment/route.ts:71-79 | A balance read is an error exactly when the store call fails; a found cell reads, through `\|\| 0`, as the balance; no row means balance 0. |
| Ledger.Upsert | app/api/verify-payment/route.ts:84-90 | The upsert creates or overwrites only the given user's row, leaving other balances and all markers alone. |
| Ledger.Insert | app/api/verify-payment/route.ts:97-104 | The insert succeeds iff it does not fail and the key is new. It then adds exactly that key with the given row, keeping balances and every old marker. |
| CreditsRoute.GetCredits | app/api/credits/route.ts:12-41 | GET never writes. It answers 401 with no call iff `getAuth` gives no user id or an empty one, and 500 iff the caller's read fails. Otherwise it makes the one read and 200 carries the caller's balance, 0 without a row or for a null cell. |
| CreditsRoute.PostCredits | app/api/credits/route.ts:44-88 | POST answers 401 iff `getAuth` gives no user id or an empty one, and 400 iff the value is not a number or is negative. It answers 200 iff the value is valid and the upsert succeeds; then the caller's cell is exactly the value, nothing else changes, and the value is echoed. Any other answer leaves the store unchanged. Non-negative balances stay non-negative. |
| CreditsRoute.GetWithoutRowIsZero | app/api/credits/route.ts:25-29 | A caller without a row reads 0. |
| CreditsRoute.GetReturnsStoredBalance | app/api/credits/route.ts:33 | A stored number is read back as stored, and a null cell as 0. |
| CreditsRoute.InvalidCreditsRejected | app/api/credits/route.ts:57-62 | A non-number or negative value is rejected with "Invalid credits value", no call and no change. |
| CreditsRoute.SetThenGetRoundTrip | app/api/credits/route.ts:64-80 | Setting v ≥ 0 then reading returns v, whatever the previous balance was: it is a set, not an increment. |
| JsNumbers.TrimStartDropsWhiteSpace | app/api/verify-payment/route.ts:64 | The trimmed string is a suffix of the input; everything dropped is white space; what remains does not start with white space. |
| JsNumbers.DigitRunIsLongestDigitPrefix | app/api/verify-payment/route.ts:64 | The digit run is the longest prefix made only of digits of the radix. |
| JsNumbers.DigitsValueOfDecimal | app/api/verify-payment/route.ts:64 | Reading the decimal digits of n gives n back. |
| JsNumbers.ParseIntReadsDecimalPrefix | app/api/verify-payment/route.ts:64 | `parseInt` of an integer's decimal form followed by a non-digit (or nothing) yields that integer: the round trip of rendering and parsing. |
| JsNumbers.ParseIntOfDecimal | app/api/verify-payment/route.ts:64 | `parseInt` of an integer's decimal form yields that integer. |
| JsNumbers.ParseIntSkipsWhiteSpace | app/api/verify-payment/route.ts:64 | Leading white space does not change what `parseInt` reads. |
| JsNumbers.ParseIntWithoutDigitsIsNaN | app/api/verify-payment/route.ts:64 | The empty string, and a string whose first character is neither white space, a sign nor a decimal digit, parse to NaN. |
| VerifyPaymentRoute.EventKeyRoundTrip | app/api/verify-payment/route.ts:35 | The session id can be recovered from its marker key `session_<id>`. |
| VerifyPaymentRoute.SessionOfKeyRoundTrip | app/api/verify-payment/route.ts:100 | Every key with the prefix is the marker key of the session it encodes. |
| VerifyPaymentRoute.EventKeyInjective | app/api/verify-payment/route.ts:35 | Distinct sessions have distinct marker keys. |
| VerifyPaymentRoute.CreditsAmount | app/api/verify-payment/route.ts:64-68 | The corrected guard: a session awards n exactly when its metadata credits (or "0") parse to n > 0; NaN and non-positive values award nothing. |
| VerifyPaymentRoute.CreditsAmountOfDecimal | app/api/verify-payment/route.ts:64-68 | Metadata holding the decimal form of n awards n when n > 0 and nothing otherwise. |
| VerifyPaymentRoute.MissingCreditsAwardNothing | app/api/verify-payment/route.ts:64 | Absent or empty metadata credits fall back to "0" and award nothing. |
| VerifyPaymentRoute.AsWrittenAdmitsNaN | app/api/verify-payment/route.ts:64-65 | On metadata "ten", `parseInt` is NaN and the guard as written does not reject it, where the corrected amount does. |
| VerifyPaymentRoute.CorrectionOnlyAffectsNaN | app/api/verify-payment/route.ts:64-65 | On every metadata value that parses to a number, the corrected amount and the guard as written agree. |
| VerifyPaymentRoute.AdmittedAmount | app/api/verify-payment/route.ts:64-65 | The amount passed on is the `parseInt` result of the metadata credits. It is passed on iff it is not a non-positive number and, under the corrected guard, not NaN; a number passed on is positive. Under the corrected guard it agrees with `CreditsAmount`. |
| VerifyPaymentRoute.CheckSession | app/api/verify-payment/route.ts:58-68 | A session is accepted iff it belongs to the caller, is paid and its parsed credits pass the guard. It then awards exactly the parsed credits: a positive number, or NaN, and NaN only as written. Every rejection is a 400. |
| VerifyPaymentRoute.ForeignSessionIsInvalid | app/api/verify-payment/route.ts:58-61 | Another user's session is "Invalid session" whatever its payment status: ownership is checked first. |
| VerifyPaymentRoute.UnpaidSessionIsNotCompleted | app/api/verify-payment/route.ts:112-115 | The caller's unpaid session is "Payment not completed" whatever its metadata credits. |
| VerifyPaymentRoute.GuardsAgreeOnNumbers | app/api/verify-payment/route.ts:58-68 | On a session whose credits parse to a number, the checks decide alike under both guards. |
| VerifyPaymentRoute.MarkProcessed | app/api/verify-payment/route.ts:96-111 | The marker insert succeeds iff it does not fail and the key is new. Then the marker is added and the answer is success; otherwise the credited store stands and the answer is a 500. |
| VerifyPaymentRoute.AwardCredits | app/api/verify-payment/route.ts:70-111 | The calls are a prefix of read, upsert of old+amount, insert. The store changes at most at the caller and the key, and only on success or insert failure. Any change sets the caller's cell to old+amount, null for NaN. Success means exactly this marker, recording caller and amount, was added to an unmarked key. Every failure is a 500. |
| VerifyPaymentRoute.VerifyUnmarked | app/api/verify-payment/route.ts:48-115 | For an unmarked session, the calls start with the Stripe retrieve. A change happens only for a retrieved session the checks accept, and sets the caller's cell to old plus its credits. A 200 is plain success with the marker present. A credit without an insert failure leaves the marker, and the store changes only at the caller and the key. |
| VerifyPaymentRoute.VerifyPayment | app/api/verify-payment/route.ts:15-130 | The route answers 401 iff `getAuth` gives no user id or an empty one, and then makes no call. The calls follow the pipeline order; the first is the lookup of the body's non-empty `sessionId`, and Stripe is asked only about an unmarked session. A change needs a paid session of the caller whose credits pass the guard, and sets the caller's cell to old plus parsed credits (null for NaN, as written only). A credit happens only for an unmarked session and marks it unless the insert fails. A 200 means the marker is present. Non-negative balances stay non-negative. |
| VerifyPaymentProperties.AwardCreditsHealthy | app/api/verify-payment/route.ts:70-111 | Without faults, the award stage reads, upserts the sum (null for NaN), inserts the marker and succeeds. |
| VerifyPaymentProperties.VerifyUnmarkedAccepted | app/api/verify-payment/route.ts:48-68 | An accepted session goes on to the award stage after the one Stripe call. |
| VerifyPaymentProperties.VerifyUnmarkedRejected | app/api/verify-payment/route.ts:58-68 | A rejected session gets the check's response after the Stripe call, and the store is unchanged. |
| VerifyPaymentProperties.VerifyPaymentUnmarked | app/api/verify-payment/route.ts:31-46 | An unmarked session goes on past the marker lookup. |
| VerifyPaymentProperties.MissingSessionIdRejected | app/api/verify-payment/route.ts:23-27 | An absent or empty session id is "Missing session ID" before any call. |
| VerifyPaymentProperties.MarkedSessionShortCircuits | app/api/verify-payment/route.ts:43-46 | A marked session succeeds after only the marker lookup, whoever asks: Stripe is not called and nothing is written. |
| VerifyPaymentProperties.MarkerLookupErrorIsServerError | app/api/verify-payment/route.ts:38-41 | A failed marker lookup is the generic 500, before Stripe, with nothing written. |
| VerifyPaymentProperties.StripeFailureRejected | app/api/verify-payment/route.ts:50-56 | A session Stripe cannot retrieve is "Stripe session not found" with nothing written. |
| VerifyPaymentProperties.RejectedSessionWritesNothing | app/api/verify-payment/route.ts:58-68 | A session the checks reject writes nothing, with the three rejection reasons in order of precedence; as written, only a non-positive parsed amount reaches "Invalid credits amount". |
| VerifyPaymentProperties.PaidSessionCredited | app/api/verify-payment/route.ts:63-111 | A paid session of the caller with a positive amount adds exactly that amount to the caller's balance, records the marker with caller and amount, changes nothing else, and makes the five calls in order. |
| VerifyPaymentProperties.UpsertFailureChangesNothing | app/api/verify-payment/route.ts:91-94 | A failed upsert is "Error adding credits" with the store unchanged. |
| VerifyPaymentProperties.InsertFailureKeepsCredit | app/api/verify-payment/route.ts:105-108 | A failed insert is a 500 that leaves the caller's cell at old plus the credits (the sum for a number) and the session unmarked. |
| VerifyPaymentProperties.BalanceChangeIsParsedCredits | app/api/verify-payment/route.ts:64-90 | Any change a request makes sets only the caller's balance: up by the parsed credits when they are a number, and to a null cell that reads as 0 when they are NaN, which only the guard as written admits. |
| VerifyPaymentProperties.NaNCreditsWipeBalance | app/api/verify-payment/route.ts:64-111 | As written, a paid session of the caller with unparseable credits succeeds. It leaves the caller's cell null, so GET reads 0, and marks the session with null credits. |
| VerifyPaymentProperties.CorrectedRejectsNaN | app/api/verify-payment/route.ts:64-68 | Under the corrected guard, the same session is "Invalid credits amount" after the Stripe call, with nothing written. |
| VerifyPaymentProperties.CorrectionAgreesOnNumbers | app/api/verify-payment/route.ts:15-130 | On every request whose session credits parse to a number, or whose session is not retrieved, the route as written and the corrected route give the same outcome. |
| VerifyPaymentProperties.SecondVerifyChangesNothing | app/api/verify-payment/route.ts:43-46 | After a successful verification, verifying the same session again succeeds with only the marker lookup and no change. |
| VerifyPaymentProperties.VerifyThenGetShowsCredit | app/api/credits/route.ts:33 | After a successful verification, the balance route reports the old balance plus the amount. |
| VerifyPaymentProperties.Run | app/api/verify-payment/route.ts:97-104 | Over any sequence of requests, no marker is removed or rewritten. |
| VerifyPaymentProperties.StepFacts | app/api/verify-payment/route.ts:31-46 | One request credits at most one session. A credited session was unmarked before and, without an insert failure, is marked after. |
| VerifyPaymentProperties.CreditedAtMostOnce | app/api/verify-payment/route.ts:31-46 | When marker inserts never fail, any sequence of requests credits each session at most once, only if it started unmarked, and leaves it marked. |
| VerifyPaymentProperties.RunOfTwo | app/api/verify-payment/route.ts:15-130 | Two requests in a row are the first, then the second from the store the first left. |
| VerifyPaymentProperties.CreditWithoutMarker | app/api/verify-payment/route.ts:96-108 | A credit whose insert fails counts as a credit of that session and leaves it unmarked. |
| VerifyPaymentProperties.RetryAfterInsertFailureCreditsTwice | app/api/verify-payment/route.ts:80-108 | After an insert failure, a retry of the same request credits the session a second time, for 2n in all. |

## Left out

- The Clerk, Stripe and Supabase clients, environment variables and the
  `updated_at` / `processed_at` timestamps: calls become inputs and trace
  entries, and timestamps are not stored.
- Console logging and the `details` field of the 500 bodies: neither affects
  the state or the status.
- Concurrency: requests are applied one after another. Two interleaved
  verifications of the same session, which the unique marker key would partly
  catch, are not modelled.
- Numbers that are not integers: the `POST /api/credits` value and stored
  balances are integers or null, so fractional values are not modelled.
- Double precision: JavaScript numbers are doubles and lose precision beyond
  2^53. The model keeps exact integers for the `parseInt` result, for the sum
  `(currentCredits?.credits || 0) + credits` at line 80 of the verify-payment
  route, and for the value the credits `POST` stores.
- Whether the `credits` columns accept null: a write of null that the schema
  refuses is an upsert or insert failure, which the fault flags already cover.
- A `sessionId` that is a truthy non-string (a number, an object): the body
  field is modelled as an optional string.
- `getAuth` throwing. In the credits `POST` it runs outside the `try`, and a
  throw there would escape the handler's own error response.
- Which store error a `.single()` read reports when more than one row matches:
  both tables are keyed, so at most one row exists.
- VerifyPaymentRoute.AwardCredits: states the calls as a prefix of the full
  list, not which prefix goes with which failure; the single-path lemmas in
  `VerifyPaymentProperties` state the exact lists for the paths they cover.

## Findings

| source | as written | input that shows it | evidently intended | confidence | as-written member | corrected member |
|---|---|---|---|---|---|---|
| app/api/verify-payment/route.ts:64-65 | `credits <= 0` is the only guard on `parseInt(session.metadata?.credits \|\| '0')`, and every comparison with NaN is false | a paid session of the caller whose metadata credits are `"ten"`: `parseInt` gives NaN and the guard lets it through. The sum is NaN, which the JSON upsert sends as null. The outcome depends on whether the two `credits` columns accept null: `user_credits.credits` receives it at route.ts:88 and `processed_stripe_events.credits` at route.ts:102. If both accept it, the balance is wiped (both routes then read 0) and the session is marked with a 200. If only the balance column accepts it, the balance is wiped and the answer is a 500 "Error marking event as processed" with no marker. If the balance column refuses it, the answer is a 500 "Error adding credits" with no marker | metadata that does not parse is rejected with "Invalid credits amount", like a non-positive amount | not executed | VerifyPaymentProperties.NaNCreditsWipeBalance | VerifyPaymentProperties.CorrectedRejectsNaN |
