/** The backing store of both routes: the `user_credits` table (one balance per
    user) and the `processed_stripe_events` table (one marker per credited
    checkout session), with the point reads and writes the routes make on them.
    A store call that fails for a reason other than "no row" is an input flag. */
module Ledger {
  import opened Wrappers
  import opened JsNumbers

  /** The opaque subject id the identity provider hands out. */
  type UserId = string

  /** A numeric cell: a number, or null. */
  datatype Cell = Number(value: int) | Null

  /** `x || 0` on a cell: null (and 0) read as 0. */
  function OrZero(c: Cell): int
  {
    if c.Number? then c.value else 0
  }

  /** The cell a number is written as. Requests to the store are JSON, and
      `JSON.stringify` writes NaN as null. */
  function AsCell(x: JsInt): Cell
  {
    match x
    case NaN => Null
    case Num(n) => Number(n)
  }

  /** A `processed_stripe_events` row: whom a session credited, and how much. */
  datatype Award = Award(user: UserId, credits: Cell)

  datatype Store = Store(balances: map<UserId, Cell>, processed: map<string, Award>)

  /** Outcome of a `.single()` point read: the row, no row (error code PGRST116),
      or any other error. */
  datatype Read<T> = Found(row: T) | NotFound | ReadError

  /** The store and payment-processor calls a request makes, in the order made. */
  datatype Call =
    | SelectProcessed(key: string)
    | RetrieveSession(sessionId: string)
    | SelectBalance(user: UserId)
    | UpsertBalance(user: UserId, credits: Cell)
    | InsertProcessed(key: string, award: Award)
  {
    predicate IsWrite()
    {
      UpsertBalance? || InsertProcessed?
    }
  }

  predicate NoWrites(calls: seq<Call>)
  {
    forall i :: 0 <= i < |calls| ==> !calls[i].IsWrite()
  }

  /** A user's balance as both routes read it, `credits || 0`: a user without a
      row, or with a null cell, has 0 credits. */
  function Balance(s: Store, u: UserId): int
  {
    if u in s.balances then OrZero(s.balances[u]) else 0
  }

  /** Every stored balance is non-negative. */
  predicate NonNegative(s: Store)
  {
    forall u :: u in s.balances ==> OrZero(s.balances[u]) >= 0
  }

  /** `select('credits').eq('user_id', u).single()`. */
  function ReadBalance(s: Store, u: UserId, fails: bool): (r: Read<Cell>)
    ensures r.Found? ==> Balance(s, u) == OrZero(r.row)
    ensures r.NotFound? ==> Balance(s, u) == 0
    ensures r.ReadError? <==> fails
  {
    if fails then ReadError else if u in s.balances then Found(s.balances[u]) else NotFound
  }

  /** `select('*').eq('event_id', key).single()`. */
  function ReadMarker(s: Store, key: string, fails: bool): Read<Award>
  {
    if fails then ReadError else if key in s.processed then Found(s.processed[key]) else NotFound
  }

  /** `upsert({user_id: u, credits: v})` on `user_credits`: creates or overwrites
      the row of `u` only. */
  function Upsert(s: Store, u: UserId, v: Cell): (t: Store)
    ensures u in t.balances && t.balances[u] == v && Balance(t, u) == OrZero(v)
    ensures t.balances - {u} == s.balances - {u}
    ensures t.processed == s.processed
  {
    s.(balances := s.balances[u := v])
  }

  /** `insert({event_id: key, ...})` on `processed_stripe_events`. The table's
      unique key rejects a second row for the same key. */
  function Insert(s: Store, key: string, a: Award, fails: bool): (r: Option<Store>)
    ensures r.Some? <==> !fails && key !in s.processed
    ensures r.Some? ==> r.value.balances == s.balances
    ensures r.Some? ==> r.value.processed.Keys == s.processed.Keys + {key} && r.value.processed[key] == a
    ensures r.Some? ==> forall k :: k in s.processed ==> r.value.processed[k] == s.processed[k]
  {
    if fails || key in s.processed then None
    else Some(s.(processed := s.processed[key := a]))
  }

  /** `t` differs from `s` at most in `user`'s balance and in a new marker under
      `key`; no marker is removed or rewritten. */
  predicate ChangesAtMost(s: Store, t: Store, user: UserId, key: string)
  {
    && t.balances - {user} == s.balances - {user}
    && (forall k :: k in s.processed ==> k in t.processed && t.processed[k] == s.processed[k])
    && t.processed.Keys <= s.processed.Keys + {key}
  }
}
