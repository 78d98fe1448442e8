/**
 * What every server action shares: the caller's identity as the identity provider reports it,
 * the errors an action throws, and the field constraints its input schema checks.
 */
module Protocol {
  import opened Outcomes

  /** What the identity provider reports for one request: the user id and the `unlimited_decks` feature. */
  datatype Auth = Auth(userId: Option<string>, unlimitedDecks: bool)

  /** `userId` is truthy: present and not the empty string. */
  predicate SignedIn(userId: Option<string>): (b: bool)
    ensures b <==> userId.Some? && |userId.value| > 0
  {
    userId.Some? && userId.value != ""
  }

  /** The fields the input schemas name. */
  datatype Field = Id | DeckId | Name | Description | Front | Back

  /** One failed check of an input schema; a validation error carries all of them, in schema order. */
  datatype Issue =
    | TooShort(field: Field)     // `.min(...)`: "... is required"
    | TooLong(field: Field)      // `.max(...)`: "... is too long"
    | NotPositive(field: Field)  // `.positive()` on an id

  /** The errors the actions throw. */
  datatype ActionError =
    | Unauthorized                         // no signed-in user
    | ValidationFailed(issues: seq<Issue>) // the input schema rejected the input
    | DeckLimitReached                     // free plan already owns the maximum number of decks
    | Forbidden                            // the row is missing or owned by someone else

  /** The checks `z.string().min(min).max(max)` makes, by string length. */
  function TextIssues(field: Field, s: string, min: nat, max: nat): (r: seq<Issue>)
    ensures r == [] <==> min <= |s| <= max
    ensures forall i :: 0 <= i < |r| ==> r[i].field == field
  {
    (if |s| < min then [TooShort(field)] else []) + (if |s| > max then [TooLong(field)] else [])
  }

  /** The same checks behind `.optional()`: an absent field passes. */
  function OptionalTextIssues(field: Field, s: Option<string>, min: nat, max: nat): (r: seq<Issue>)
    ensures r == [] <==> (s.Some? ==> min <= |s.value| <= max)
  {
    if s.Some? then TextIssues(field, s.value, min, max) else []
  }

  /** The check `z.number().int().positive()` makes of an id. */
  function IdIssues(field: Field, id: int): (r: seq<Issue>)
    ensures r == [] <==> id > 0
  {
    if id > 0 then [] else [NotPositive(field)]
  }
}
