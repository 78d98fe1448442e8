/**
 * The deck server actions. Each runs a fixed sequence of guarded steps — authenticate, validate the input
 * schema, check ownership or the free-plan quota — and only then mutates the store. The first failing step
 * throws; an action that throws changes nothing.
 */
module DeckActions {
  import opened Outcomes
  import opened Protocol
  import opened Schema
  import opened DeckQueries

  /** The number of decks a user without the `unlimited_decks` feature may own. */
  const FreeDeckLimit: nat := 3

  datatype CreateDeckInput = CreateDeckInput(name: string, description: Option<string>)
  datatype UpdateDeckInput = UpdateDeckInput(id: int, name: Option<string>, description: Option<string>)
  datatype DeleteDeckInput = DeleteDeckInput(id: int)

  /** The create schema: a name of 1 to 100 characters and, when given, a description of at most 500. */
  function CreateDeckIssues(input: CreateDeckInput): (r: seq<Issue>)
    ensures r == [] <==> 1 <= |input.name| <= 100 && (input.description.Some? ==> |input.description.value| <= 500)
  {
    TextIssues(Name, input.name, 1, 100) + OptionalTextIssues(Description, input.description, 0, 500)
  }

  /** The update schema: a positive id and the create bounds on whichever of name and description are given. */
  function UpdateDeckIssues(input: UpdateDeckInput): (r: seq<Issue>)
    ensures r == [] <==>
      && input.id > 0
      && (input.name.Some? ==> 1 <= |input.name.value| <= 100)
      && (input.description.Some? ==> |input.description.value| <= 500)
  {
    IdIssues(Id, input.id) + OptionalTextIssues(Name, input.name, 1, 100)
      + OptionalTextIssues(Description, input.description, 0, 500)
  }

  /** The delete schema: a positive id. The card actions declare a schema of their own with the same check. */
  function DeleteDeckIssues(input: DeleteDeckInput): (r: seq<Issue>)
    ensures r == [] <==> input.id > 0
  {
    IdIssues(Id, input.id)
  }

  /** `description || null`: an absent and an empty description are both stored as NULL. */
  function StoredDescription(description: Option<string>): (r: Option<string>)
    ensures r.None? <==> description.None? || description.value == ""
    ensures r.Some? ==> r == description
  {
    if description.Some? && description.value != "" then description else None
  }

  /** `userId` owns the deck with id `deckId`, which exists. */
  predicate OwnsDeck(decks: map<int, Deck>, deckId: int, userId: string) {
    deckId in decks && decks[deckId].userId == userId
  }

  /** The ownership step: `!deck || deck.userId !== userId` rejects. */
  function DeckOwnershipFails(decks: map<int, Deck>, deckId: int, userId: string): (fails: bool)
    requires DecksKeyed(decks)
    ensures fails <==> !OwnsDeck(decks, deckId, userId)
  {
    var deck := GetDeckById(decks, deckId);
    deck.None? || deck.value.userId != userId
  }

  /**
   * The first step of `createDeckAction` that throws, or `None` when every step passes: authentication, then
   * the schema, then — only without the feature — the quota.
   */
  function CreateDeckRejection(decks: map<int, Deck>, auth: Auth, input: CreateDeckInput): (r: Option<ActionError>)
    requires DecksKeyed(decks)
    ensures !SignedIn(auth.userId) ==> r == Some(Unauthorized)
    ensures SignedIn(auth.userId) && CreateDeckIssues(input) != [] ==> r == Some(ValidationFailed(CreateDeckIssues(input)))
    ensures r == Some(DeckLimitReached) <==>
      && SignedIn(auth.userId) && CreateDeckIssues(input) == []
      && !auth.unlimitedDecks && |OwnedIds(decks, auth.userId.value)| >= FreeDeckLimit
    ensures r.None? <==>
      && SignedIn(auth.userId) && CreateDeckIssues(input) == []
      && (auth.unlimitedDecks || |OwnedIds(decks, auth.userId.value)| < FreeDeckLimit)
  {
    if !SignedIn(auth.userId) then Some(Unauthorized)
    else if CreateDeckIssues(input) != [] then Some(ValidationFailed(CreateDeckIssues(input)))
    else if !auth.unlimitedDecks && GetDeckCount(decks, auth.userId.value) >= FreeDeckLimit then Some(DeckLimitReached)
    else None
  }

  /** The first step of `updateDeckAction` that throws: authentication, the schema, then ownership. */
  function UpdateDeckRejection(decks: map<int, Deck>, auth: Auth, input: UpdateDeckInput): (r: Option<ActionError>)
    requires DecksKeyed(decks)
    ensures !SignedIn(auth.userId) ==> r == Some(Unauthorized)
    ensures SignedIn(auth.userId) && UpdateDeckIssues(input) != [] ==> r == Some(ValidationFailed(UpdateDeckIssues(input)))
    ensures r == Some(Forbidden) <==>
      SignedIn(auth.userId) && UpdateDeckIssues(input) == [] && !OwnsDeck(decks, input.id, auth.userId.value)
    ensures r.None? <==>
      SignedIn(auth.userId) && UpdateDeckIssues(input) == [] && OwnsDeck(decks, input.id, auth.userId.value)
  {
    if !SignedIn(auth.userId) then Some(Unauthorized)
    else if UpdateDeckIssues(input) != [] then Some(ValidationFailed(UpdateDeckIssues(input)))
    else if DeckOwnershipFails(decks, input.id, auth.userId.value) then Some(Forbidden)
    else None
  }

  /** The first step of `deleteDeckAction` that throws: authentication, the schema, then ownership. */
  function DeleteDeckRejection(decks: map<int, Deck>, auth: Auth, input: DeleteDeckInput): (r: Option<ActionError>)
    requires DecksKeyed(decks)
    ensures !SignedIn(auth.userId) ==> r == Some(Unauthorized)
    ensures SignedIn(auth.userId) && DeleteDeckIssues(input) != [] ==> r == Some(ValidationFailed(DeleteDeckIssues(input)))
    ensures r == Some(Forbidden) <==>
      SignedIn(auth.userId) && DeleteDeckIssues(input) == [] && !OwnsDeck(decks, input.id, auth.userId.value)
    ensures r.None? <==>
      SignedIn(auth.userId) && DeleteDeckIssues(input) == [] && OwnsDeck(decks, input.id, auth.userId.value)
  {
    if !SignedIn(auth.userId) then Some(Unauthorized)
    else if DeleteDeckIssues(input) != [] then Some(ValidationFailed(DeleteDeckIssues(input)))
    else if DeckOwnershipFails(decks, input.id, auth.userId.value) then Some(Forbidden)
    else None
  }

  /**
   * The quota holds: a free-plan user whose creation is let through owns at most `FreeDeckLimit` decks
   * afterwards, and with the count below the limit the name is what decides.
   */
  lemma CreateKeepsQuota(decks: map<int, Deck>, auth: Auth, input: CreateDeckInput, d: Deck)
    requires DecksKeyed(decks) && d.id !in decks
    requires CreateDeckRejection(decks, auth, input).None? && !auth.unlimitedDecks
    requires d.userId == auth.userId.value
    ensures DecksKeyed(decks[d.id := d])
    ensures |OwnedIds(decks[d.id := d], auth.userId.value)| <= FreeDeckLimit
  {
    CountAfterInsert(decks, d, auth.userId.value);
  }

  /** An invalid name is reported as a validation error even by a user already at the limit. */
  lemma ValidationBeforeQuota(decks: map<int, Deck>, auth: Auth, input: CreateDeckInput)
    requires DecksKeyed(decks) && SignedIn(auth.userId) && !auth.unlimitedDecks
    requires |OwnedIds(decks, auth.userId.value)| >= FreeDeckLimit && |input.name| == 0
    ensures CreateDeckRejection(decks, auth, input) == Some(ValidationFailed(CreateDeckIssues(input)))
    ensures TooShort(Name) in CreateDeckIssues(input)
  {
    assert CreateDeckIssues(input)[0] == TooShort(Name);
  }

  /**
   * `createDeckAction`: on success exactly one deck is added, owned by the caller, with the validated name
   * and the stored form of the description; on any rejection nothing changes.
   */
  method CreateDeckAction(db: Database, auth: Auth, input: CreateDeckInput, now: int)
    returns (r: Result<Deck, ActionError>)
    requires db.Valid()
    modifies db
    ensures db.Valid()
    ensures r.Failure? <==> CreateDeckRejection(old(db.decks), auth, input).Some?
    ensures r.Failure? ==> r.error == CreateDeckRejection(old(db.decks), auth, input).value && unchanged(db)
    ensures r.Success? ==>
      && r.value == Deck(old(db.nextDeckId), auth.userId.value, input.name, StoredDescription(input.description), now, now)
      && r.value.id !in old(db.decks)
      && db.decks == old(db.decks)[r.value.id := r.value]
      && db.cards == old(db.cards)
      && db.nextDeckId == old(db.nextDeckId) + 1 && db.nextCardId == old(db.nextCardId)
    ensures r.Success? && !auth.unlimitedDecks ==> |OwnedIds(db.decks, auth.userId.value)| <= FreeDeckLimit
  {
    var rejection := CreateDeckRejection(db.decks, auth, input);
    if rejection.Some? {
      return Failure(rejection.value);
    }
    ghost var before := db.decks;
    var deck := CreateDeck(db, auth.userId.value, input.name, StoredDescription(input.description), now);
    if !auth.unlimitedDecks {
      CreateKeepsQuota(before, auth, input, deck);
    }
    r := Success(deck);
  }

  /**
   * `updateDeckAction`: on success only the supplied name and description change (an empty description is
   * stored as given) and `updatedAt` is stamped; the owner stays the caller. On any rejection nothing changes.
   */
  method UpdateDeckAction(db: Database, auth: Auth, input: UpdateDeckInput, now: int)
    returns (r: Result<Deck, ActionError>)
    requires db.Valid()
    modifies db
    ensures db.Valid()
    ensures r.Failure? <==> UpdateDeckRejection(old(db.decks), auth, input).Some?
    ensures r.Failure? ==> r.error == UpdateDeckRejection(old(db.decks), auth, input).value && unchanged(db)
    ensures r.Success? ==>
      var before := old(db.decks)[input.id];
      && r.value == before.(name := ToPatch(input.name).ApplyTo(before.name),
                            description := if input.description.Some? then Some(input.description.value)
                                           else before.description,
                            updatedAt := now)
      && r.value.userId == auth.userId.value
      && db.decks == old(db.decks)[input.id := r.value]
      && db.cards == old(db.cards)
      && db.nextDeckId == old(db.nextDeckId) && db.nextCardId == old(db.nextCardId)
  {
    var rejection := UpdateDeckRejection(db.decks, auth, input);
    if rejection.Some? {
      return Failure(rejection.value);
    }
    var description: Patch<Option<string>> := if input.description.Some? then Supplied(input.description) else Omitted;
    var updated := UpdateDeck(db, input.id, ToPatch(input.name), description, now);
    r := Success(updated.value);
  }

  /**
   * `deleteDeckAction`: on success the deck and, through the cascade, exactly its cards are gone; every other
   * deck and card stays. On any rejection nothing changes.
   */
  method DeleteDeckAction(db: Database, auth: Auth, input: DeleteDeckInput)
    returns (r: Result<(), ActionError>)
    requires db.Valid()
    modifies db
    ensures db.Valid()
    ensures r.Failure? <==> DeleteDeckRejection(old(db.decks), auth, input).Some?
    ensures r.Failure? ==> r.error == DeleteDeckRejection(old(db.decks), auth, input).value && unchanged(db)
    ensures r.Success? ==>
      && db.decks == old(db.decks) - {input.id}
      && db.cards == RemoveCardsOfDeck(old(db.cards), input.id)
      && db.nextDeckId == old(db.nextDeckId) && db.nextCardId == old(db.nextCardId)
  {
    var rejection := DeleteDeckRejection(db.decks, auth, input);
    if rejection.Some? {
      return Failure(rejection.value);
    }
    DeleteDeck(db, input.id);
    r := Success(());
  }
}
