/**
 * The card server actions: authenticate, validate, check that the caller owns the parent deck, then mutate.
 * The first failing step throws and nothing changes.
 */
module CardActions {
  import opened Outcomes
  import opened Protocol
  import opened Schema
  import opened DeckQueries
  import opened CardQueries
  import opened DeckActions

  datatype CreateCardInput = CreateCardInput(deckId: int, front: string, back: string)
  datatype UpdateCardInput = UpdateCardInput(id: int, front: Option<string>, back: Option<string>)
  datatype DeleteCardInput = DeleteCardInput(id: int)

  /** The create schema: a positive deck id and both sides of 1 to 1000 characters. */
  function CreateCardIssues(input: CreateCardInput): (r: seq<Issue>)
    ensures r == [] <==> input.deckId > 0 && 1 <= |input.front| <= 1000 && 1 <= |input.back| <= 1000
  {
    IdIssues(DeckId, input.deckId) + TextIssues(Front, input.front, 1, 1000) + TextIssues(Back, input.back, 1, 1000)
  }

  /** The update schema: a positive id and the create bounds on whichever sides are given. */
  function UpdateCardIssues(input: UpdateCardInput): (r: seq<Issue>)
    ensures r == [] <==>
      && input.id > 0
      && (input.front.Some? ==> 1 <= |input.front.value| <= 1000)
      && (input.back.Some? ==> 1 <= |input.back.value| <= 1000)
  {
    IdIssues(Id, input.id) + OptionalTextIssues(Front, input.front, 1, 1000) + OptionalTextIssues(Back, input.back, 1, 1000)
  }

  /** The delete schema: a positive id. */
  function DeleteCardIssues(input: DeleteCardInput): (r: seq<Issue>)
    ensures r == [] <==> input.id > 0
  {
    IdIssues(Id, input.id)
  }

  /** `userId` owns the card with id `cardId`: the card exists and so does its deck, which `userId` owns. */
  predicate OwnsCard(cards: map<int, Card>, decks: map<int, Deck>, cardId: int, userId: string) {
    cardId in cards && OwnsDeck(decks, cards[cardId].deckId, userId)
  }

  /** The ownership step through the join: `!cardWithDeck || cardWithDeck.deck.userId !== userId` rejects. */
  function CardOwnershipFails(cards: map<int, Card>, decks: map<int, Deck>, cardId: int, userId: string): (fails: bool)
    requires CardsKeyed(cards) && DecksKeyed(decks)
    ensures fails <==> !OwnsCard(cards, decks, cardId, userId)
  {
    var joined := GetCardWithDeck(cards, decks, cardId);
    joined.None? || joined.value.1.userId != userId
  }

  /** The first step of `createCardAction` that throws: authentication, the schema, then ownership of the deck. */
  function CreateCardRejection(decks: map<int, Deck>, auth: Auth, input: CreateCardInput): (r: Option<ActionError>)
    requires DecksKeyed(decks)
    ensures !SignedIn(auth.userId) ==> r == Some(Unauthorized)
    ensures SignedIn(auth.userId) && CreateCardIssues(input) != [] ==> r == Some(ValidationFailed(CreateCardIssues(input)))
    ensures r == Some(Forbidden) <==>
      SignedIn(auth.userId) && CreateCardIssues(input) == [] && !OwnsDeck(decks, input.deckId, auth.userId.value)
    ensures r.None? <==>
      SignedIn(auth.userId) && CreateCardIssues(input) == [] && OwnsDeck(decks, input.deckId, auth.userId.value)
  {
    if !SignedIn(auth.userId) then Some(Unauthorized)
    else if CreateCardIssues(input) != [] then Some(ValidationFailed(CreateCardIssues(input)))
    else if DeckOwnershipFails(decks, input.deckId, auth.userId.value) then Some(Forbidden)
    else None
  }

  /** The first step of `updateCardAction` that throws: authentication, the schema, then ownership of the card. */
  function UpdateCardRejection(cards: map<int, Card>, decks: map<int, Deck>, auth: Auth, input: UpdateCardInput)
    : (r: Option<ActionError>)
    requires CardsKeyed(cards) && DecksKeyed(decks)
    ensures !SignedIn(auth.userId) ==> r == Some(Unauthorized)
    ensures SignedIn(auth.userId) && UpdateCardIssues(input) != [] ==> r == Some(ValidationFailed(UpdateCardIssues(input)))
    ensures r == Some(Forbidden) <==>
      SignedIn(auth.userId) && UpdateCardIssues(input) == [] && !OwnsCard(cards, decks, input.id, auth.userId.value)
    ensures r.None? <==>
      SignedIn(auth.userId) && UpdateCardIssues(input) == [] && OwnsCard(cards, decks, input.id, auth.userId.value)
  {
    if !SignedIn(auth.userId) then Some(Unauthorized)
    else if UpdateCardIssues(input) != [] then Some(ValidationFailed(UpdateCardIssues(input)))
    else if CardOwnershipFails(cards, decks, input.id, auth.userId.value) then Some(Forbidden)
    else None
  }

  /** The first step of `deleteCardAction` that throws: authentication, the schema, then ownership of the card. */
  function DeleteCardRejection(cards: map<int, Card>, decks: map<int, Deck>, auth: Auth, input: DeleteCardInput)
    : (r: Option<ActionError>)
    requires CardsKeyed(cards) && DecksKeyed(decks)
    ensures !SignedIn(auth.userId) ==> r == Some(Unauthorized)
    ensures SignedIn(auth.userId) && DeleteCardIssues(input) != [] ==> r == Some(ValidationFailed(DeleteCardIssues(input)))
    ensures r == Some(Forbidden) <==>
      SignedIn(auth.userId) && DeleteCardIssues(input) == [] && !OwnsCard(cards, decks, input.id, auth.userId.value)
    ensures r.None? <==>
      SignedIn(auth.userId) && DeleteCardIssues(input) == [] && OwnsCard(cards, decks, input.id, auth.userId.value)
  {
    if !SignedIn(auth.userId) then Some(Unauthorized)
    else if DeleteCardIssues(input) != [] then Some(ValidationFailed(DeleteCardIssues(input)))
    else if CardOwnershipFails(cards, decks, input.id, auth.userId.value) then Some(Forbidden)
    else None
  }

  /** No user can touch another user's card: a card let through for update or delete is in a deck the caller owns. */
  lemma ForeignCardsAreForbidden(cards: map<int, Card>, decks: map<int, Deck>, auth: Auth, id: int, other: string,
                                 update: UpdateCardInput)
    requires CardsKeyed(cards) && DecksKeyed(decks) && ReferencesDecks(cards, decks)
    requires SignedIn(auth.userId) && other != auth.userId.value && id > 0
    requires id in cards && decks[cards[id].deckId].userId == other
    requires update.id == id && UpdateCardIssues(update) == []
    ensures UpdateCardRejection(cards, decks, auth, update) == Some(Forbidden)
    ensures DeleteCardRejection(cards, decks, auth, DeleteCardInput(id)) == Some(Forbidden)
  {
  }

  /**
   * `createCardAction`: on success exactly one card is added to the caller's deck with the validated sides;
   * on any rejection nothing changes.
   */
  method CreateCardAction(db: Database, auth: Auth, input: CreateCardInput, now: int)
    returns (r: Result<Card, ActionError>)
    requires db.Valid()
    modifies db
    ensures db.Valid()
    ensures r.Failure? <==> CreateCardRejection(old(db.decks), auth, input).Some?
    ensures r.Failure? ==> r.error == CreateCardRejection(old(db.decks), auth, input).value && unchanged(db)
    ensures r.Success? ==>
      && r.value == Card(old(db.nextCardId), input.deckId, input.front, input.back, now, now)
      && r.value.id !in old(db.cards)
      && db.cards == old(db.cards)[r.value.id := r.value]
      && db.decks == old(db.decks)
      && db.nextCardId == old(db.nextCardId) + 1 && db.nextDeckId == old(db.nextDeckId)
  {
    var rejection := CreateCardRejection(db.decks, auth, input);
    if rejection.Some? {
      return Failure(rejection.value);
    }
    var created := CreateCard(db, input.deckId, input.front, input.back, now);
    r := Success(created.value);
  }

  /**
   * `updateCardAction`: on success only the supplied sides change and `updatedAt` is stamped; the card stays in
   * its deck. On any rejection nothing changes.
   */
  method UpdateCardAction(db: Database, auth: Auth, input: UpdateCardInput, now: int)
    returns (r: Result<Card, ActionError>)
    requires db.Valid()
    modifies db
    ensures db.Valid()
    ensures r.Failure? <==> UpdateCardRejection(old(db.cards), old(db.decks), auth, input).Some?
    ensures r.Failure? ==> r.error == UpdateCardRejection(old(db.cards), old(db.decks), auth, input).value && unchanged(db)
    ensures r.Success? ==>
      var before := old(db.cards)[input.id];
      && r.value == before.(front := ToPatch(input.front).ApplyTo(before.front),
                            back := ToPatch(input.back).ApplyTo(before.back),
                            updatedAt := now)
      && r.value.deckId == before.deckId
      && db.cards == old(db.cards)[input.id := r.value]
      && db.decks == old(db.decks)
      && db.nextDeckId == old(db.nextDeckId) && db.nextCardId == old(db.nextCardId)
  {
    var rejection := UpdateCardRejection(db.cards, db.decks, auth, input);
    if rejection.Some? {
      return Failure(rejection.value);
    }
    var updated := UpdateCard(db, input.id, ToPatch(input.front), ToPatch(input.back), now);
    r := Success(updated.value);
  }

  /** `deleteCardAction`: on success exactly that card is gone and every deck and other card stays. */
  method DeleteCardAction(db: Database, auth: Auth, input: DeleteCardInput)
    returns (r: Result<(), ActionError>)
    requires db.Valid()
    modifies db
    ensures db.Valid()
    ensures r.Failure? <==> DeleteCardRejection(old(db.cards), old(db.decks), auth, input).Some?
    ensures r.Failure? ==> r.error == DeleteCardRejection(old(db.cards), old(db.decks), auth, input).value && unchanged(db)
    ensures r.Success? ==>
      && db.cards == old(db.cards) - {input.id}
      && input.id in old(db.cards)
      && db.decks == old(db.decks)
      && db.nextDeckId == old(db.nextDeckId) && db.nextCardId == old(db.nextCardId)
  {
    var rejection := DeleteCardRejection(db.cards, db.decks, auth, input);
    if rejection.Some? {
      return Failure(rejection.value);
    }
    DeleteCard(db, input.id);
    r := Success(());
  }
}
