/** A whole interaction with the store through the server actions, as two users would drive it. */
module EndToEnd {
  import opened Outcomes
  import opened Protocol
  import opened Schema
  import opened DeckQueries
  import opened CardQueries
  import opened DeckActions
  import opened CardActions

  /**
   * One user creates the deck "Spanish" with a card; a second user's attempt to edit that card is forbidden and
   * leaves it as it was; once the owner deletes the deck, the deck's card list is empty.
   */
  method SpanishDeckScenario() returns (denied: Result<Card, ActionError>, kept: Option<Card>, left: seq<Card>)
    ensures denied == Failure(Forbidden)
    ensures kept.Some? && kept.value.front == "Hola" && kept.value.back == "Hello"
    ensures left == []
  {
    var db := new Database();
    var owner := Auth(Some("user_1"), false);
    var intruder := Auth(Some("user_2"), false);

    var newDeck := CreateDeckInput("Spanish", Some("Basics"));
    assert CreateDeckIssues(newDeck) == [] by { assert |"Spanish"| == 7 && |"Basics"| == 6; }
    assert OwnedIds(db.decks, "user_1") == {};
    var deck := CreateDeckAction(db, owner, newDeck, 1);
    var deckId := deck.value.id;
    assert db.decks == map[deckId := deck.value];

    var newCard := CreateCardInput(deckId, "Hola", "Hello");
    assert CreateCardIssues(newCard) == [] by { assert |"Hola"| == 4 && |"Hello"| == 5; }
    var card := CreateCardAction(db, owner, newCard, 2);
    var cardId := card.value.id;
    assert db.cards == map[cardId := card.value];

    var edit := UpdateCardInput(cardId, Some("Adios"), None);
    assert UpdateCardIssues(edit) == [] by { assert |"Adios"| == 5; }
    assert !OwnsCard(db.cards, db.decks, cardId, "user_2");
    denied := UpdateCardAction(db, intruder, edit, 3);
    kept := GetCardById(db.cards, cardId);

    var deleted := DeleteDeckAction(db, owner, DeleteDeckInput(deckId));
    assert deleted.Success?;
    left := GetCardsByDeckId(db.cards, deckId);
    assert CardIdsOfDeck(db.cards, deckId) == {};
  }
}
