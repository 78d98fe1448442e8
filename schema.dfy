/**
 * The two tables of the relational store and the guarantees their declarations give:
 * identity primary keys, a non-null `deckId` foreign key, and `ON DELETE CASCADE` from a deck to its cards.
 */
module Schema {
  import opened Outcomes

  /** A row of `decks`. `userId` and `name` are NOT NULL; a `None` description is SQL NULL. Times are clock ticks. */
  datatype Deck = Deck(id: int, userId: string, name: string, description: Option<string>, createdAt: int, updatedAt: int)

  /** A row of `cards`; every column is NOT NULL. */
  datatype Card = Card(id: int, deckId: int, front: string, back: string, createdAt: int, updatedAt: int)

  /** Every deck sits under its own primary key. */
  predicate DecksKeyed(decks: map<int, Deck>) {
    forall id :: id in decks ==> decks[id].id == id
  }

  /** Every card sits under its own primary key. */
  predicate CardsKeyed(cards: map<int, Card>) {
    forall id :: id in cards ==> cards[id].id == id
  }

  /** Identity values handed out so far are positive and below the next one. */
  predicate IdsBelow<R>(table: map<int, R>, nextId: int) {
    forall id :: id in table ==> 0 < id < nextId
  }

  /** The foreign key: every card's deck exists. */
  predicate ReferencesDecks(cards: map<int, Card>, decks: map<int, Deck>) {
    forall id :: id in cards ==> cards[id].deckId in decks
  }

  /** Everything the schema guarantees of a database state. */
  predicate Integrity(decks: map<int, Deck>, cards: map<int, Card>, nextDeckId: int, nextCardId: int) {
    && 0 < nextDeckId && 0 < nextCardId
    && DecksKeyed(decks) && IdsBelow(decks, nextDeckId)
    && CardsKeyed(cards) && IdsBelow(cards, nextCardId)
    && ReferencesDecks(cards, decks)
  }

  /** The card table without the cards of one deck: what `ON DELETE CASCADE` leaves when that deck goes. */
  function RemoveCardsOfDeck(cards: map<int, Card>, deckId: int): (r: map<int, Card>)
    ensures forall id :: id in r <==> id in cards && cards[id].deckId != deckId
    ensures forall id :: id in r ==> r[id] == cards[id]
  {
    map id | id in cards && cards[id].deckId != deckId :: cards[id]
  }

  /** Deleting a deck together with its cascade keeps every guarantee of the schema: no card outlives its deck. */
  lemma CascadeKeepsIntegrity(decks: map<int, Deck>, cards: map<int, Card>, nextDeckId: int, nextCardId: int, deckId: int)
    requires Integrity(decks, cards, nextDeckId, nextCardId)
    ensures Integrity(decks - {deckId}, RemoveCardsOfDeck(cards, deckId), nextDeckId, nextCardId)
    ensures forall id :: id in cards && cards[id].deckId == deckId ==> id !in RemoveCardsOfDeck(cards, deckId)
  {
  }

  /**
   * The database: the two tables keyed by primary key and the next value of each identity column.
   * Identity values only grow, so an id is never handed out twice.
   */
  class Database {
    var decks: map<int, Deck>
    var cards: map<int, Card>
    var nextDeckId: int
    var nextCardId: int

    ghost predicate Valid()
      reads this
    {
      Integrity(decks, cards, nextDeckId, nextCardId)
    }

    /** An empty database; identity columns start at 1. */
    constructor ()
      ensures Valid()
      ensures decks == map[] && cards == map[] && nextDeckId == 1 && nextCardId == 1
    {
      decks, cards := map[], map[];
      nextDeckId, nextCardId := 1, 1;
    }
  }
}
