/** Reads and writes of the `cards` table, including its join with `decks`. */
module CardQueries {
  import opened Outcomes
  import opened Schema
  import Rows

  /** The ids of the cards of one deck. */
  function CardIdsOfDeck(cards: map<int, Card>, deckId: int): set<int> {
    set id | id in cards && cards[id].deckId == deckId
  }

  /** The ids of the cards whose parent deck `userId` owns. */
  function CardIdsOfUser(cards: map<int, Card>, decks: map<int, Deck>, userId: string): set<int> {
    set id | id in cards && cards[id].deckId in decks && decks[cards[id].deckId].userId == userId
  }

  /** `WHERE deckId = ?`, as a row predicate. */
  function InDeck(deckId: int): Card -> bool {
    (c: Card) => c.deckId == deckId
  }

  /** `FROM cards INNER JOIN decks ON cards.deckId = decks.id WHERE decks.userId = ?`, as a row predicate. */
  function JoinedToDeckOf(decks: map<int, Deck>, userId: string): Card -> bool {
    (c: Card) => c.deckId in decks && decks[c.deckId].userId == userId
  }

  /** Every card of the deck, once each, oldest first. The card ids are distinct. */
  function GetCardsByDeckId(cards: map<int, Card>, deckId: int): (r: seq<Card>)
    requires CardsKeyed(cards)
    ensures forall i :: 0 <= i < |r| ==> r[i].id in cards && cards[r[i].id] == r[i] && r[i].deckId == deckId
    ensures forall id :: id in CardIdsOfDeck(cards, deckId) ==> cards[id] in r
    ensures |r| == |CardIdsOfDeck(cards, deckId)|
    ensures forall i, j :: 0 <= i < j < |r| ==> r[i].id != r[j].id
    ensures forall i, j :: 0 <= i < j < |r| ==> r[i].createdAt <= r[j].createdAt
  {
    var rows := Rows.Select(cards, (c: Card) => c.id, (c: Card) => c.createdAt, InDeck(deckId));
    assert Rows.Where(cards, InDeck(deckId)).Keys == CardIdsOfDeck(cards, deckId);
    rows
  }

  /** `WHERE id = ? LIMIT 1`: the card with that id, or `None` (null). */
  function GetCardById(cards: map<int, Card>, cardId: int): (r: Option<Card>)
    requires CardsKeyed(cards)
    ensures r.Some? <==> cardId in cards
    ensures r.Some? ==> r.value == cards[cardId]
  {
    var rows := Rows.Select(cards, (c: Card) => c.id, (c: Card) => c.createdAt, (c: Card) => c.id == cardId);
    if |rows| == 0 then None else Some(rows[0])
  }

  /**
   * `FROM cards INNER JOIN decks ON cards.deckId = decks.id WHERE cards.id = ? LIMIT 1`: the card with its deck,
   * present exactly when both rows exist.
   */
  function GetCardWithDeck(cards: map<int, Card>, decks: map<int, Deck>, cardId: int): (r: Option<(Card, Deck)>)
    requires CardsKeyed(cards) && DecksKeyed(decks)
    ensures r.Some? <==> cardId in cards && cards[cardId].deckId in decks
    ensures r.Some? ==> r.value.0 == cards[cardId] && r.value.1 == decks[cards[cardId].deckId]
  {
    var rows := Rows.Select(cards, (c: Card) => c.id, (c: Card) => c.createdAt,
                            (c: Card) => c.id == cardId && c.deckId in decks);
    if |rows| == 0 then None else Some((rows[0], decks[rows[0].deckId]))
  }

  /** `SELECT count(*)` over the join: the number of cards in decks `userId` owns. */
  function GetCardCount(cards: map<int, Card>, decks: map<int, Deck>, userId: string): (n: nat)
    requires CardsKeyed(cards)
    ensures n == |CardIdsOfUser(cards, decks, userId)|
  {
    var rows := Rows.Select(cards, (c: Card) => c.id, (c: Card) => c.createdAt, JoinedToDeckOf(decks, userId));
    assert Rows.Where(cards, JoinedToDeckOf(decks, userId)).Keys == CardIdsOfUser(cards, decks, userId);
    |rows|
  }

  /** The number of rows `WHERE deckId = ?` selects. */
  function GetCardCountByDeckId(cards: map<int, Card>, deckId: int): (n: nat)
    requires CardsKeyed(cards)
    ensures n == |CardIdsOfDeck(cards, deckId)|
  {
    var rows := Rows.Select(cards, (c: Card) => c.id, (c: Card) => c.createdAt, InDeck(deckId));
    assert Rows.Where(cards, InDeck(deckId)).Keys == CardIdsOfDeck(cards, deckId);
    |rows|
  }

  /** After the cascade (or `deleteCardsByDeckId`) the deck has no cards left, and every other deck keeps its cards. */
  lemma RemovedDeckHasNoCards(cards: map<int, Card>, deckId: int, other: int)
    requires CardsKeyed(cards) && other != deckId
    ensures CardsKeyed(RemoveCardsOfDeck(cards, deckId))
    ensures GetCardsByDeckId(RemoveCardsOfDeck(cards, deckId), deckId) == []
    ensures GetCardCountByDeckId(RemoveCardsOfDeck(cards, deckId), other) == GetCardCountByDeckId(cards, other)
  {
    var rest := RemoveCardsOfDeck(cards, deckId);
    assert CardIdsOfDeck(rest, deckId) == {};
    assert CardIdsOfDeck(rest, other) == CardIdsOfDeck(cards, other);
  }

  /**
   * `INSERT ... RETURNING`: one new card under the next identity value. The identity value is drawn before
   * the foreign key is checked, so when the key rejects a `deckId` with no deck the table stays as it was but
   * that value is used up all the same.
   */
  method CreateCard(db: Database, deckId: int, front: string, back: string, now: int) returns (r: Option<Card>)
    requires db.Valid()
    modifies db
    ensures db.Valid()
    ensures r.Some? <==> deckId in old(db.decks)
    ensures r.None? ==> db.cards == old(db.cards)
    ensures r.Some? ==>
      && r.value == Card(old(db.nextCardId), deckId, front, back, now, now)
      && r.value.id !in old(db.cards)
      && db.cards == old(db.cards)[r.value.id := r.value]
    ensures db.nextCardId == old(db.nextCardId) + 1
    ensures db.decks == old(db.decks) && db.nextDeckId == old(db.nextDeckId)
  {
    var id := db.nextCardId;
    db.nextCardId := db.nextCardId + 1;
    if deckId !in db.decks {
      return None;
    }
    var c := Card(id, deckId, front, back, now, now);
    db.cards := db.cards[c.id := c];
    r := Some(c);
  }

  /**
   * `UPDATE ... SET {...data, updatedAt} WHERE id = ? RETURNING`: supplied sides change, omitted ones keep their
   * text; the card stays in its deck.
   */
  method UpdateCard(db: Database, cardId: int, front: Patch<string>, back: Patch<string>, now: int)
    returns (r: Option<Card>)
    requires db.Valid()
    modifies db
    ensures db.Valid()
    ensures r.Some? <==> cardId in old(db.cards)
    ensures r.None? ==> db.cards == old(db.cards)
    ensures r.Some? ==>
      var before := old(db.cards)[cardId];
      && r.value.id == cardId
      && r.value.deckId == before.deckId
      && r.value.front == front.ApplyTo(before.front)
      && r.value.back == back.ApplyTo(before.back)
      && r.value.createdAt == before.createdAt
      && r.value.updatedAt == now
      && db.cards == old(db.cards)[cardId := r.value]
    ensures db.decks == old(db.decks)
    ensures db.nextDeckId == old(db.nextDeckId) && db.nextCardId == old(db.nextCardId)
  {
    if cardId !in db.cards {
      return None;
    }
    var before := db.cards[cardId];
    var after := before.(front := front.ApplyTo(before.front), back := back.ApplyTo(before.back), updatedAt := now);
    db.cards := db.cards[cardId := after];
    r := Some(after);
  }

  /** `DELETE FROM cards WHERE id = ?`: that card and nothing else. */
  method DeleteCard(db: Database, cardId: int)
    requires db.Valid()
    modifies db
    ensures db.Valid()
    ensures db.cards == old(db.cards) - {cardId}
    ensures db.decks == old(db.decks)
    ensures db.nextDeckId == old(db.nextDeckId) && db.nextCardId == old(db.nextCardId)
  {
    db.cards := db.cards - {cardId};
  }

  /** `DELETE FROM cards WHERE deckId = ?`: every card of that deck and no other. */
  method DeleteCardsByDeckId(db: Database, deckId: int)
    requires db.Valid()
    modifies db
    ensures db.Valid()
    ensures db.cards == RemoveCardsOfDeck(old(db.cards), deckId)
    ensures db.decks == old(db.decks)
    ensures db.nextDeckId == old(db.nextDeckId) && db.nextCardId == old(db.nextCardId)
  {
    db.cards := RemoveCardsOfDeck(db.cards, deckId);
  }
}
