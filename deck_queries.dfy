/** Reads and writes of the `decks` table. */
module DeckQueries {
  import opened Outcomes
  import opened Schema
  import Rows

  /** The ids of the decks `userId` owns. */
  function OwnedIds(decks: map<int, Deck>, userId: string): set<int> {
    set id | id in decks && decks[id].userId == userId
  }

  /** `WHERE userId = ?`, as a row predicate. */
  function OwnedBy(userId: string): Deck -> bool {
    (d: Deck) => d.userId == userId
  }

  /** Every owned deck, once each, oldest first. */
  function GetDecksByUserId(decks: map<int, Deck>, userId: string): (r: seq<Deck>)
    requires DecksKeyed(decks)
    ensures forall i :: 0 <= i < |r| ==> r[i].id in decks && decks[r[i].id] == r[i] && r[i].userId == userId
    ensures forall id :: id in OwnedIds(decks, userId) ==> decks[id] in r
    ensures |r| == |OwnedIds(decks, userId)|
    ensures forall i, j :: 0 <= i < j < |r| ==> r[i].createdAt <= r[j].createdAt
  {
    var rows := Rows.Select(decks, (d: Deck) => d.id, (d: Deck) => d.createdAt, OwnedBy(userId));
    assert Rows.Where(decks, OwnedBy(userId)).Keys == OwnedIds(decks, userId);
    rows
  }

  /** `WHERE id = ? LIMIT 1`: the deck with that id, or `None` (null) when there is none. */
  function GetDeckById(decks: map<int, Deck>, deckId: int): (r: Option<Deck>)
    requires DecksKeyed(decks)
    ensures r.Some? <==> deckId in decks
    ensures r.Some? ==> r.value == decks[deckId]
  {
    var rows := Rows.Select(decks, (d: Deck) => d.id, (d: Deck) => d.createdAt, (d: Deck) => d.id == deckId);
    if |rows| == 0 then None else Some(rows[0])
  }

  /** The number of rows `WHERE userId = ?` selects. */
  function GetDeckCount(decks: map<int, Deck>, userId: string): (n: nat)
    requires DecksKeyed(decks)
    ensures n == |OwnedIds(decks, userId)|
  {
    var rows := Rows.Select(decks, (d: Deck) => d.id, (d: Deck) => d.createdAt, OwnedBy(userId));
    assert Rows.Where(decks, OwnedBy(userId)).Keys == OwnedIds(decks, userId);
    |rows|
  }

  /** Inserting a deck under a fresh id raises its owner's count by one and no one else's. */
  lemma CountAfterInsert(decks: map<int, Deck>, d: Deck, userId: string)
    requires DecksKeyed(decks) && d.id !in decks
    ensures DecksKeyed(decks[d.id := d])
    ensures GetDeckCount(decks[d.id := d], userId) == GetDeckCount(decks, userId) + (if d.userId == userId then 1 else 0)
  {
    var after := OwnedIds(decks[d.id := d], userId);
    if d.userId == userId {
      assert after == OwnedIds(decks, userId) + {d.id};
    } else {
      assert after == OwnedIds(decks, userId);
    }
  }

  /** `INSERT ... RETURNING`: one new deck under the next identity value, stamped with the current time. */
  method CreateDeck(db: Database, userId: string, name: string, description: Option<string>, now: int) returns (d: Deck)
    requires db.Valid()
    modifies db
    ensures db.Valid()
    ensures d == Deck(old(db.nextDeckId), userId, name, description, now, now)
    ensures d.id !in old(db.decks)
    ensures db.decks == old(db.decks)[d.id := d]
    ensures db.cards == old(db.cards)
    ensures db.nextDeckId == old(db.nextDeckId) + 1 && db.nextCardId == old(db.nextCardId)
  {
    d := Deck(db.nextDeckId, userId, name, description, now, now);
    db.decks := db.decks[d.id := d];
    db.nextDeckId := db.nextDeckId + 1;
  }

  /**
   * `UPDATE ... SET {...data, updatedAt} WHERE id = ? RETURNING`: supplied columns change, omitted ones keep
   * their values; the owner and creation time never change. No row matches a missing id.
   */
  method UpdateDeck(db: Database, deckId: int, name: Patch<string>, description: Patch<Option<string>>, now: int)
    returns (r: Option<Deck>)
    requires db.Valid()
    modifies db
    ensures db.Valid()
    ensures r.Some? <==> deckId in old(db.decks)
    ensures r.None? ==> db.decks == old(db.decks)
    ensures r.Some? ==>
      var before := old(db.decks)[deckId];
      && r.value.id == deckId
      && r.value.userId == before.userId
      && r.value.name == name.ApplyTo(before.name)
      && r.value.description == description.ApplyTo(before.description)
      && r.value.createdAt == before.createdAt
      && r.value.updatedAt == now
      && db.decks == old(db.decks)[deckId := r.value]
    ensures db.cards == old(db.cards)
    ensures db.nextDeckId == old(db.nextDeckId) && db.nextCardId == old(db.nextCardId)
  {
    if deckId !in db.decks {
      return None;
    }
    var before := db.decks[deckId];
    var after := before.(name := name.ApplyTo(before.name),
                         description := description.ApplyTo(before.description),
                         updatedAt := now);
    db.decks := db.decks[deckId := after];
    r := Some(after);
  }

  /**
   * `DELETE FROM decks WHERE id = ?`. The statement names only the deck row; the cards go with it because
   * the schema declares the foreign key `ON DELETE CASCADE`.
   */
  method DeleteDeck(db: Database, deckId: int)
    requires db.Valid()
    modifies db
    ensures db.Valid()
    ensures db.decks == old(db.decks) - {deckId}
    ensures db.cards == RemoveCardsOfDeck(old(db.cards), deckId)
    ensures db.nextDeckId == old(db.nextDeckId) && db.nextCardId == old(db.nextCardId)
  {
    CascadeKeepsIntegrity(db.decks, db.cards, db.nextDeckId, db.nextCardId, deckId);
    db.decks := db.decks - {deckId};
    db.cards := RemoveCardsOfDeck(db.cards, deckId);
  }
}
