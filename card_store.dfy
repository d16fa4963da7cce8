/**
 * The card store, `LoyaltyCardViewModel`: an ordered list of cards that the
 * detail screen renames and deletes in place. Cards are identified here by
 * whole-record equality, as `List.indexOf` and `MutableList.remove` do.
 */
module CardStore {
  import opened Wrappers
  import opened Cards

  /**
   * What renaming does to a list: the first record equal to `card` becomes a
   * copy of `card` with the new name (`card.copy(cardName = newName)`).
   */
  function RenameFirst(cards: seq<LoyaltyCard>, card: LoyaltyCard, newName: string): seq<LoyaltyCard>
    requires card in cards
  {
    if cards[0] == card then [card.(cardName := newName)] + cards[1..]
    else [cards[0]] + RenameFirst(cards[1..], card, newName)
  }

  /**
   * What `MutableList.remove(element)` does to a list: drop the first record
   * equal to `card`, or leave the list alone when there is none.
   */
  function RemoveFirst(cards: seq<LoyaltyCard>, card: LoyaltyCard): seq<LoyaltyCard>
  {
    if cards == [] then []
    else if cards[0] == card then cards[1..]
    else [cards[0]] + RemoveFirst(cards[1..], card)
  }

  /**
   * Renaming keeps the length, writes the slot of the first equal record with
   * a card that differs from `card` in its name only, and leaves every other
   * slot, later copies of `card` included, as it was.
   */
  lemma {:induction false} RenameFirstSpec(cards: seq<LoyaltyCard>, card: LoyaltyCard, newName: string)
    requires card in cards
    ensures var r := RenameFirst(cards, card, newName);
      var i := IndexOf(cards, card);
      |r| == |cards| &&
      r[i] == LoyaltyCard(newName, card.creationDate, card.lastUsedDate,
                          card.encodedInformation, card.barcodeType) &&
      forall j :: 0 <= j < |cards| && j != i ==> r[j] == cards[j]
  {
    if cards[0] != card {
      RenameFirstSpec(cards[1..], card, newName);
    }
  }

  /**
   * Deleting a card whose first copy sits at index `i` removes exactly that
   * slot and keeps the other cards in their order.
   */
  lemma {:induction false} RemoveFirstAt(cards: seq<LoyaltyCard>, card: LoyaltyCard, i: int)
    requires 0 <= i < |cards| && cards[i] == card && card !in cards[..i]
    ensures RemoveFirst(cards, card) == cards[..i] + cards[i + 1..]
  {
    if i > 0 {
      assert cards[0] in cards[..i];
      var tail := cards[1..];
      assert tail[..i - 1] == cards[1..i];
      RemoveFirstAt(tail, card, i - 1);
      assert cards[..i] == [cards[0]] + tail[..i - 1];
      assert cards[i + 1..] == tail[i..];
    }
  }

  /** Deleting an absent card leaves the list as it was. */
  lemma {:induction false} RemoveAbsent(cards: seq<LoyaltyCard>, card: LoyaltyCard)
    requires card !in cards
    ensures RemoveFirst(cards, card) == cards
  {
    if cards != [] {
      assert cards == [cards[0]] + cards[1..];
      RemoveAbsent(cards[1..], card);
    }
  }

  /** Deleting takes away one copy of `card`, if there is one, and nothing else. */
  lemma {:induction false} RemoveFirstMultiset(cards: seq<LoyaltyCard>, card: LoyaltyCard)
    ensures multiset(RemoveFirst(cards, card)) == multiset(cards) - multiset{card}
  {
    if cards != [] {
      assert cards == [cards[0]] + cards[1..];
      RemoveFirstMultiset(cards[1..], card);
    }
  }

  /**
   * Deleting the same card twice never removes an unrelated card: every other
   * record keeps its number of copies.
   */
  lemma DeleteTwiceSparesOthers(cards: seq<LoyaltyCard>, card: LoyaltyCard, other: LoyaltyCard)
    requires other != card
    ensures multiset(RemoveFirst(RemoveFirst(cards, card), card))[other] == multiset(cards)[other]
    ensures |RemoveFirst(RemoveFirst(cards, card), card)| >= |cards| - 2
  {
    RemoveFirstMultiset(cards, card);
    RemoveFirstMultiset(RemoveFirst(cards, card), card);
  }

  /**
   * After a delete the card is still in the list exactly when the list held
   * two or more equal copies of it.
   */
  lemma DeleteLeavesCardIffDuplicated(cards: seq<LoyaltyCard>, card: LoyaltyCard)
    ensures card in RemoveFirst(cards, card) <==> multiset(cards)[card] >= 2
  {
    RemoveFirstMultiset(cards, card);
  }

  /**
   * Rename followed by navigation: when no card before the renamed slot
   * carries the new name, looking the new name up yields the renamed card,
   * with the dates, payload and barcode type of the original.
   */
  lemma RenameThenNavigate(cards: seq<LoyaltyCard>, card: LoyaltyCard, newName: string)
    requires card in cards
    requires forall j :: 0 <= j < IndexOf(cards, card) ==> cards[j].cardName != newName
    ensures FindCardByName(RenameFirst(cards, card, newName), newName) ==
      Some(LoyaltyCard(newName, card.creationDate, card.lastUsedDate,
                       card.encodedInformation, card.barcodeType))
  {
    RenameFirstSpec(cards, card, newName);
  }

  /**
   * Renaming a card to a name that an earlier card already carries: looking
   * the new name up still yields that earlier card, exactly as before the
   * rename, so the renamed card cannot be reached by its new name.
   */
  lemma {:induction false} RenameShadowedByEarlierName(cards: seq<LoyaltyCard>, card: LoyaltyCard,
                                                       newName: string, j: int)
    requires card in cards
    requires 0 <= j < IndexOf(cards, card) && cards[j].cardName == newName
    ensures FindCardByName(RenameFirst(cards, card, newName), newName) ==
      FindCardByName(cards, newName)
    ensures FindCardByName(cards, newName).Some?
  {
    if cards[0].cardName != newName {
      var tail := cards[1..];
      assert cards[0] != card;
      assert IndexOf(cards, card) == IndexOf(tail, card) + 1;
      assert tail[j - 1] == cards[j];
      RenameShadowedByEarlierName(tail, card, newName, j - 1);
    }
  }

  /** `LoyaltyCardViewModel`, whose `cards` list the UI reads and mutates. */
  class LoyaltyCardViewModel {
    var cards: seq<LoyaltyCard>

    /**
     * The seed list of two cards. The four `Date()` readings come from the
     * clock and are parameters here.
     */
    constructor (bookshopCreated: Date, bookshopLastUsed: Date,
                 cafeteriaCreated: Date, cafeteriaLastUsed: Date)
      ensures cards == [
        LoyaltyCard("Bookshop", bookshopCreated, bookshopLastUsed, "EncodedInfo1", "QR_CODE"),
        LoyaltyCard("Cafeteria", cafeteriaCreated, cafeteriaLastUsed, "1234567890128", "EAN_13")]
    {
      cards := [
        LoyaltyCard("Bookshop", bookshopCreated, bookshopLastUsed, "EncodedInfo1", "QR_CODE"),
        LoyaltyCard("Cafeteria", cafeteriaCreated, cafeteriaLastUsed, "1234567890128", "EAN_13")];
    }

    /**
     * `updateCardName`: overwrite the slot `indexOf(card)` with the renamed
     * copy. The card must be present: for an absent card `indexOf` gives -1
     * and the indexed assignment throws.
     */
    method UpdateCardName(card: LoyaltyCard, newName: string)
      requires card in cards
      modifies this
      ensures cards == RenameFirst(old(cards), card, newName)
      ensures |cards| == |old(cards)|
      ensures cards[IndexOf(old(cards), card)].cardName == newName
    {
      var i := IndexOf(cards, card);
      RenameFirstSpec(cards, card, newName);
      cards := cards[i := card.(cardName := newName)];
    }

    /**
     * `deleteCard`: `cards.remove(card)`, which finds the first equal record
     * and removes it, and does nothing when there is none.
     */
    method DeleteCard(card: LoyaltyCard)
      modifies this
      ensures cards == RemoveFirst(old(cards), card)
      ensures |cards| == if card in old(cards) then |old(cards)| - 1 else |old(cards)|
    {
      var i := IndexOf(cards, card);
      if i != -1 {
        RemoveFirstAt(cards, card, i);
        cards := cards[..i] + cards[i + 1..];
      } else {
        RemoveAbsent(cards, card);
      }
    }
  }
}
