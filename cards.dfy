/**
 * The loyalty-card record and the two ways the app finds a card in a list:
 * by whole-record equality (`List.indexOf`, used by the store) and by name
 * (`firstOrNull { it.cardName == cardName }`, used by navigation).
 */
module Cards {
  import opened Wrappers

  /** A `java.util.Date`; the model only ever compares dates for equality. */
  type Date = int

  /**
   * `data class LoyaltyCard`: a value, so `==` compares all five fields,
   * exactly as Kotlin's generated `equals` does.
   */
  datatype LoyaltyCard = LoyaltyCard(
    cardName: string,
    creationDate: Date,
    lastUsedDate: Date,
    encodedInformation: string,
    barcodeType: string)

  /** `List.indexOf`: the first index holding a record equal to `card`, or -1. */
  function IndexOf(cards: seq<LoyaltyCard>, card: LoyaltyCard): (i: int)
    ensures -1 <= i < |cards|
    ensures i == -1 <==> card !in cards
    ensures 0 <= i ==> cards[i] == card && card !in cards[..i]
  {
    if cards == [] then -1
    else if cards[0] == card then 0
    else
      var j := IndexOf(cards[1..], card);
      if j == -1 then -1
      else
        assert cards[..j + 1] == [cards[0]] + cards[1..][..j];
        j + 1
  }

  /**
   * The route lookup `cards.firstOrNull { it.cardName == cardName }`: the
   * first card carrying the name, or nothing when no card does.
   */
  function FindCardByName(cards: seq<LoyaltyCard>, name: string): (r: Option<LoyaltyCard>)
    ensures r.None? <==> forall k :: 0 <= k < |cards| ==> cards[k].cardName != name
    ensures r.Some? ==> r.value.cardName == name
    ensures r.Some? ==>
      exists k :: 0 <= k < |cards| && cards[k] == r.value &&
                  forall j :: 0 <= j < k ==> cards[j].cardName != name
  {
    if cards == [] then None
    else if cards[0].cardName == name then Some(cards[0])
    else FindCardByName(cards[1..], name)
  }

  /** No two cards of the list share a name. */
  predicate DistinctNames(cards: seq<LoyaltyCard>)
  {
    forall i, j :: 0 <= i < j < |cards| ==> cards[i].cardName != cards[j].cardName
  }

  /**
   * Navigation and the store agree on the slot: the card that the route
   * lookup finds by name is, under record equality, first found at the first
   * index carrying that name. So renaming or deleting the card that
   * navigation handed over touches that slot and no earlier one.
   */
  lemma {:induction false} LookupSlotIsFirstNameMatch(cards: seq<LoyaltyCard>, name: string)
    requires FindCardByName(cards, name).Some?
    ensures var i := IndexOf(cards, FindCardByName(cards, name).value);
      0 <= i && cards[i].cardName == name &&
      forall j :: 0 <= j < i ==> cards[j].cardName != name
  {
    if cards[0].cardName != name {
      LookupSlotIsFirstNameMatch(cards[1..], name);
    }
  }

  /** With distinct names, navigating by a card's name yields that very card. */
  lemma {:induction false} NavigationReachesEveryCard(cards: seq<LoyaltyCard>, k: int)
    requires DistinctNames(cards)
    requires 0 <= k < |cards|
    ensures FindCardByName(cards, cards[k].cardName) == Some(cards[k])
  {
    if k > 0 {
      assert cards[0].cardName != cards[k].cardName;
      assert DistinctNames(cards[1..]) by {
        forall i, j | 0 <= i < j < |cards[1..]|
          ensures cards[1..][i].cardName != cards[1..][j].cardName
        {
          assert cards[1..][i] == cards[i + 1] && cards[1..][j] == cards[j + 1];
        }
      }
      NavigationReachesEveryCard(cards[1..], k - 1);
    }
  }

  /**
   * Navigation identifies cards by name only, so a card whose name an earlier
   * card already carries (and that is not itself a copy of an earlier card)
   * can never be reached by navigation.
   */
  lemma {:induction false} ShadowedCardUnreachable(cards: seq<LoyaltyCard>, i: int, k: int)
    requires 0 <= i < k < |cards|
    requires cards[i].cardName == cards[k].cardName
    requires cards[k] !in cards[..k]
    ensures FindCardByName(cards, cards[k].cardName) != Some(cards[k])
  {
    if cards[0].cardName != cards[k].cardName {
      assert cards[1..][..k - 1] == cards[1..k];
      assert cards[k] !in cards[1..][..k - 1];
      ShadowedCardUnreachable(cards[1..], i - 1, k - 1);
    } else {
      assert cards[0] in cards[..k];
    }
  }
}
