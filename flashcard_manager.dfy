/** The flashcard panel of a document's page, after
    Frontend/src/components/flashcards/FlashcardManager.jsx: the list of
    sets, the set being studied, the card on screen and the cards reviewed
    in this session. */
module FlashcardPanel {
  import opened Wrappers
  import opened FlashcardCards
  import opened Indices

  class FlashcardManager {
    var flashcardSets: seq<CardSet>
    var selectedSet: Option<CardSet>
    var loading: bool
    var currentCardIndex: nat
    var reviewedCards: set<nat>

    /** The number of cards in the set being studied. */
    function CardCount(): nat
      reads this
    {
      if selectedSet.Some? then |selectedSet.value.cards| else 0
    }

    /** The card on screen and every reviewed card are cards of the set;
        without a set, or with an empty one, the session is at rest. */
    predicate Valid()
      reads this
    {
      (CardCount() == 0 ==> currentCardIndex == 0) &&
      (CardCount() > 0 ==> currentCardIndex < CardCount()) &&
      (forall k :: k in reviewedCards ==> k < CardCount())
    }

    /** The card viewer and its buttons are shown for a set with cards. */
    predicate Viewing()
      reads this
    {
      selectedSet.Some? && |selectedSet.value.cards| > 0
    }

    constructor()
      ensures Valid() && loading
      ensures flashcardSets == [] && selectedSet.None? && currentCardIndex == 0 && reviewedCards == {}
    {
      flashcardSets := [];
      selectedSet := None;
      loading := true;
      currentCardIndex := 0;
      reviewedCards := {};
    }

    /** The end of `fetchFlashcardSets`: `response` is None when the call
        throws or its data is not an array, and the list is then empty. */
    method FetchSets(response: Option<seq<CardSet>>)
      modifies this
      ensures flashcardSets == (if response.Some? then response.value else []) && !loading
      ensures selectedSet == old(selectedSet) && currentCardIndex == old(currentCardIndex)
      ensures reviewedCards == old(reviewedCards)
    {
      flashcardSets := if response.Some? then response.value else [];
      loading := false;
    }

    /** `handleNextCard`: the card on screen counts as reviewed and the next
        one is shown, wrapping from the last to the first. */
    method NextCard()
      requires Valid() && Viewing()
      modifies this
      ensures Valid()
      ensures reviewedCards == old(reviewedCards) + {old(currentCardIndex)}
      ensures currentCardIndex == (old(currentCardIndex) + 1) % CardCount()
      ensures flashcardSets == old(flashcardSets) && selectedSet == old(selectedSet) && loading == old(loading)
    {
      reviewedCards := reviewedCards + {currentCardIndex};
      currentCardIndex := (currentCardIndex + 1) % |selectedSet.value.cards|;
    }

    /** `handlePrevCard`: the previous card, wrapping from the first to the
        last. */
    method PrevCard()
      requires Valid() && Viewing()
      modifies this
      ensures Valid()
      ensures currentCardIndex == if old(currentCardIndex) == 0 then CardCount() - 1 else old(currentCardIndex) - 1
      ensures reviewedCards == old(reviewedCards)
      ensures flashcardSets == old(flashcardSets) && selectedSet == old(selectedSet) && loading == old(loading)
    {
      currentCardIndex := if currentCardIndex == 0 then |selectedSet.value.cards| - 1 else currentCardIndex - 1;
    }

    /** `handleReview` after the server call: the card on screen counts as
        reviewed only when there is one and the call succeeded. */
    method Review(succeeded: bool)
      requires Valid()
      modifies this
      ensures Valid()
      ensures reviewedCards == if succeeded && old(currentCardIndex) < CardCount()
                               then old(reviewedCards) + {old(currentCardIndex)} else old(reviewedCards)
      ensures currentCardIndex == old(currentCardIndex)
      ensures flashcardSets == old(flashcardSets) && selectedSet == old(selectedSet) && loading == old(loading)
    {
      if selectedSet.None? || currentCardIndex >= |selectedSet.value.cards| {
        return;
      }
      if succeeded {
        reviewedCards := reviewedCards + {currentCardIndex};
      }
    }

    /** `handleToggleStar` once the server call has succeeded: the star
        flips on the matching cards of every set and of the selected set. */
    method ToggleStar(cardId: string, succeeded: bool)
      requires Valid()
      modifies this
      ensures Valid()
      ensures !succeeded ==> flashcardSets == old(flashcardSets) && selectedSet == old(selectedSet)
      ensures succeeded ==> flashcardSets == ToggleSets(old(flashcardSets), cardId)
      ensures succeeded && old(selectedSet).Some? ==> selectedSet == Some(ToggleSet(old(selectedSet).value, cardId))
      ensures old(selectedSet).None? ==> selectedSet.None?
      ensures currentCardIndex == old(currentCardIndex) && reviewedCards == old(reviewedCards)
      ensures loading == old(loading)
    {
      if succeeded {
        flashcardSets := ToggleSets(flashcardSets, cardId);
        if selectedSet.Some? {
          selectedSet := Some(ToggleSet(selectedSet.value, cardId));
        }
      }
    }

    /** `handleSelectSet`: a fresh session at the first card of the set. */
    method SelectSet(s: CardSet)
      modifies this
      ensures Valid()
      ensures selectedSet == Some(s) && currentCardIndex == 0 && reviewedCards == {}
      ensures flashcardSets == old(flashcardSets) && loading == old(loading)
    {
      selectedSet := Some(s);
      currentCardIndex := 0;
      reviewedCards := {};
    }

    /** `handleBackToList`: no set, and the session cleared. */
    method BackToList()
      modifies this
      ensures Valid()
      ensures selectedSet.None? && currentCardIndex == 0 && reviewedCards == {}
      ensures flashcardSets == old(flashcardSets) && loading == old(loading)
    {
      selectedSet := None;
      currentCardIndex := 0;
      reviewedCards := {};
    }

    /** However the session went, no more cards are reviewed than the set
        holds. */
    lemma ReviewedAtMostCards()
      requires Valid()
      ensures |reviewedCards| <= CardCount()
    {
      FullRange(reviewedCards, CardCount());
    }
  }
}
