/** The study page for the flashcard sets of a document, after
    Frontend/src/pages/Flashcards/FlashcardPage.jsx: the sets, the one being
    studied, the card on screen, the cards seen this session and the
    starred-only switch. */
module FlashcardStudy {
  import opened Wrappers
  import opened FlashcardCards

  class FlashcardPage {
    var flashcardSets: seq<CardSet>
    var selectedSet: Option<CardSet>
    var currentCardIndex: nat
    var loading: bool
    var reviewedCards: set<nat>
    var showStarredOnly: bool

    /** `getDisplayCards`: nothing without a set, the starred cards of the
        set when starred-only is on, otherwise all of its cards. */
    function DisplayCards(): (r: seq<Card>)
      reads this
      ensures selectedSet.None? ==> r == []
      ensures selectedSet.Some? && !showStarredOnly ==> r == selectedSet.value.cards
      ensures selectedSet.Some? && showStarredOnly ==> r == Starred(selectedSet.value.cards)
    {
      if selectedSet.None? then []
      else if showStarredOnly then Starred(selectedSet.value.cards)
      else selectedSet.value.cards
    }

    /** The card view and its buttons are shown only for a selected set
        with cards to display. */
    predicate Viewing()
      reads this
    {
      !loading && selectedSet.Some? && |flashcardSets| > 0 && |DisplayCards()| > 0
    }

    constructor()
      ensures flashcardSets == [] && selectedSet.None? && currentCardIndex == 0
      ensures loading && reviewedCards == {} && !showStarredOnly
    {
      flashcardSets := [];
      selectedSet := None;
      currentCardIndex := 0;
      loading := true;
      reviewedCards := {};
      showStarredOnly := false;
    }

    /** The end of `fetchFlashcards`: the requested set when it is among the
        sets, otherwise the first set; with no sets the selection is left as
        it was. `requestedSetId` is the `setId` of the navigation state,
        None when absent or empty. */
    method Load(sets: seq<CardSet>, requestedSetId: Option<string>)
      modifies this
      ensures flashcardSets == sets && !loading
      ensures sets == [] ==> selectedSet == old(selectedSet)
      ensures sets != [] && requestedSetId.Some? && FindSet(sets, requestedSetId.value).Some? ==>
                selectedSet == FindSet(sets, requestedSetId.value)
      ensures sets != [] && (requestedSetId.None? || FindSet(sets, requestedSetId.value).None?) ==>
                selectedSet == Some(sets[0])
      ensures currentCardIndex == old(currentCardIndex) && reviewedCards == old(reviewedCards)
      ensures showStarredOnly == old(showStarredOnly)
    {
      flashcardSets := sets;
      if requestedSetId.Some? && |sets| > 0 {
        var targetSet := FindSet(sets, requestedSetId.value);
        selectedSet := if targetSet.Some? then targetSet else Some(sets[0]);
      } else if |sets| > 0 {
        selectedSet := Some(sets[0]);
      }
      loading := false;
    }

    /** The end of a failed `fetchFlashcards`: only the spinner goes. */
    method LoadFailed()
      modifies this
      ensures !loading
      ensures flashcardSets == old(flashcardSets) && selectedSet == old(selectedSet)
      ensures currentCardIndex == old(currentCardIndex) && reviewedCards == old(reviewedCards)
      ensures showStarredOnly == old(showStarredOnly)
    {
      loading := false;
    }

    /** `handleNextCard`: the card on screen counts as reviewed and the next
        one is shown, wrapping from the last to the first. */
    method NextCard()
      requires Viewing()
      modifies this
      ensures reviewedCards == old(reviewedCards) + {old(currentCardIndex)}
      ensures currentCardIndex == (old(currentCardIndex) + 1) % |old(DisplayCards())|
      ensures currentCardIndex < |DisplayCards()|
      ensures flashcardSets == old(flashcardSets) && selectedSet == old(selectedSet)
      ensures loading == old(loading) && showStarredOnly == old(showStarredOnly)
    {
      reviewedCards := reviewedCards + {currentCardIndex};
      var cards := DisplayCards();
      currentCardIndex := (currentCardIndex + 1) % |cards|;
    }

    /** `handlePrevCard`: the previous card, wrapping from the first to the
        last. */
    method PrevCard()
      requires Viewing()
      modifies this
      ensures currentCardIndex == if old(currentCardIndex) == 0 then |old(DisplayCards())| - 1 else old(currentCardIndex) - 1
      ensures old(currentCardIndex) < |old(DisplayCards())| ==> currentCardIndex < |DisplayCards()|
      ensures reviewedCards == old(reviewedCards)
      ensures flashcardSets == old(flashcardSets) && selectedSet == old(selectedSet)
      ensures loading == old(loading) && showStarredOnly == old(showStarredOnly)
    {
      var cards := DisplayCards();
      currentCardIndex := if currentCardIndex == 0 then |cards| - 1 else currentCardIndex - 1;
    }

    /** `handleReset`: the session starts over at the first card. */
    method Reset()
      modifies this
      ensures reviewedCards == {} && currentCardIndex == 0
      ensures flashcardSets == old(flashcardSets) && selectedSet == old(selectedSet)
      ensures loading == old(loading) && showStarredOnly == old(showStarredOnly)
    {
      reviewedCards := {};
      currentCardIndex := 0;
    }

    /** The starred-only switch; the card index is left as it is. */
    method ToggleStarredOnly()
      modifies this
      ensures showStarredOnly == !old(showStarredOnly)
      ensures currentCardIndex == old(currentCardIndex) && reviewedCards == old(reviewedCards)
      ensures flashcardSets == old(flashcardSets) && selectedSet == old(selectedSet) && loading == old(loading)
    {
      showStarredOnly := !showStarredOnly;
    }

    /** `handleToggleStar` once the server call has succeeded
        (`succeeded` is false when it throws): the star flips on the
        matching cards of every set and of the selected set. */
    method ToggleStar(cardId: string, succeeded: bool)
      modifies this
      ensures !succeeded ==> flashcardSets == old(flashcardSets) && selectedSet == old(selectedSet)
      ensures succeeded ==> flashcardSets == ToggleSets(old(flashcardSets), cardId)
      ensures succeeded && old(selectedSet).Some? ==> selectedSet == Some(ToggleSet(old(selectedSet).value, cardId))
      ensures old(selectedSet).None? ==> selectedSet.None?
      ensures currentCardIndex == old(currentCardIndex) && reviewedCards == old(reviewedCards)
      ensures loading == old(loading) && showStarredOnly == old(showStarredOnly)
    {
      if succeeded {
        flashcardSets := ToggleSets(flashcardSets, cardId);
        if selectedSet.Some? {
          selectedSet := Some(ToggleSet(selectedSet.value, cardId));
        }
      }
    }
  }

  /** With starred-only on, the displayed cards are exactly the starred
      cards of the set. */
  lemma DisplayedStarred(page: FlashcardPage)
    requires page.selectedSet.Some? && page.showStarredOnly
    ensures forall c :: c in page.DisplayCards() <==> c in page.selectedSet.value.cards && c.isStarred
  {
    StarredMembers(page.selectedSet.value.cards);
  }
}
