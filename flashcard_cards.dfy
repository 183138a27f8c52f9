/** Flashcards as the client holds them, and the two list updates both
    flashcard views share: flipping a star on the cards with a given id,
    and keeping only the starred cards. */
module FlashcardCards {
  import opened Wrappers

  datatype Card = Card(id: string, question: string, answer: string, isStarred: bool)

  datatype CardSet = CardSet(id: string, cards: seq<Card>)

  /** `card._id === cardId ? { ...card, isStarred: !card.isStarred } : card`. */
  function ToggleCard(c: Card, cardId: string): (r: Card)
    ensures r.id == c.id && r.question == c.question && r.answer == c.answer
    ensures r.isStarred != c.isStarred <==> c.id == cardId
  {
    if c.id == cardId then c.(isStarred := !c.isStarred) else c
  }

  /** `cards.map(card => ToggleCard(card, cardId))`. */
  function ToggleCards(cards: seq<Card>, cardId: string): (r: seq<Card>)
    ensures |r| == |cards|
    ensures forall i :: 0 <= i < |cards| ==> r[i] == ToggleCard(cards[i], cardId)
  {
    if cards == [] then [] else ToggleCards(cards[..|cards| - 1], cardId) + [ToggleCard(cards[|cards| - 1], cardId)]
  }

  /** The same update on every set; ids and sizes are kept. */
  function ToggleSet(s: CardSet, cardId: string): (r: CardSet)
    ensures r.id == s.id && |r.cards| == |s.cards|
  {
    s.(cards := ToggleCards(s.cards, cardId))
  }

  function ToggleSets(sets: seq<CardSet>, cardId: string): (r: seq<CardSet>)
    ensures |r| == |sets|
    ensures forall i :: 0 <= i < |sets| ==> r[i] == ToggleSet(sets[i], cardId)
  {
    if sets == [] then [] else ToggleSets(sets[..|sets| - 1], cardId) + [ToggleSet(sets[|sets| - 1], cardId)]
  }

  /** Only cards with the id change, and only in their star. */
  lemma ToggleOnlyMatching(cards: seq<Card>, cardId: string, i: nat)
    requires i < |cards|
    ensures cards[i].id != cardId ==> ToggleCards(cards, cardId)[i] == cards[i]
    ensures cards[i].id == cardId ==>
              ToggleCards(cards, cardId)[i] == cards[i].(isStarred := !cards[i].isStarred)
  {
  }

  /** Toggling the same card twice restores every card. */
  lemma ToggleTwice(cards: seq<Card>, cardId: string)
    ensures ToggleCards(ToggleCards(cards, cardId), cardId) == cards
  {
    var once := ToggleCards(cards, cardId);
    var twice := ToggleCards(once, cardId);
    forall i | 0 <= i < |cards|
      ensures twice[i] == cards[i]
    {
      assert once[i] == ToggleCard(cards[i], cardId);
    }
  }

  lemma ToggleSetsTwice(sets: seq<CardSet>, cardId: string)
    ensures ToggleSets(ToggleSets(sets, cardId), cardId) == sets
  {
    var twice := ToggleSets(ToggleSets(sets, cardId), cardId);
    forall i | 0 <= i < |sets|
      ensures twice[i] == sets[i]
    {
      ToggleTwice(sets[i].cards, cardId);
    }
  }

  /** A card id that no card carries leaves the cards as they were. */
  lemma ToggleUnknownId(cards: seq<Card>, cardId: string)
    requires forall i :: 0 <= i < |cards| ==> cards[i].id != cardId
    ensures ToggleCards(cards, cardId) == cards
  {
  }

  /** `cards.filter(card => card.isStarred)`. */
  function Starred(cards: seq<Card>): (r: seq<Card>)
    ensures |r| <= |cards|
    ensures forall i :: 0 <= i < |r| ==> r[i].isStarred
  {
    if cards == [] then []
    else
      var last := cards[|cards| - 1];
      Starred(cards[..|cards| - 1]) + (if last.isStarred then [last] else [])
  }

  /** The starred filter keeps exactly the starred cards. */
  lemma {:induction false} StarredMembers(cards: seq<Card>)
    ensures forall c :: c in Starred(cards) <==> c in cards && c.isStarred
  {
    if cards != [] {
      var init := cards[..|cards| - 1];
      StarredMembers(init);
      assert cards == init + [cards[|cards| - 1]];
    }
  }

  /** It keeps them in their order: when all are starred nothing goes, and
      the filter of a concatenation is the concatenation of the filters. */
  lemma {:induction false} StarredAppend(a: seq<Card>, b: seq<Card>)
    ensures Starred(a + b) == Starred(a) + Starred(b)
  {
    if b != [] {
      var init := b[..|b| - 1];
      assert (a + b)[..|a + b| - 1] == a + init;
      StarredAppend(a, init);
    } else {
      assert a + b == a;
    }
  }

  lemma {:induction false} StarredAll(cards: seq<Card>)
    requires forall i :: 0 <= i < |cards| ==> cards[i].isStarred
    ensures Starred(cards) == cards
  {
    if cards != [] {
      var init := cards[..|cards| - 1];
      assert forall i :: 0 <= i < |init| ==> init[i] == cards[i];
      StarredAll(init);
    }
  }

  /** The first set with the given id (`sets.find(set => set._id === id)`). */
  function FindSet(sets: seq<CardSet>, setId: string): (r: Option<CardSet>)
    ensures r.Some? ==> r.value in sets && r.value.id == setId
    ensures r.None? <==> forall i :: 0 <= i < |sets| ==> sets[i].id != setId
  {
    if sets == [] then None
    else if sets[0].id == setId then Some(sets[0])
    else
      var r := FindSet(sets[1..], setId);
      assert forall i :: 1 <= i < |sets| ==> sets[i] == sets[1..][i - 1];
      r
  }

  /** The set found is the first one with the id. */
  lemma {:induction false} FindSetFirst(sets: seq<CardSet>, setId: string, k: nat)
    requires k < |sets| && sets[k].id == setId
    requires forall i :: 0 <= i < k ==> sets[i].id != setId
    ensures FindSet(sets, setId) == Some(sets[k])
  {
    if k > 0 {
      FindSetFirst(sets[1..], setId, k - 1);
    }
  }
}
