/**
 The flashcard screen's index machine (src/components/StudySession.tsx,
 copied inline in App.tsx): "next" steps forward or, on the last card,
 fires session completion; "previous" steps back unless on the first card.
 The screen dereferences the current card, so the deck is non-empty.
 */
module CardCursor {

  /** The card index after a press, and whether the press completed the session. */
  datatype CardStep = CardStep(index: nat, completed: bool)

  /** `handleNext`. */
  function NextCard(deckSize: nat, index: nat): (r: CardStep)
    requires index < deckSize
    ensures index < deckSize - 1 ==> r == CardStep(index + 1, false)
    ensures index == deckSize - 1 ==> r == CardStep(index, true)
    ensures r.index < deckSize
  {
    if index < deckSize - 1 then CardStep(index + 1, false) else CardStep(index, true)
  }

  /** `handlePrev`. */
  function PrevCard(deckSize: nat, index: nat): (r: nat)
    requires index < deckSize
    ensures index == 0 ==> r == 0
    ensures index > 0 ==> r == index - 1
    ensures r < deckSize
  {
    if index > 0 then index - 1 else index
  }

  datatype CardEvent = Next | Prev

  /** The index after a sequence of presses, and how many of them completed the session. */
  datatype CardRun = CardRun(index: nat, completions: nat)

  function RunCards(deckSize: nat, index: nat, events: seq<CardEvent>): CardRun
    requires index < deckSize
    decreases |events|
  {
    if |events| == 0 then CardRun(index, 0)
    else match events[0]
      case Prev => RunCards(deckSize, PrevCard(deckSize, index), events[1..])
      case Next =>
        var step := NextCard(deckSize, index);
        var rest := RunCards(deckSize, step.index, events[1..]);
        CardRun(rest.index, rest.completions + (if step.completed then 1 else 0))
  }

  /** Counts the "next" presses in a sequence of presses. */
  function NextPresses(events: seq<CardEvent>): nat {
    if |events| == 0 then 0 else (if events[0] == Next then 1 else 0) + NextPresses(events[1..])
  }

  /**
   Whatever is pressed, the index stays within the deck; the session cannot
   complete before the last card is reached: from index `i`, at least
   `deckSize - 1 - i` "next" presses come before the first completion.
   */
  lemma {:induction false} RunCardsStaysInDeck(deckSize: nat, index: nat, events: seq<CardEvent>)
    requires index < deckSize
    ensures RunCards(deckSize, index, events).index < deckSize
    ensures RunCards(deckSize, index, events).completions > 0 ==> NextPresses(events) >= deckSize - index
    decreases |events|
  {
    if |events| > 0 {
      match events[0]
      case Prev =>
        RunCardsStaysInDeck(deckSize, PrevCard(deckSize, index), events[1..]);
      case Next =>
        RunCardsStaysInDeck(deckSize, NextCard(deckSize, index).index, events[1..]);
    }
  }
}
