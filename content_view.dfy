/**
 * The study session behind Flashzilla's main screen: the deck of cards, the
 * countdown, whether the countdown is running, and whether the "Game over"
 * alert is raised. Each event the screen reacts to is a method: an answer
 * (correct or wrong), the deferred re-insert of a wrong card, a timer tick,
 * the app leaving or re-entering the foreground, and a restart.
 */
module Flashzilla {
  import opened Wrappers
  import opened Cards
  import opened Deck

  /** Seconds on the clock when the screen is first created. */
  const InitialTime := 100
  /** Seconds on the clock after every restart. */
  const RoundTime := 5
  /** Vertical distance, in points, between two neighbouring cards of the stack. */
  const StackStep := 20

  /** The deck a load leaves: the decoded deck, or the previous one when decoding failed. */
  function LoadedDeck(previous: seq<Card>, decoded: Option<seq<Card>>): seq<Card> {
    if decoded.Some? then decoded.value else previous
  }

  class ContentView {
    /** The deck; index 0 is the bottom card, the top card (the one answered) is last. */
    var cards: seq<Card>
    var timeRemaining: int
    var isActive: bool
    var showingAlert: bool
    /**
     * Cards taken out by MoveToBack whose deferred insert has not run yet,
     * oldest first: the callbacks share one delay and fire in the order they
     * were scheduled.
     */
    var pending: seq<Card>

    /** The clock never shows a negative time. */
    ghost predicate Valid()
      reads this
    {
      timeRemaining >= 0
    }

    /** Every card the session holds: those in the deck and those waiting to go back in. */
    ghost function Held(): multiset<Card>
      reads this
    {
      multiset(cards) + multiset(pending)
    }

    constructor ()
      ensures Valid()
      ensures cards == [] && pending == []
      ensures timeRemaining == InitialTime && isActive && !showingAlert
    {
      cards := [];
      timeRemaining := InitialTime;
      isActive := true;
      showingAlert := false;
      pending := [];
    }

    /** Replaces the deck with the stored one, keeping the current deck when decoding failed. */
    method LoadData(decoded: Option<seq<Card>>)
      modifies this`cards
      ensures cards == LoadedDeck(old(cards), decoded)
    {
      if decoded.Some? {
        cards := decoded.value;
      }
    }

    /**
     * Restarts the round: a full clock, the countdown running, and the loaded
     * deck in an order chosen by `picks`.
     */
    method ResetCards(decoded: Option<seq<Card>>, picks: seq<nat>)
      requires Valid()
      modifies this`cards, this`timeRemaining, this`isActive
      ensures Valid()
      ensures timeRemaining == RoundTime && isActive
      ensures |cards| == |LoadedDeck(old(cards), decoded)|
      ensures multiset(cards) == multiset(LoadedDeck(old(cards), decoded))
      ensures cards == Shuffled(LoadedDeck(old(cards), decoded), picks)
    {
      timeRemaining := RoundTime;
      isActive := true;
      LoadData(decoded);
      cards := Shuffled(cards, picks);
    }

    /**
     * A wrong answer for the card at `index`: it leaves the deck now and is
     * queued for re-insertion at the bottom. A negative index changes nothing.
     * The countdown is left alone even when the deck is now empty.
     */
    method MoveToBack(index: int)
      requires Valid()
      requires index < |cards|
      modifies this`cards, this`pending
      ensures Valid()
      ensures index < 0 ==> cards == old(cards) && pending == old(pending)
      ensures index >= 0 ==> cards == RemoveAt(old(cards), index)
      ensures index >= 0 ==> pending == old(pending) + [old(cards)[index]]
      ensures Held() == old(Held())
    {
      if index < 0 {
        return;
      }
      var card := cards[index];
      cards := RemoveAt(cards, index);
      pending := pending + [card];
      assert old(cards) == old(cards)[..index] + [card] + old(cards)[index + 1..];
    }

    /** The deferred callback of the oldest MoveToBack: its card goes back in at the bottom. */
    method InsertDeferred()
      requires Valid()
      requires pending != []
      modifies this`cards, this`pending
      ensures Valid()
      ensures cards == [old(pending)[0]] + old(cards)
      ensures pending == old(pending)[1..]
      ensures Held() == old(Held())
    {
      var card := pending[0];
      cards := [card] + cards;
      pending := pending[1..];
      assert old(pending) == [card] + pending;
    }

    /**
     * A correct answer for the card at `index`: the card is dropped. A
     * negative index changes nothing. Emptying the deck stops the countdown.
     */
    method RemoveCard(index: int)
      requires Valid()
      requires index < |cards|
      modifies this`cards, this`isActive
      ensures Valid()
      ensures index < 0 ==> cards == old(cards) && isActive == old(isActive)
      ensures index >= 0 ==> cards == RemoveAt(old(cards), index)
      ensures index >= 0 ==> |cards| == |old(cards)| - 1
      ensures index >= 0 ==> Held() == old(Held()) - multiset{old(cards)[index]}
      ensures index >= 0 ==> isActive == (old(isActive) && cards != [])
    {
      if index < 0 {
        return;
      }
      cards := RemoveAt(cards, index);
      if cards == [] {
        isActive := false;
      }
    }

    /** The callback a card view calls once it is dragged off: `move` means the answer was wrong. */
    method CardRemoved(index: int, move: bool)
      requires Valid()
      requires 0 <= index < |cards|
      modifies this`cards, this`pending, this`isActive
      ensures Valid()
      ensures cards == RemoveAt(old(cards), index)
      ensures move ==> pending == old(pending) + [old(cards)[index]] && isActive == old(isActive)
      ensures !move ==> pending == old(pending) && isActive == (old(isActive) && cards != [])
    {
      if move {
        MoveToBack(index);
      } else {
        RemoveCard(index);
      }
    }

    /** The accessibility "Wrong" button: requeues the top card, or does nothing on an empty deck. */
    method WrongButton()
      requires Valid()
      modifies this`cards, this`pending
      ensures Valid()
      ensures old(cards) == [] ==> cards == [] && pending == old(pending)
      ensures old(cards) != [] ==> cards == old(cards)[..|old(cards)| - 1]
      ensures old(cards) != [] ==> pending == old(pending) + [old(cards)[|old(cards)| - 1]]
    {
      MoveToBack(|cards| - 1);
    }

    /** The accessibility "Correct" button: drops the top card, or does nothing on an empty deck. */
    method CorrectButton()
      requires Valid()
      modifies this`cards, this`isActive
      ensures Valid()
      ensures old(cards) == [] ==> cards == [] && isActive == old(isActive)
      ensures old(cards) != [] ==> cards == old(cards)[..|old(cards)| - 1]
      ensures old(cards) != [] ==> isActive == (old(isActive) && cards != [])
    {
      RemoveCard(|cards| - 1);
    }

    /**
     * One second has passed. While the countdown runs, the clock goes down by
     * one; once it is at zero the alert is raised instead and the clock stays at 0.
     */
    method Tick()
      requires Valid()
      modifies this`timeRemaining, this`showingAlert
      ensures Valid()
      ensures !isActive ==> timeRemaining == old(timeRemaining) && showingAlert == old(showingAlert)
      ensures isActive && old(timeRemaining) > 0 ==>
        timeRemaining == old(timeRemaining) - 1 && showingAlert == old(showingAlert)
      ensures isActive && old(timeRemaining) == 0 ==> timeRemaining == 0 && showingAlert
    {
      if !isActive {
        return;
      }
      if timeRemaining > 0 {
        timeRemaining := timeRemaining - 1;
      } else {
        showingAlert := true;
      }
    }

    /** The app is about to leave the foreground: the countdown stops. */
    method WillResignActive()
      modifies this`isActive
      ensures !isActive
    {
      isActive := false;
    }

    /** The app is back in the foreground: the countdown resumes unless the deck is empty. */
    method WillEnterForeground()
      modifies this`isActive
      ensures isActive == (old(isActive) || cards != [])
    {
      if cards != [] {
        isActive := true;
      }
    }

    /** The "OK" button of the "Game over" alert: the alert closes and a new round starts. */
    method AlertDismissed(decoded: Option<seq<Card>>, picks: seq<nat>)
      requires Valid()
      modifies this`cards, this`timeRemaining, this`isActive, this`showingAlert
      ensures Valid()
      ensures !showingAlert && timeRemaining == RoundTime && isActive
      ensures cards == Shuffled(LoadedDeck(old(cards), decoded), picks)
    {
      showingAlert := false;
      ResetCards(decoded, picks);
    }
  }

  /**
   * A wrong answer followed by its deferred insert, with no other insert
   * waiting: the deck holds the same cards, the missed card is at the bottom,
   * the others keep their relative order, and the clock is untouched.
   */
  method MoveToBackThenInsert(view: ContentView, index: int)
    requires view.Valid()
    requires 0 <= index < |view.cards| && view.pending == []
    modifies view`cards, view`pending
    ensures view.Valid()
    ensures view.cards == Requeued(old(view.cards), index) && view.pending == []
    ensures |view.cards| == |old(view.cards)| && multiset(view.cards) == multiset(old(view.cards))
    ensures view.isActive == old(view.isActive) && view.timeRemaining == old(view.timeRemaining)
  {
    ghost var deck := view.cards;
    view.MoveToBack(index);
    ghost var rest := view.cards;
    assert rest == RemoveAt(deck, index) && view.pending == [deck[index]];
    view.InsertDeferred();
    assert view.cards == [deck[index]] + rest;
  }

  /**
   * The vertical offset of the card at `position` in a stack of `total` cards:
   * one step per card above it, so the top card sits one step down and each
   * card below it one step further.
   */
  function StackedOffset(position: int, total: int): (dy: int)
    ensures position == total - 1 ==> dy == StackStep
    ensures position < total ==> dy >= StackStep
    ensures dy % StackStep == 0
  {
    (total - position) * StackStep
  }

  /** Lower cards sit strictly further down, by one step per card between them. */
  lemma StackedOffsetSpacing(p: int, q: int, total: int)
    requires p < q
    ensures StackedOffset(p, total) - StackedOffset(q, total) == (q - p) * StackStep
    ensures StackedOffset(p, total) > StackedOffset(q, total)
  {
  }
}
