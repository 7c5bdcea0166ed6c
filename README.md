# Flashzilla study session, modelled in Dafny

Flashzilla is a flashcard app. Its main screen holds a session: a deck of
cards (prompt/answer pairs), a countdown in seconds, a flag saying whether the
countdown runs, and a flag raising the "Game over" alert. The user answers the
top card by dragging it off. A correct answer drops the card. A wrong answer
takes the card out and, a tenth of a second later, puts it back at the bottom
of the stack. A one-second timer counts down while the session is active. The
app leaving the foreground pauses the countdown. A restart reloads the stored
deck, shuffles it and sets the clock to 5 seconds.

This project models that session and proves how each event changes it.

- `wrappers.dfy`: `Option`, the result of decoding the stored deck.
- `card.dfy`: `Card`, the prompt/answer pair.
- `deck.dfy`: the list operations on the deck. These are removal at an index,
  the requeue of a missed card, and the shuffle with its random choices given
  as a parameter.
- `messages.dfy`: the text of the "Game over" alert.
- `content_view.dfy`: the class `ContentView` with the session's fields and one
  method per event, plus the stacking offset of the cards on screen.

Behaviour as the code has it:

- Index 0 is the bottom of the stack. The card the user answers is the last
  one. A wrong answer therefore sends the card to the bottom, to be answered
  after every other card.
- A stored deck that fails to decode leaves the current deck in place. It is
  not emptied.
- When the clock reaches 0, the countdown flag stays set. Every later tick
  re-sets the alert flag, which is already set. The ticks at 0 end with a
  restart (the clock goes back to 5), a correct answer that empties the deck,
  or the app leaving the foreground. Only closing the alert clears the alert
  flag, and closing it also restarts the round.
- A wrong answer does not stop the countdown, even when it empties the deck
  for a moment. A correct answer that empties the deck does stop it.
- A requeued card waiting for its deferred insert is not affected by a restart.
  It is inserted into the freshly loaded deck when its callback runs
  (`ResetCards` leaves `pending` alone).

## Model

| member | source | states |
|---|---|---|
| `Deck.RemoveAt` | Flashzilla/ContentView.swift:234 | Removing index i gives a deck one card shorter: the cards below i keep their index, the cards above move down one, and the multiset loses exactly one copy of the removed card |
| `Deck.Requeued` | Flashzilla/ContentView.swift:221-224 | Remove-then-insert-at-0 keeps the deck's length and multiset, and the missed card ends up at index 0 |
| `Deck.RequeuedKeepsOrder` | Flashzilla/ContentView.swift:221-224 | After a requeue the other cards keep their relative order: those below the missed card move up one place, those above stay where they were |
| `Deck.RequeuedBottomOnly` | Flashzilla/ContentView.swift:221-224 | A requeue leaves the deck unchanged exactly when the card is already at the bottom, or every card from the bottom up to it is equal to it |
| `Deck.Shuffled` | Flashzilla/ContentView.swift:215 | The shuffle returns a permutation of the deck: same length, same multiset |
| `Deck.ShuffledReachesEveryPermutation` | Flashzilla/ContentView.swift:215 | For every reordering of the deck there are random choices that make the shuffle produce it |
| `Messages.Decimal` | Flashzilla/ContentView.swift:191 | The count's text is a non-empty string of decimal digits with no leading zero; the count 0 is written "0" |
| `Messages.DecimalReadsBack` | Flashzilla/ContentView.swift:191 | Reading the decimal text back gives the count |
| `Messages.GameOverMessage` | Flashzilla/ContentView.swift:188-191 | The message is "1 word was not guessed" exactly when one card is left. For one card it is the count followed by the singular phrase; for every other count it is the count followed by the plural phrase |
| `Messages.MessageReportsCount` | Flashzilla/ContentView.swift:188-191 | The number at the head of the message is the number of cards left |
| `Flashzilla.ContentView.constructor` | Flashzilla/ContentView.swift:25-30 | A new screen has an empty deck, 100 seconds on the clock, the countdown flag set, no alert and no deferred insert pending |
| `Flashzilla.ContentView.LoadData` | Flashzilla/ContentView.swift:198-203 | The deck becomes the decoded deck. When decoding failed it stays as it was. Nothing else changes |
| `Flashzilla.ContentView.ResetCards` | Flashzilla/ContentView.swift:211-216 | The clock is 5 and the countdown runs. The deck is a permutation (same length, same multiset) of the decoded deck, or of the previous deck when decoding failed. The alert and pending inserts are untouched |
| `Flashzilla.ContentView.MoveToBack` | Flashzilla/ContentView.swift:218-229 | A negative index changes nothing. Otherwise the card leaves the deck and joins the queue of pending inserts, and the cards held (deck plus pending) stay the same. The countdown flag and the clock are untouched, even when the deck becomes empty |
| `Flashzilla.ContentView.InsertDeferred` | Flashzilla/ContentView.swift:223-225 | The oldest pending card is inserted at index 0 and leaves the queue. The cards held stay the same |
| `Flashzilla.ContentView.RemoveCard` | Flashzilla/ContentView.swift:231-239 | A negative index changes nothing. Otherwise the deck is one card shorter, without that card. The countdown stops exactly when the deck is now empty and is otherwise unchanged. The clock is never touched |
| `Flashzilla.ContentView.CardRemoved` | Flashzilla/ContentView.swift:92-98 | A card dragged off is requeued when the answer was wrong and dropped when it was right, with the matching effect on the countdown flag |
| `Flashzilla.ContentView.WrongButton` | Flashzilla/ContentView.swift:128-131 | On an empty deck (index -1) nothing changes. Otherwise the top card leaves the deck and is queued for re-insertion |
| `Flashzilla.ContentView.CorrectButton` | Flashzilla/ContentView.swift:143-146 | On an empty deck (index -1) nothing changes. Otherwise the top card is dropped, and the countdown stops when that empties the deck |
| `Flashzilla.ContentView.Tick` | Flashzilla/ContentView.swift:162-169 | An inactive session is unchanged. An active one loses a second while time is left. At 0 the clock stays at 0 and the alert is raised. The clock never goes negative |
| `Flashzilla.ContentView.WillResignActive` | Flashzilla/ContentView.swift:170-172 | The countdown stops |
| `Flashzilla.ContentView.WillEnterForeground` | Flashzilla/ContentView.swift:173-177 | The countdown resumes only when the deck is non-empty. An emptied deck stays inactive |
| `Flashzilla.ContentView.AlertDismissed` | Flashzilla/ContentView.swift:187-194 | Closing the alert clears it and restarts the round: clock 5, countdown running, the deck reloaded and shuffled |
| `Flashzilla.MoveToBackThenInsert` | Flashzilla/ContentView.swift:218-229 | A wrong answer followed by its deferred insert gives the requeued deck: the same length and multiset, the missed card at the bottom. The countdown flag and the clock are unchanged |
| `Flashzilla.StackedOffset` | Flashzilla/ContentView.swift:243-245 | The top card is one step (20 points) down. Every card in the deck is at least one step down. Offsets are whole steps |
| `Flashzilla.StackedOffsetSpacing` | Flashzilla/ContentView.swift:243-245 | A lower card sits strictly further down, by one step for each card between them |

## Left out

- The SwiftUI view tree is not modelled: layout, styling, sheets, the alert as a view, accessibility labels, haptics, and the `ActiveSheet` enum with its `hashValue` id. The screen's calls to `resetCards` on appearing, when a sheet closes and from the "Start again" button shown on an empty deck (ContentView.swift:106-107) are calls to `ResetCards`.
- Hit testing is not modelled. The screen lets only the top card (index count - 1) take gestures, and only while time is left (ContentView.swift:100, 104). `CardRemoved` accepts any card in the deck.
- `CardView.swift` is not modelled. Its drag handling works on floating-point offsets. It calls the removal callback once the card is dragged more than 100 points sideways (CardView.swift:62-66).
- CardRemoved: `move` is a free parameter. The card view declares its callback without an argument and calls it with none (CardView.swift:15, 63), while the screen passes a one-argument closure (ContentView.swift:92), so nothing here shows how `move` is decided.
- `Flashzilla/Settings.swift` is not modelled. It only stores one boolean through the platform's key-value store and JSON coder.
- JSON decoding of the stored deck is a parameter of type `Option<seq<Card>>`. The `reuseWords` flag is loaded but never used on this screen, so it is not modelled (ContentView.swift:204-208).
- The randomness of `shuffle()` is a parameter `picks`. `Shuffled` is not the platform's algorithm. It is proved to return a permutation, and every permutation is proved reachable.
- Timing is not modelled: the one-second timer, the 0.1-second delay of the deferred insert, and the notification centre. Each callback is a method the caller invokes. Pending inserts fire oldest first.
- `RemoveCard` and `MoveToBack` require an index below the deck's size. Swift's `remove(at:)` traps on a larger index, and the screen never passes one.
- `StackedOffset` works on integers. The source converts to `CGFloat`, which is exact for these small values.
