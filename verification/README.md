# Quizlet activity: a verified model of its navigation and practice logic

The Android app is a single activity (`MainActivity.kt`). It keeps a list of
flashcards (`Quizlet`: a question, a correct answer and a list of wrong
answers) and switches between four screens:

- the main menu;
- a form that adds a card;
- a practice screen, which picks a random card, shows its answers in shuffled
  order and reacts to a tap;
- a goodbye screen, which closes the activity after five seconds.

This project models that logic in Dafny as one pure reducer,
`App.Step(state, event)`, and proves what the code promises about it.

- `lists.dfy` (`Lists`): Kotlin's `indexOf` and `MutableList.remove(element)`
  on sequences. Removal takes out the first structurally equal element.
- `subsequences.dfy` (`Subsequences`): sublists that keep their order, and
  the fact that removal leaves one.
- `choice.dfy` (`Choice`): `random()` and `shuffled()`. Each takes the random
  source's numbers as an argument. A completeness lemma shows that every
  arrangement of the answers can come out.
- `quiz.dfy` (`Quiz`): the card, the screen enum, the five form fields and the
  answer options of one render.
- `app.dfy` (`App`): the state is the visible screen, the state that screen
  `remember`s (the form's fields, or the practice session's card and its two
  flags) and the card list. It also holds the events and the reducer.
- `ui.dfy` (`Ui`): what a state renders (`Render`) and which events that
  display can produce (`Offers`).
- `properties.dfy` (`Properties`): the invariant of reachable states and
  lemmas that relate the reducer to the display. It also has lemmas about
  whole sequences of events.

Modelling choices:

- **Remembered state lives with its screen.** Leaving a screen drops what it
  remembered, as leaving the composition does. Coming back to the form shows
  blank fields, and coming back to practice picks a new card with both flags
  down.
- **The empty-list early return** (lines 121-132) is `PracticeView(None)`.
  The invariant `Properties.Inv` shows this is exactly the case of an empty
  list.
- **Randomness is an input.**
  - `StartPractice(draw)` carries the number that resolves `random()`.
  - `Render(s, draws)` takes the numbers that this render's `shuffled()` uses.
  - The options are not part of the state. They are recomputed on every render
    (line 159), so nothing in the model claims that their order is stable.
- **Timers are one `Timeout` event.** It ends the single five-second delay
  that the visible screen has launched:
  - the dark wrong-answer screen lowers its flag;
  - "Good job!" lowers its flag;
  - the goodbye screen calls `finish()`, which is the terminal state `Closed`.

  A delay launched by a screen that has since been left was cancelled with
  its composition. So a `Timeout` on the menu or the form does nothing.
- **Events the display does not offer are ignored.** A tap on a button that
  is not on screen, or an answer that is not among the options, leaves the
  state as it is (`Properties.IgnoredUnlessOffered`).

Where the code does something a reader might not expect, the model follows
the code:

- **Delete stays on the practice screen.** The lambda at line 56 only removes
  the card, and `currentScreen` is not touched.
- **Delete removes by structural equality.** It removes the first card equal
  to the session card (the Kotlin data class has structural `equals`). That is
  not necessarily the very object that was picked.
- **The remembered card survives a Delete while other cards remain.** After
  the Delete, the practice screen keeps showing the card it remembered, which
  may no longer be in the list (`Properties.DeleteKeepsRememberedCard`). Only
  when the list becomes empty does the early return drop it.
- **The answer order is not fixed for a session.** It is reshuffled whenever
  the question view is composed again, for instance when "Good job!" appears
  or disappears (`Properties.OptionOrderChangesBetweenRenders`).
- **Answer flags are independent.** A correct answer raises "Good job!"
  without lowering a pending wrong-answer flag, and the reverse. On screen,
  the wrong-answer flag takes priority.

## Model

| member | source | states |
|---|---|---|
| Lists.FirstIndex | app/src/main/java/com/example/quizlet/MainActivity.kt:56 | the position found is the first element equal to the card, and it is the length exactly when no element is equal |
| Lists.RemoveFirst | app/src/main/java/com/example/quizlet/MainActivity.kt:56 | `remove(element)` drops the first structurally equal element, and only it: the list shrinks by one when the card is present and is returned unchanged otherwise; as a multiset it loses exactly one copy of the card |
| Lists.RemoveFirstKeepsOrder | app/src/main/java/com/example/quizlet/MainActivity.kt:56 | the cards before the removed one keep their positions, and the cards after it keep their relative order, each moving up by one |
| Lists.RemoveFirstKeepsOnlyMembers | app/src/main/java/com/example/quizlet/MainActivity.kt:56 | every card left after a removal was in the list before |
| Subsequences.RemoveFirstIsSubsequence | app/src/main/java/com/example/quizlet/MainActivity.kt:56 | the list after a removal is the list before with elements left out, in their order |
| Choice.Pick | app/src/main/java/com/example/quizlet/MainActivity.kt:136 | `random()` picks nothing from an empty list and otherwise a member of the list; every position can be picked by some draw |
| Choice.Shuffle | app/src/main/java/com/example/quizlet/MainActivity.kt:159 | `shuffled()` returns a permutation of its input: same length, same multiset |
| Choice.ShuffleReachesEveryArrangement | app/src/main/java/com/example/quizlet/MainActivity.kt:159 | every permutation of the input is the outcome of some draws, so the model of the shuffle rules out no order |
| Quiz.EditDraft | app/src/main/java/com/example/quizlet/MainActivity.kt:89-100 | typing in a field of the form sets that field to the text typed and leaves the other four fields as they were |
| Quiz.Options | app/src/main/java/com/example/quizlet/MainActivity.kt:159 | the answer buttons are a permutation of the wrong answers plus the correct answer: one more than the wrong answers, the correct answer among them |
| Quiz.OptionsAreTheAnswers | app/src/main/java/com/example/quizlet/MainActivity.kt:159-160 | whatever the shuffle, an answer is on a button exactly when it is one of the card's answers |
| Ui.Render | app/src/main/java/com/example/quizlet/MainActivity.kt:121-183 | what a state shows: "No quizlets" exactly when the practice screen has no session, the dark screen whenever the wrong-answer flag is up even under "Good job!", otherwise the session card's question with its answers in this render's order and "Good job!" exactly when that flag is up; nothing once finished |
| Ui.Offers | app/src/main/java/com/example/quizlet/MainActivity.kt:72-206 | which events each display produces: a running timer only on the dark screen, under "Good job!" and on the goodbye screen; Back only on the empty practice screen and the question; Delete only on the question; an answer only when it is on a button; form events only on the form, menu events only on the menu |
| App.StepMenu | app/src/main/java/com/example/quizlet/MainActivity.kt:73-83 | each menu button leads to its own screen and no other (Add to the form with blank fields, Practice to practice, Close to goodbye), the card list unchanged; practice on an empty list has no session, otherwise the session card is a member of the list with both flags down |
| App.StepAdd | app/src/main/java/com/example/quizlet/MainActivity.kt:46-51 | Save appends one card built from the five fields in order (three wrong answers), keeps the earlier cards in order and returns to the menu; Cancel returns to the menu with the list unchanged; typing edits one field only; nothing else changes anything |
| App.Answer | app/src/main/java/com/example/quizlet/MainActivity.kt:162-168 | a tapped answer equal to the correct answer raises "Good job!", any other raises the wrong-answer flag; the other flag and the card stay |
| App.StepNotQuite | app/src/main/java/com/example/quizlet/MainActivity.kt:138-152 | on the dark screen only the end of its timer does anything, and it lowers the wrong-answer flag only; card, list and the other flag stay |
| App.StepQuestion | app/src/main/java/com/example/quizlet/MainActivity.kt:157-194 | an offered answer is evaluated; Delete removes the first card equal to the session card and stays on the practice screen, keeping the remembered session unless the list became empty; Back returns to the menu with the list unchanged; the "Good job!" timer lowers its flag only |
| App.StepPractice | app/src/main/java/com/example/quizlet/MainActivity.kt:121-196 | without a session only Back does anything; the list changes only by Delete on the question view; the practice screen is left only by Back, to the menu, with the list unchanged |
| App.Step | app/src/main/java/com/example/quizlet/MainActivity.kt:43-61 | the goodbye timer, and nothing else, closes the activity, and nothing follows closing; only Save on the form and Delete in practice change the list; a timer never changes screen or list; the menu and the form have no pending timer |
| App.Run | app/src/main/java/com/example/quizlet/MainActivity.kt:37-38 | closing is final over any sequence of events, and a sequence without Save or Delete leaves the card list as it was |
| Properties.InitialState | app/src/main/java/com/example/quizlet/MainActivity.kt:37-38 | the activity starts on the main menu with an empty card list, offering only the three menu buttons, in a state that satisfies the invariant |
| Properties.StepPreservesInv | app/src/main/java/com/example/quizlet/MainActivity.kt:121-136 | every step keeps: all cards have three wrong answers, the practice screen has a session exactly when the list is non-empty, and the session card has three wrong answers |
| Properties.RunPreservesInv | app/src/main/java/com/example/quizlet/MainActivity.kt:121-136 | the same invariant holds after any sequence of events |
| Properties.RunKeepsInsertionOrder | app/src/main/java/com/example/quizlet/MainActivity.kt:46-56 | after any sequence of adds and deletes the card list is the starting list followed by the cards saved along the way, with some left out: survivors keep their insertion order |
| Properties.StepKeepsInsertionOrder | app/src/main/java/com/example/quizlet/MainActivity.kt:46-56 | a single step appends the card it saves, leaves a subsequence on Delete, and otherwise keeps the list |
| Properties.ReachableQuestionHasFourOptions | app/src/main/java/com/example/quizlet/MainActivity.kt:159 | in every reachable state a question shows the session card's question and exactly four answers, an arrangement of that card's three wrong answers and its correct answer |
| Properties.ReachableEmptyPractice | app/src/main/java/com/example/quizlet/MainActivity.kt:121-132 | in every reachable practice state "No quizlets" shows exactly when the list is empty, and then Back is the only event offered and every other event changes nothing |
| Properties.IgnoredUnlessOffered | app/src/main/java/com/example/quizlet/MainActivity.kt:72-210 | an event that the rendered display does not offer leaves the state unchanged |
| Properties.OffersIgnoreTheShuffle | app/src/main/java/com/example/quizlet/MainActivity.kt:159-173 | which events a display offers does not depend on the order the render gave the answers |
| Properties.TapAnswer | app/src/main/java/com/example/quizlet/MainActivity.kt:159-168 | a tap on any answer button of any render compares that answer with the correct one: equal raises "Good job!", unequal raises the wrong-answer screen; card and list stay |
| Properties.AnyAnswerCanComeFirst | app/src/main/java/com/example/quizlet/MainActivity.kt:159 | every answer of the card is shown first by some render |
| Properties.OptionOrderChangesBetweenRenders | app/src/main/java/com/example/quizlet/MainActivity.kt:159 | two renders of the same question can order its answers differently, so the order is not stable within a session |
| Properties.DeleteKeepsRememberedCard | app/src/main/java/com/example/quizlet/MainActivity.kt:186-187 | deleting the session card while another card remains keeps showing the remembered card although it is no longer in the list |
| Properties.AddThroughTheForm | app/src/main/java/com/example/quizlet/MainActivity.kt:89-104 | opening the form shows blank fields; typing the five fields fills them; Save then appends exactly that card and returns to the menu |
| Properties.FillInTheForm | app/src/main/java/com/example/quizlet/MainActivity.kt:96-100 | typing into each of the five fields leaves the form holding exactly what was typed, whatever it held before |
| Properties.PracticeRound | app/src/main/java/com/example/quizlet/MainActivity.kt:121-192 | with one card: the session opens on it, a correct answer raises "Good job!", its timer lowers it, a wrong answer shows the dark screen, its timer returns to the question, Delete empties the list and shows "No quizlets", as does the next practice session |

## Left out

- Compose rendering is not modelled: layout, colours, fonts, padding and the
  theme. The display is reduced to which buttons, fields, texts and timers are
  on screen.
- The "Quizlet saved!" toast (line 49) is not modelled. It has no effect on
  the state.
- Real time is not modelled. The five-second delays and the coroutine
  machinery of `LaunchedEffect` become one abstract `Timeout` event for the
  pending delay of the visible screen. Cancellation on leaving a screen is the
  rule that a `Timeout` elsewhere does nothing.
- The random source is a parameter. `random()` is resolved by the number
  carried by `StartPractice`, and `shuffled()` by the numbers passed to
  `Render`.
  - Choice.Shuffle: it draws without replacement instead of running Kotlin's
    own shuffle algorithm, so the exact sequence of random calls is not
    modelled. Its set of possible outcomes is every permutation, as
    `Choice.ShuffleReachesEveryArrangement` shows.
  - Choice.Pick: an empty list yields no card rather than the exception Kotlin
    throws. The code never calls `random()` on an empty list.
- Recomposition is modelled only where it changes behaviour. Remembered state
  survives while its screen stays on display and is dropped on leaving it.
  Configuration changes (for instance a rotation, which rebuilds the
  activity) are not modelled.
- The system Back button and the rest of the Android activity lifecycle are
  not modelled. `finish()` is the terminal state `Closed`.
- The theme file and the other files of the app (resources, build scripts,
  tests) are not part of this model.
