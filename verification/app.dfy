/**
 The activity as one reducer. The state is the screen being shown together with
 the state that screen remembers (the add form's fields, the practice session),
 and the card list the activity owns. Leaving a screen drops what it remembered,
 as leaving the composition does, so coming back starts afresh.

 Events are the user's taps and typing, the draws of the random source at the
 moment the practice screen picks its card, and the expiry of the one pending
 five-second timer (`Timeout`).
 */
module App {
  import opened Lists
  import opened Choice
  import opened Quiz

  /** What the practice screen remembers once it has a card: the card picked
      on entry and the two message flags. */
  datatype Session = Session(card: Quizlet, showMessage: bool, showWrongAnswerScreen: bool)

  /** The screen on display with the state it remembers. A practice screen
      without a session is the "no quizlets" view. */
  datatype View =
    | MenuView
    | AddView(draft: Draft)
    | PracticeView(session: Option<Session>)
    | GoodbyeView

  /** `Closed` is the activity after `finish()`. */
  datatype AppState = Running(view: View, quizlets: seq<Quizlet>) | Closed

  datatype Event =
    | AddNew                       // "Add New Quizlet"
    | StartPractice(draw: nat)     // "Practice Quizlets"; `draw` resolves `random()`
    | CloseApp                     // "Close App"
    | Type(field: Field, text: string)
    | Save
    | Cancel
    | Choose(option: string)       // an answer button
    | Delete                       // "Delete Quizlet"
    | BackToMenu                   // "Back to Menu"
    | Timeout                      // the pending five-second delay ends

  /** The activity as first composed: main menu, no cards. */
  const Init := Running(MenuView, [])

  /** The value of `currentScreen` that routes to a view. */
  function ScreenOf(v: View): Screen {
    match v
    case MenuView => MainMenu
    case AddView(_) => AddQuizlet
    case PracticeView(_) => Practice
    case GoodbyeView => Goodbye
  }

  /** The session that `StartPractice` opens: none for an empty list, otherwise
      the card `random()` picks with both flags down. */
  function OpenSession(cards: seq<Quizlet>, draw: nat): Option<Session> {
    match Pick(cards, draw)
    case None => None
    case Some(card) => Some(Session(card, false, false))
  }

  /** The main menu: each button sets `currentScreen` to its screen. */
  function StepMenu(cards: seq<Quizlet>, e: Event): (r: AppState)
    ensures r.Running? && r.quizlets == cards
    ensures ScreenOf(r.view) == AddQuizlet <==> e.AddNew?
    ensures ScreenOf(r.view) == Practice <==> e.StartPractice?
    ensures ScreenOf(r.view) == Goodbye <==> e.CloseApp?
    ensures e.AddNew? ==> r.view.draft == BlankDraft
    ensures e.StartPractice? ==> (r.view.session.None? <==> |cards| == 0)
    ensures e.StartPractice? && r.view.session.Some? ==>
              var sess := r.view.session.value;
              sess.card in cards && !sess.showMessage && !sess.showWrongAnswerScreen
    ensures e.StartPractice? && e.draw < |cards| ==> r.view.session == Some(Session(cards[e.draw], false, false))
  {
    match e
    case AddNew => Running(AddView(BlankDraft), cards)
    case StartPractice(draw) => Running(PracticeView(OpenSession(cards, draw)), cards)
    case CloseApp => Running(GoodbyeView, cards)
    case _ => Running(MenuView, cards)
  }

  /** The add form: typing edits one field, Save appends the card built from
      the five fields and returns to the menu, Cancel returns without it. */
  function StepAdd(d: Draft, cards: seq<Quizlet>, e: Event): (r: AppState)
    ensures r.Running?
    ensures e.Save? ==>
              && r.view == MenuView
              && |r.quizlets| == |cards| + 1
              && r.quizlets[..|cards|] == cards
              && r.quizlets[|cards|].question == d.question
              && r.quizlets[|cards|].correctAnswer == d.correctAnswer
              && r.quizlets[|cards|].wrongAnswers == [d.wrong1, d.wrong2, d.wrong3]
    ensures e.Cancel? ==> r.view == MenuView && r.quizlets == cards
    ensures e.Type? ==>
              && r.quizlets == cards
              && r.view.AddView?
              && FieldValue(r.view.draft, e.field) == e.text
              && forall g :: g != e.field ==> FieldValue(r.view.draft, g) == FieldValue(d, g)
    ensures !(e.Save? || e.Cancel? || e.Type?) ==> r == Running(AddView(d), cards)
  {
    match e
    case Type(f, text) => Running(AddView(EditDraft(d, f, text)), cards)
    case Save => Running(MenuView, cards + [CardOf(d)])
    case Cancel => Running(MenuView, cards)
    case _ => Running(AddView(d), cards)
  }

  /** An answer button's `onClick`: the tapped answer is compared with the
      correct answer by exact equality; a match raises the "Good job!" flag,
      anything else raises the wrong-answer flag, and nothing else changes. */
  function Answer(sess: Session, option: string): (r: Session)
    ensures r.card == sess.card
    ensures r.showMessage <==> sess.showMessage || option == sess.card.correctAnswer
    ensures r.showWrongAnswerScreen <==> sess.showWrongAnswerScreen || option != sess.card.correctAnswer
  {
    if option == sess.card.correctAnswer then sess.(showMessage := true)
    else sess.(showWrongAnswerScreen := true)
  }

  /** The dark "Not quite..." screen: it shows no button, and the end of its
      timer lowers its own flag only. */
  function StepNotQuite(sess: Session, cards: seq<Quizlet>, e: Event): (r: AppState)
    ensures r.Running? && r.quizlets == cards
    ensures r.view.PracticeView? && r.view.session.Some?
    ensures r.view.session.value.card == sess.card
    ensures r.view.session.value.showMessage == sess.showMessage
    ensures r.view.session.value.showWrongAnswerScreen <==> sess.showWrongAnswerScreen && !e.Timeout?
  {
    var after := if e.Timeout? then sess.(showWrongAnswerScreen := false) else sess;
    Running(PracticeView(Some(after)), cards)
  }

  /** The question view: an answer button evaluates the answer, Delete removes
      the first card equal to the session card and stays on the screen, Back
      returns to the menu, and the end of the "Good job!" timer lowers its flag. */
  function StepQuestion(sess: Session, cards: seq<Quizlet>, e: Event): (r: AppState)
    ensures r.Running?
    ensures e.BackToMenu? ==> r == Running(MenuView, cards)
    ensures e.Choose? && e.option in AnswerPool(sess.card) ==>
              r == Running(PracticeView(Some(Answer(sess, e.option))), cards)
    ensures e.Delete? ==>
              && r.quizlets == RemoveFirst(cards, sess.card)
              && r.view.PracticeView?
              && (r.view.session.None? <==> |r.quizlets| == 0)
              && (r.view.session.Some? ==> r.view.session.value == sess)
    ensures e.Timeout? ==> r.quizlets == cards && r.view == PracticeView(Some(sess.(showMessage := false)))
    ensures !(e.BackToMenu? || e.Delete? || e.Timeout? || (e.Choose? && e.option in AnswerPool(sess.card))) ==>
              r == Running(PracticeView(Some(sess)), cards)
  {
    match e
    case Choose(option) =>
      if option in AnswerPool(sess.card) then Running(PracticeView(Some(Answer(sess, option))), cards)
      else Running(PracticeView(Some(sess)), cards)
    case Delete =>
      var rest := RemoveFirst(cards, sess.card);
      Running(PracticeView(if |rest| == 0 then None else Some(sess)), rest)
    case BackToMenu => Running(MenuView, cards)
    case Timeout => Running(PracticeView(Some(sess.(showMessage := false))), cards)
    case _ => Running(PracticeView(Some(sess)), cards)
  }

  /** The practice screen. Without a session (the list is empty) it shows only
      Back; with one it shows the wrong-answer screen or the question view. */
  function StepPractice(session: Option<Session>, cards: seq<Quizlet>, e: Event): (r: AppState)
    ensures r.Running?
    ensures session.None? ==>
              r == if e.BackToMenu? then Running(MenuView, cards) else Running(PracticeView(None), cards)
    ensures r.quizlets != cards ==> e.Delete? && session.Some? && !session.value.showWrongAnswerScreen
    ensures !r.view.PracticeView? ==>
              && e.BackToMenu? && r.view == MenuView && r.quizlets == cards
              && !(session.Some? && session.value.showWrongAnswerScreen)
  {
    match session
    case None =>
      if e.BackToMenu? then Running(MenuView, cards) else Running(PracticeView(None), cards)
    case Some(sess) =>
      if sess.showWrongAnswerScreen then StepNotQuite(sess, cards, e)
      else StepQuestion(sess, cards, e)
  }

  /** The reducer: the `when (currentScreen)` routing of the activity, with the
      goodbye screen's timer closing the activity. */
  function Step(s: AppState, e: Event): (r: AppState)
    // nothing follows `finish()`
    ensures s.Closed? ==> r == Closed
    // only the goodbye timer closes the activity
    ensures r.Closed? <==> s.Closed? || (s.view.GoodbyeView? && e.Timeout?)
    // only Save on the form and Delete in practice touch the card list
    ensures s.Running? && r.Running? && r.quizlets != s.quizlets ==>
              (s.view.AddView? && e.Save?) || (s.view.PracticeView? && e.Delete?)
    // a timer never moves to another screen or touches the cards
    ensures s.Running? && e.Timeout? && !s.view.GoodbyeView? ==>
              r.Running? && r.quizlets == s.quizlets && ScreenOf(r.view) == ScreenOf(s.view)
    // no timer is pending on the menu or the form: one of a screen already left never fires
    ensures s.Running? && (s.view.MenuView? || s.view.AddView?) && e.Timeout? ==> r == s
  {
    match s
    case Closed => Closed
    case Running(view, cards) =>
      match view
      case MenuView => StepMenu(cards, e)
      case AddView(d) => StepAdd(d, cards, e)
      case PracticeView(session) => StepPractice(session, cards, e)
      case GoodbyeView => if e.Timeout? then Closed else s
  }

  /** The state after a sequence of events. Closing is final, and without a
      Save or a Delete among the events the card list is what it was. */
  function Run(s: AppState, es: seq<Event>): (r: AppState)
    ensures s.Closed? ==> r == Closed
    ensures s.Running? && r.Running? && (forall i :: 0 <= i < |es| ==> !es[i].Save? && !es[i].Delete?) ==>
              r.quizlets == s.quizlets
    decreases |es|
  {
    if |es| == 0 then s else Run(Step(s, es[0]), es[1..])
  }
}
