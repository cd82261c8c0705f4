/**
 What the activity draws for a state, reduced to what the user can act on: which
 buttons and fields are on screen, the question and the answer buttons in the
 order of this render, and whether a five-second timer is running. Every render
 shuffles the answers anew, so the order is an input (`draws`), not state.
 */
module Ui {
  import opened Choice
  import opened Quiz
  import opened App

  datatype Display =
    | MenuButtons                                   // three menu buttons
    | Form(draft: Draft)                            // five text fields, Save, Cancel
    | NoQuizlets                                    // "No quizlets available", Back
    | NotQuite                                      // the dark wrong-answer screen, timer running
    | Question(question: string, options: seq<string>, goodJob: bool)
                                                    // answers, Delete, Back; "Good job!" with its timer
    | GoodbyeText                                   // "Goodbye!", timer running
    | Gone                                          // nothing: the activity has finished

  /** The composition of a state, with the draws this render's `shuffled()` uses.
      The practice screen shows "No quizlets" exactly when it holds no session;
      the dark screen hides the question whenever its flag is up, even under a
      raised "Good job!"; otherwise the question shows its card's answers in
      this render's order, with "Good job!" exactly when that flag is up. */
  function Render(s: AppState, draws: seq<nat>): (d: Display)
    ensures d.Gone? <==> s.Closed?
    ensures d.NoQuizlets? <==> s.Running? && s.view == PracticeView(None)
    ensures d.NotQuite? <==>
              s.Running? && s.view.PracticeView? && s.view.session.Some? && s.view.session.value.showWrongAnswerScreen
    ensures d.Question? <==>
              s.Running? && s.view.PracticeView? && s.view.session.Some? && !s.view.session.value.showWrongAnswerScreen
    ensures d.Question? ==>
              var sess := s.view.session.value;
              && d.question == sess.card.question
              && multiset(d.options) == multiset(AnswerPool(sess.card))
              && (d.goodJob <==> sess.showMessage)
  {
    match s
    case Closed => Gone
    case Running(view, _) =>
      match view
      case MenuView => MenuButtons
      case AddView(d) => Form(d)
      case PracticeView(None) => NoQuizlets
      case PracticeView(Some(sess)) =>
        if sess.showWrongAnswerScreen then NotQuite
        else Question(sess.card.question, Options(sess.card, draws), sess.showMessage)
      case GoodbyeView => GoodbyeText
  }

  /** The events a display can produce: taps on the buttons it shows, typing in
      its fields, and the expiry of the timer it has launched. Seen event by
      event: a timer runs on the dark screen, under "Good job!" and on the
      goodbye screen only; Back is on the empty practice screen and the
      question; an answer can be tapped only when it is on a button; and the
      finished activity offers nothing. */
  function Offers(d: Display, e: Event): (b: bool)
    ensures e.Timeout? ==> (b <==> d.NotQuite? || d.GoodbyeText? || (d.Question? && d.goodJob))
    ensures e.BackToMenu? ==> (b <==> d.NoQuizlets? || d.Question?)
    ensures e.Delete? ==> (b <==> d.Question?)
    ensures e.Choose? ==> (b <==> d.Question? && e.option in d.options)
    ensures e.Save? || e.Cancel? || e.Type? ==> (b <==> d.Form?)
    ensures e.AddNew? || e.StartPractice? || e.CloseApp? ==> (b <==> d.MenuButtons?)
  {
    match d
    case MenuButtons => e.AddNew? || e.StartPractice? || e.CloseApp?
    case Form(_) => e.Type? || e.Save? || e.Cancel?
    case NoQuizlets => e.BackToMenu?
    case NotQuite => e.Timeout?
    case Question(_, options, goodJob) =>
      (e.Choose? && e.option in options) || e.Delete? || e.BackToMenu? || (e.Timeout? && goodJob)
    case GoodbyeText => e.Timeout?
    case Gone => false
  }
}
