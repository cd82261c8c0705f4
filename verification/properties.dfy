/**
 Properties of the reducer over whole runs and against the display: what holds
 in every state reachable from the first composition, how the reducer agrees with
 what is on screen, and where the code's behaviour differs from a session that
 keeps its card and its option order fixed.
 */
module Properties {
  import opened Lists
  import opened Subsequences
  import opened Choice
  import opened Quiz
  import opened App
  import opened Ui

  /** A card as the add form builds it: three wrong answers. */
  predicate FromForm(q: Quizlet) {
    |q.wrongAnswers| == 3
  }

  /** What every reachable state satisfies: every card, and the session card,
      came from the form; and the practice screen has a session exactly when the
      list is not empty, which is the `isEmpty()` check of each composition. */
  predicate Inv(s: AppState) {
    match s
    case Closed => true
    case Running(view, cards) =>
      && (forall i :: 0 <= i < |cards| ==> FromForm(cards[i]))
      && (view.PracticeView? ==> (view.session.None? <==> |cards| == 0))
      && (view.PracticeView? && view.session.Some? ==> FromForm(view.session.value.card))
  }

  /** The activity starts on the main menu with no cards, a state that
      satisfies the invariant. */
  lemma InitialState(draws: seq<nat>)
    ensures Render(Init, draws) == MenuButtons
    ensures Init.Running? && |Init.quizlets| == 0
    ensures Inv(Init)
    ensures forall e :: Offers(Render(Init, draws), e) <==> e.AddNew? || e.StartPractice? || e.CloseApp?
  {
  }

  lemma StepPreservesInv(s: AppState, e: Event)
    requires Inv(s)
    ensures Inv(Step(s, e))
  {
    match s
    case Closed =>
    case Running(view, cards) =>
      match view
      case MenuView =>
        if e.StartPractice? && |cards| > 0 {
          assert cards[e.draw % |cards|] in cards;
        }
      case AddView(d) =>
        if e.Save? {
          assert FromForm(CardOf(d));
        }
      case PracticeView(session) =>
        if session.Some? && !session.value.showWrongAnswerScreen && e.Delete? {
          var rest := RemoveFirst(cards, session.value.card);
          forall i | 0 <= i < |rest|
            ensures FromForm(rest[i])
          {
            RemoveFirstKeepsOnlyMembers(cards, session.value.card, rest[i]);
          }
        }
      case GoodbyeView =>
  }

  lemma {:induction false} RunPreservesInv(s: AppState, es: seq<Event>)
    requires Inv(s)
    ensures Inv(Run(s, es))
    decreases |es|
  {
    if |es| > 0 {
      StepPreservesInv(s, es[0]);
      RunPreservesInv(Step(s, es[0]), es[1..]);
    }
  }

  /** The cards the Save button appends along a run of `es` from `s`, in the
      order they are saved. */
  function Saved(s: AppState, es: seq<Event>): (cs: seq<Quizlet>)
    ensures |cs| <= |es|
    decreases |es|
  {
    if |es| == 0 then []
    else
      var here := if s.Running? && s.view.AddView? && es[0].Save? then [CardOf(s.view.draft)] else [];
      here + Saved(Step(s, es[0]), es[1..])
  }

  /** Whatever is added and deleted along a run, the cards at its end are the
      cards at its start followed by those saved, with some left out: every
      survivor keeps its insertion order. */
  lemma {:induction false} RunKeepsInsertionOrder(s: AppState, es: seq<Event>)
    requires Run(s, es).Running?
    ensures s.Running? && Subsequence(Run(s, es).quizlets, s.quizlets + Saved(s, es))
    decreases |es|
  {
    if |es| > 0 {
      var s1 := Step(s, es[0]);
      var rest := es[1..];
      assert s1.Running? && Subsequence(Run(s1, rest).quizlets, s1.quizlets + Saved(s1, rest)) by {
        RunKeepsInsertionOrder(s1, rest);
      }
      assert Subsequence(s1.quizlets + Saved(s1, rest), s.quizlets + Saved(s, es)) by {
        StepKeepsInsertionOrder(s, es[0], Saved(s1, rest));
      }
      SubsequenceTrans(Run(s1, rest).quizlets, s1.quizlets + Saved(s1, rest), s.quizlets + Saved(s, es));
    } else {
      SubsequenceRefl(s.quizlets);
      assert s.quizlets + Saved(s, es) == s.quizlets;
    }
  }

  /** One step of `RunKeepsInsertionOrder`: Save appends the card it saves,
      Delete leaves a subsequence, and every other event keeps the list. */
  lemma StepKeepsInsertionOrder(s: AppState, e: Event, later: seq<Quizlet>)
    requires Step(s, e).Running?
    ensures var saved := if s.view.AddView? && e.Save? then [CardOf(s.view.draft)] else [];
            Subsequence(Step(s, e).quizlets + later, s.quizlets + (saved + later))
  {
    var r := Step(s, e);
    if s.view.AddView? && e.Save? {
      assert r.quizlets == s.quizlets + [CardOf(s.view.draft)];
      assert r.quizlets + later == s.quizlets + ([CardOf(s.view.draft)] + later);
      SubsequenceRefl(r.quizlets + later);
    } else if s.view.PracticeView? && e.Delete? && r.quizlets != s.quizlets {
      var sess := s.view.session.value;
      assert r.quizlets == RemoveFirst(s.quizlets, sess.card);
      RemoveFirstIsSubsequence(s.quizlets, sess.card);
      SubsequenceAppend(r.quizlets, s.quizlets, later);
      assert [] + later == later;
    } else {
      assert r.quizlets == s.quizlets;
      assert [] + later == later;
      SubsequenceRefl(s.quizlets + later);
    }
  }

  /** In every reachable state a question shows four answer buttons, and they
      are an arrangement of the session card's answers: its three wrong answers
      and its correct one. */
  lemma ReachableQuestionHasFourOptions(es: seq<Event>, draws: seq<nat>)
    ensures var s := Run(Init, es);
            var d := Render(s, draws);
            d.Question? ==>
              && s.Running? && s.view.PracticeView? && s.view.session.Some?
              && var card := s.view.session.value.card;
              && d.question == card.question
              && |card.wrongAnswers| == 3
              && |d.options| == 4
              && card.correctAnswer in d.options
              && multiset(d.options) == multiset(card.wrongAnswers) + multiset{card.correctAnswer}
  {
    RunPreservesInv(Init, es);
  }

  /** In every reachable state the practice screen shows "No quizlets" exactly
      when the card list is empty, and then only Back does anything. */
  lemma ReachableEmptyPractice(es: seq<Event>, draws: seq<nat>, e: Event)
    requires Run(Init, es).Running? && Run(Init, es).view.PracticeView?
    ensures var s := Run(Init, es);
            && (Render(s, draws) == NoQuizlets <==> |s.quizlets| == 0)
            && (|s.quizlets| == 0 ==> (Offers(Render(s, draws), e) <==> e.BackToMenu?))
            && (|s.quizlets| == 0 && !e.BackToMenu? ==> Step(s, e) == s)
  {
    RunPreservesInv(Init, es);
  }

  /** The reducer ignores whatever the display does not offer. */
  lemma IgnoredUnlessOffered(s: AppState, draws: seq<nat>, e: Event)
    requires !Offers(Render(s, draws), e)
    ensures Step(s, e) == s
  {
    match s
    case Closed =>
    case Running(view, cards) =>
      match view {
        case PracticeView(Some(sess)) =>
          if !sess.showWrongAnswerScreen {
            var o := Options(sess.card, draws);
            assert multiset(o) == multiset(AnswerPool(sess.card));
            QuestionIgnoresUnoffered(sess, cards, o, e);
          }
        case _ =>
      }
  }

  /** The question view ignores what it does not offer, whatever order this
      render gave the answers. */
  lemma QuestionIgnoresUnoffered(sess: Session, cards: seq<Quizlet>, o: seq<string>, e: Event)
    requires multiset(o) == multiset(AnswerPool(sess.card))
    requires !Offers(Question(sess.card.question, o, sess.showMessage), e)
    ensures StepQuestion(sess, cards, e) == Running(PracticeView(Some(sess)), cards)
  {
    if e.Choose? {
      assert e.option !in multiset(AnswerPool(sess.card));
    }
  }

  /** Which events are on offer does not depend on how this render shuffled the
      answers, so the answer a tap selects, not its position, is what counts. */
  lemma OffersIgnoreTheShuffle(s: AppState, draws1: seq<nat>, draws2: seq<nat>, e: Event)
    ensures Offers(Render(s, draws1), e) <==> Offers(Render(s, draws2), e)
  {
    var d1, d2 := Render(s, draws1), Render(s, draws2);
    if d1.Question? {
      var q := s.view.session.value.card;
      assert multiset(d1.options) == multiset(q.wrongAnswers) + multiset{q.correctAnswer};
      assert multiset(d2.options) == multiset(q.wrongAnswers) + multiset{q.correctAnswer};
      ArrangementsOfferTheSame(d1, d2, e);
    }
  }

  /** Two question displays that differ only in the order of their answers
      offer the same events. */
  lemma ArrangementsOfferTheSame(d1: Display, d2: Display, e: Event)
    requires d1.Question? && d2.Question? && d1.goodJob == d2.goodJob
    requires multiset(d1.options) == multiset(d2.options)
    ensures Offers(d1, e) <==> Offers(d2, e)
  {
    if e.Choose? {
      assert e.option in d1.options <==> e.option in multiset(d2.options);
    }
  }

  /** On the question view, a tap on any answer button of any render compares
      that answer with the session card's correct answer: a match raises
      "Good job!", anything else raises the wrong-answer screen; the card and
      the list stay. */
  lemma TapAnswer(s: AppState, draws: seq<nat>, i: nat)
    requires s.Running? && s.view.PracticeView? && s.view.session.Some?
    requires !s.view.session.value.showWrongAnswerScreen
    requires i <= |s.view.session.value.card.wrongAnswers|
    ensures Render(s, draws).Question? && i < |Render(s, draws).options|
    ensures var sess := s.view.session.value;
            var answer := Render(s, draws).options[i];
            var r := Step(s, Choose(answer));
            && r.Running? && r.quizlets == s.quizlets && r.view.PracticeView? && r.view.session.Some?
            && r.view.session.value.card == sess.card
            && (r.view.session.value.showMessage <==> sess.showMessage || answer == sess.card.correctAnswer)
            && (r.view.session.value.showWrongAnswerScreen <==> answer != sess.card.correctAnswer)
  {
    var sess := s.view.session.value;
    var answer := Render(s, draws).options[i];
    assert answer in AnswerPool(sess.card) by {
      OptionsAreTheAnswers(sess.card, draws, answer);
    }
    assert Step(s, Choose(answer)) == Running(PracticeView(Some(Answer(sess, answer))), s.quizlets);
  }

  /** Each render shuffles the answers anew: whichever answer of the card,
      some render shows it first. */
  lemma AnyAnswerCanComeFirst(q: Quizlet, i: nat)
    requires i < |AnswerPool(q)|
    ensures Options(q, [i])[0] == AnswerPool(q)[i]
  {
    assert i % |AnswerPool(q)| == i;
  }

  /** So two renders of the same question may order its answers differently. */
  lemma OptionOrderChangesBetweenRenders(q: Quizlet)
    requires |q.wrongAnswers| > 0 && q.wrongAnswers[0] != q.correctAnswer
    ensures Options(q, [0]) != Options(q, [|q.wrongAnswers|])
  {
    AnyAnswerCanComeFirst(q, 0);
    AnyAnswerCanComeFirst(q, |q.wrongAnswers|);
  }

  /** Deleting the session card while other cards remain keeps the remembered
      card on screen although it is no longer in the list. */
  lemma DeleteKeepsRememberedCard()
    ensures var a := Quizlet("2+2?", "4", ["3", "5", "6"]);
            var b := Quizlet("Capital of France?", "Paris", ["London", "Berlin", "Rome"]);
            var s := Running(PracticeView(Some(Session(a, false, false))), [a, b]);
            var r := Step(s, Delete);
            && r == Running(PracticeView(Some(Session(a, false, false))), [b])
            && a !in r.quizlets
  {
    var a := Quizlet("2+2?", "4", ["3", "5", "6"]);
    var b := Quizlet("Capital of France?", "Paris", ["London", "Berlin", "Rome"]);
    assert FirstIndex([a, b], a) == 0;
    assert RemoveAt([a, b], 0) == [b];
  }

  /** Filling in the five fields of the form and saving appends exactly that
      card to the list and returns to the menu. */
  lemma AddThroughTheForm(cards: seq<Quizlet>, question: string, correct: string, w1: string, w2: string, w3: string)
    ensures var form := Step(Running(MenuView, cards), AddNew);
            var typed := Step(Step(Step(Step(Step(form,
                           Type(QuestionField, question)), Type(CorrectField, correct)),
                           Type(WrongField1, w1)), Type(WrongField2, w2)), Type(WrongField3, w3));
            && form == Running(AddView(BlankDraft), cards)
            && typed == Running(AddView(Draft(question, correct, w1, w2, w3)), cards)
            && Step(typed, Save) == Running(MenuView, cards + [Quizlet(question, correct, [w1, w2, w3])])
  {
    FillInTheForm(BlankDraft, question, correct, w1, w2, w3);
  }

  /** Whatever the form held, typing into each of its five fields leaves it
      holding exactly what was typed. */
  lemma FillInTheForm(d: Draft, question: string, correct: string, w1: string, w2: string, w3: string)
    ensures EditDraft(EditDraft(EditDraft(EditDraft(EditDraft(d, QuestionField, question),
              CorrectField, correct), WrongField1, w1), WrongField2, w2), WrongField3, w3)
            == Draft(question, correct, w1, w2, w3)
  {
  }

  /** A one-card practice round: answer right, let "Good job!" expire, answer
      wrong, let the dark screen expire, delete the card. The screen is then the
      empty view, and so is the next practice session. */
  lemma PracticeRound(card: Quizlet, wrong: string)
    requires wrong in card.wrongAnswers && wrong != card.correctAnswer
    ensures var picked := Step(Running(MenuView, [card]), StartPractice(0));
            var right := Step(picked, Choose(card.correctAnswer));
            var missed := Step(Step(right, Timeout), Choose(wrong));
            var back := Step(missed, Timeout);
            var deleted := Step(back, Delete);
            && picked == Running(PracticeView(Some(Session(card, false, false))), [card])
            && right == Running(PracticeView(Some(Session(card, true, false))), [card])
            && Render(missed, []) == NotQuite
            && back == picked
            && deleted == Running(PracticeView(None), [])
            && Render(Step(Step(deleted, BackToMenu), StartPractice(0)), []) == NoQuizlets
  {
    var picked := Step(Running(MenuView, [card]), StartPractice(0));
    var sess := Session(card, false, false);
    assert picked == Running(PracticeView(Some(sess)), [card]);
    var right := Step(picked, Choose(card.correctAnswer));
    assert right == Running(PracticeView(Some(sess.(showMessage := true))), [card]) by {
      assert card.correctAnswer in AnswerPool(card);
    }
    var cleared := Step(right, Timeout);
    assert cleared == picked;
    var missed := Step(cleared, Choose(wrong));
    assert missed == Running(PracticeView(Some(sess.(showWrongAnswerScreen := true))), [card]) by {
      assert wrong in AnswerPool(card);
    }
    assert Step(missed, Timeout) == picked;
    assert Step(picked, Delete) == Running(PracticeView(None), []) by {
      assert RemoveFirst([card], card) == [] by {
        assert card in [card];
      }
    }
  }
}
