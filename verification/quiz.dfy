/**
 The data of the quiz: a flashcard (`Quizlet`), the four screens, the five text
 fields of the add form, and the answer options one render of a question shows.
 */
module Quiz {
  import opened Choice

  /** A flashcard. Equality is structural, as for the Kotlin data class. */
  datatype Quizlet = Quizlet(question: string, correctAnswer: string, wrongAnswers: seq<string>)

  /** The screen selector of the activity. */
  datatype Screen = MainMenu | AddQuizlet | Practice | Goodbye

  /** The text fields of the add form, in the order they are laid out. */
  datatype Field = QuestionField | CorrectField | WrongField1 | WrongField2 | WrongField3

  /** What has been typed into the add form so far. */
  datatype Draft = Draft(question: string, correctAnswer: string, wrong1: string, wrong2: string, wrong3: string)

  /** A freshly composed form: every field starts as the empty string. */
  const BlankDraft := Draft("", "", "", "", "")

  function FieldValue(d: Draft, f: Field): string {
    match f
    case QuestionField => d.question
    case CorrectField => d.correctAnswer
    case WrongField1 => d.wrong1
    case WrongField2 => d.wrong2
    case WrongField3 => d.wrong3
  }

  /** A text field's `onValueChange`: the edited field takes the new text and
      the other four keep theirs. */
  function EditDraft(d: Draft, f: Field, text: string): (d': Draft)
    ensures FieldValue(d', f) == text
    ensures forall g :: g != f ==> FieldValue(d', g) == FieldValue(d, g)
  {
    match f
    case QuestionField => d.(question := text)
    case CorrectField => d.(correctAnswer := text)
    case WrongField1 => d.(wrong1 := text)
    case WrongField2 => d.(wrong2 := text)
    case WrongField3 => d.(wrong3 := text)
  }

  /** The card the Save button builds from the form. */
  function CardOf(d: Draft): Quizlet {
    Quizlet(d.question, d.correctAnswer, [d.wrong1, d.wrong2, d.wrong3])
  }

  /** The answers a card offers before shuffling: its wrong answers, then its correct one. */
  function AnswerPool(q: Quizlet): seq<string> {
    q.wrongAnswers + [q.correctAnswer]
  }

  /** The answer buttons of one render of the question, shuffled with the draws
      the random source produced for that render. */
  function Options(q: Quizlet, draws: seq<nat>): (o: seq<string>)
    ensures multiset(o) == multiset(q.wrongAnswers) + multiset{q.correctAnswer}
    ensures |o| == |q.wrongAnswers| + 1
    ensures q.correctAnswer in o
  {
    var o := Shuffle(AnswerPool(q), draws);
    assert q.correctAnswer in multiset(AnswerPool(q));
    o
  }

  /** Every render offers the same answers, in whatever order: those of the card. */
  lemma OptionsAreTheAnswers(q: Quizlet, draws: seq<nat>, a: string)
    ensures a in Options(q, draws) <==> a in AnswerPool(q)
  {
    assert a in Options(q, draws) <==> a in multiset(Options(q, draws));
    assert a in AnswerPool(q) <==> a in multiset(AnswerPool(q));
  }
}
