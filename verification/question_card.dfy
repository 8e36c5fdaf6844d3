/** The question card's interaction logic: which choice click is passed on, when
    the verdict and explanation are shown, and how each choice is highlighted.
    The parent owns the selected answer; the card owns only `revealed`. */
module QuestionCard {
  import opened Wrappers

  datatype CardMode = PracticeCard | ExamCard

  datatype Props = Props(
    correctAnswer: string,
    selectedAnswer: Option<string>,
    mode: CardMode,
    showResult: bool)

  /** The card's one piece of local state. */
  datatype Card = Card(props: Props, revealed: bool)

  function Mount(props: Props): (c: Card)
    ensures !c.revealed && c.props == props
  {
    Card(props, false)
  }

  predicate IsAnswered(c: Card) {
    c.props.selectedAnswer.Some?
  }

  /** The verdict and explanation appear only in practice, once revealed or when
      the parent asks for results. */
  predicate ShowExplanation(c: Card) {
    c.props.mode == PracticeCard && (c.revealed || c.props.showResult)
  }

  predicate IsCorrect(c: Card) {
    c.props.selectedAnswer == Some(c.props.correctAnswer)
  }

  /** What a click on a choice does: the choice passed to the parent, if any, and
      the card afterwards. */
  datatype Click = Click(card: Card, answered: Option<string>)

  function HandleSelect(c: Card, choice: string): (r: Click)
    ensures r.answered.Some? <==> c.props.mode == ExamCard || !IsAnswered(c)
    ensures r.answered.Some? ==> r.answered.value == choice
    ensures r.card.props == c.props
    ensures r.card.revealed <==> c.revealed || (c.props.mode == PracticeCard && !IsAnswered(c))
  {
    if c.props.mode == ExamCard || !IsAnswered(c) then
      Click(c.(revealed := c.revealed || c.props.mode == PracticeCard), Some(choice))
    else
      Click(c, None)
  }

  /** The parent stores the answer it was given and re-renders the card with it. */
  function Rerender(c: Card, selected: Option<string>): Card
  {
    c.(props := c.props.(selectedAnswer := selected))
  }

  /** Practice mode takes one answer: after the first click is stored, later
      clicks are ignored and the explanation stays open. */
  lemma PracticeAnswerIsFinal(props: Props, first: string, second: string)
    requires props.mode == PracticeCard && props.selectedAnswer.None?
    ensures var c1 := HandleSelect(Mount(props), first);
      var c2 := Rerender(c1.card, c1.answered);
      var c3 := HandleSelect(c2, second);
      && c1.answered == Some(first)
      && ShowExplanation(c2)
      && ChoicesDisabled(c2)
      && c3.answered.None? && c3.card == c2
  {
  }

  /** In exam mode every click is passed on and nothing is ever revealed. */
  lemma ExamNeverReveals(c: Card, choice: string)
    requires c.props.mode == ExamCard
    ensures HandleSelect(c, choice).answered == Some(choice)
    ensures !ShowExplanation(HandleSelect(c, choice).card)
  {
  }

  predicate ChoicesDisabled(c: Card) {
    c.props.mode == PracticeCard && IsAnswered(c) && c.revealed
  }

  datatype ChoiceStyle = Highlighted | Plain | CorrectGlow | WrongShake | Dimmed

  /** The highlight of one choice: the pick before anything is revealed; the key,
      a wrong pick and the rest afterwards. */
  function StyleOf(c: Card, choice: string): (s: ChoiceStyle)
    ensures !ShowExplanation(c) && !c.props.showResult ==>
      (s == Highlighted <==> c.props.selectedAnswer == Some(choice)) && (s == Highlighted || s == Plain)
    ensures ShowExplanation(c) || c.props.showResult ==>
      && (s == CorrectGlow <==> choice == c.props.correctAnswer)
      && (s == WrongShake <==> choice != c.props.correctAnswer && c.props.selectedAnswer == Some(choice))
      && s != Highlighted && s != Plain
  {
    if !ShowExplanation(c) && !c.props.showResult then
      if c.props.selectedAnswer == Some(choice) then Highlighted else Plain
    else if choice == c.props.correctAnswer then CorrectGlow
    else if c.props.selectedAnswer == Some(choice) && !IsCorrect(c) then WrongShake
    else Dimmed
  }

  /** After the reveal a correct pick glows and nothing shakes; a wrong pick shakes
      and the key glows beside it. */
  lemma RevealMarksKeyAndPick(c: Card, labels: seq<string>)
    requires ShowExplanation(c) && c.props.correctAnswer in labels
    ensures IsCorrect(c) ==> forall l :: l in labels ==> StyleOf(c, l) != WrongShake
    ensures !IsCorrect(c) && c.props.selectedAnswer.Some? && c.props.selectedAnswer.value in labels ==>
      exists l :: l in labels && StyleOf(c, l) == WrongShake
    ensures exists l :: l in labels && StyleOf(c, l) == CorrectGlow
  {
    assert StyleOf(c, c.props.correctAnswer) == CorrectGlow;
    if !IsCorrect(c) && c.props.selectedAnswer.Some? && c.props.selectedAnswer.value in labels {
      assert StyleOf(c, c.props.selectedAnswer.value) == WrongShake;
    }
  }

  /** The verdict line above the explanation. */
  function Verdict(c: Card): (v: Option<string>)
    ensures v.Some? <==> ShowExplanation(c)
    ensures v.Some? && IsCorrect(c) ==> v.value == "✓ 正解！"
    ensures v.Some? && !IsCorrect(c) ==> v.value == "✗ 不正解（正解: " + c.props.correctAnswer + "）"
  {
    if !ShowExplanation(c) then None
    else if IsCorrect(c) then Some("✓ 正解！")
    else Some("✗ 不正解（正解: " + c.props.correctAnswer + "）")
  }
}
