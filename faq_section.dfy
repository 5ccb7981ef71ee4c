/** The FAQ accordion: which single question, if any, shows its answer. */
module FaqSection {
  import opened Wrappers

  /** The number of questions in the static list. */
  const QuestionCount: nat := 6

  /** `openIndex === index ? null : index`. */
  function Toggle(openIndex: Option<nat>, index: nat): (r: Option<nat>)
    ensures r == None <==> openIndex == Some(index)
    ensures r != None ==> r == Some(index)
  {
    if openIndex == Some(index) then None else Some(index)
  }

  /** The answer under question `index` is rendered iff `openIndex === index`. */
  predicate AnswerShown(openIndex: Option<nat>, index: nat) {
    openIndex == Some(index)
  }

  /** At most one answer is visible. */
  lemma AtMostOneAnswerShown(openIndex: Option<nat>, i: nat, j: nat)
    requires AnswerShown(openIndex, i) && AnswerShown(openIndex, j)
    ensures i == j
  {
  }

  /** Clicking a closed question opens it and closes whichever was open. */
  lemma ClickClosedOpensOnlyIt(openIndex: Option<nat>, index: nat, j: nat)
    requires !AnswerShown(openIndex, index)
    ensures AnswerShown(Toggle(openIndex, index), j) <==> j == index
  {
  }

  /** Clicking the open question closes it and leaves nothing open. */
  lemma ClickOpenClosesAll(openIndex: Option<nat>, index: nat, j: nat)
    requires AnswerShown(openIndex, index)
    ensures !AnswerShown(Toggle(openIndex, index), j)
  {
  }

  /**
   * Two clicks on the same question restore the previous state exactly when
   * nothing else was open: from another open question they leave all closed.
   */
  lemma ToggleTwice(openIndex: Option<nat>, index: nat)
    ensures Toggle(Toggle(openIndex, index), index) == openIndex <==> openIndex == None || openIndex == Some(index)
    ensures openIndex != None && openIndex != Some(index) ==> Toggle(Toggle(openIndex, index), index) == None
  {
  }

  class Accordion {
    var openIndex: Option<nat>

    /** An open question is one of the list's. */
    predicate Valid()
      reads this
    {
      openIndex.Some? ==> openIndex.value < QuestionCount
    }

    constructor ()
      ensures Valid() && openIndex == None
    {
      openIndex := None;
    }

    /** Whether the answer under question `index` is rendered. */
    predicate IsOpen(index: nat)
      reads this
    {
      AnswerShown(openIndex, index)
    }

    /** The question's button: only questions of the list are rendered, so only they can be clicked. */
    method Click(index: nat)
      requires Valid() && index < QuestionCount
      modifies this
      ensures Valid()
      ensures openIndex == Toggle(old(openIndex), index)
      ensures IsOpen(index) <==> !old(IsOpen(index))
      ensures forall j :: j != index ==> !IsOpen(j)
    {
      openIndex := if openIndex == Some(index) then None else Some(index);
    }
  }
}
