/**
 * Verdicts are Russian strings tagged with a coloured circle. The report does not keep
 * the check's decision: it reads the decision back from the text, by looking for the
 * red or yellow circle and for the word "Негатив".
 */
module Verdicts {
  import opened Text

  /** The four ways the report reads a verdict. */
  datatype Kind = Red | YellowNegative | YellowOther | Neutral

  const RedMark: char := '🔴'
  const YellowMark: char := '🟡'
  const GreenMark: char := '🟢'
  const NegativeWord: string := "Негатив"

  /** The report's reading of a verdict text: red wins, then yellow with "Негатив", then yellow. */
  function Classify(v: string): Kind {
    if RedMark in v then Red
    else if YellowMark in v && Contains(v, NegativeWord) then YellowNegative
    else if YellowMark in v then YellowOther
    else Neutral
  }

  /** Kinds the report counts among the negative factors. */
  predicate IsNegative(k: Kind) { k == Red || k == YellowNegative }

  /** Kinds the report counts among the warnings. */
  predicate IsWarning(k: Kind) { k == YellowNegative || k == YellowOther }

  /** Text that cannot change how a verdict is read: it holds neither a red nor a yellow circle. */
  predicate Unmarked(s: string) { RedMark !in s && YellowMark !in s }

  lemma DigitsUnmarked(s: string)
    requires AllDigits(s)
    ensures Unmarked(s)
  {
    forall i | 0 <= i < |s| ensures s[i] != RedMark && s[i] != YellowMark {
      assert IsDigit(s[i]);
    }
  }

  lemma IntUnmarked(i: int)
    ensures Unmarked(IntToString(i))
  {
    var r := IntToString(i);
    if i >= 0 {
      DigitsUnmarked(r);
    } else {
      DigitsUnmarked(r[1..]);
      assert r == [r[0]] + r[1..];
    }
  }

  /** A verdict whose only red or yellow circle is a leading red one is read as red. */
  lemma RedVerdict(head: string, detail: string)
    requires |head| > 0 && head[0] == RedMark
    ensures Classify(head + detail) == Red
  {
    assert (head + detail)[0] == RedMark;
  }

  /** A green verdict stays neutral as long as the text spliced into it carries no circle. */
  lemma NeutralVerdict(head: string, detail: string, tail: string)
    requires Unmarked(head) && Unmarked(tail)
    ensures Unmarked(detail) ==> Classify(head + detail + tail) == Neutral
    ensures RedMark in detail ==> Classify(head + detail + tail) == Red
  {
  }
}
