/**
 * The report: a header, one line per result in order, a rule of forty '=' characters, and a
 * recommendation that depends only on how many verdicts read as negative and as warnings.
 */
module Report {
  import opened Text
  import opened Verdicts
  import opened Results

  /** How many verdicts the report counts as negative factors. */
  function Negatives(r: ResultMap): (n: nat)
    ensures n <= |r|
  {
    if r == [] then 0
    else Negatives(r[..|r| - 1]) + (if IsNegative(Classify(r[|r| - 1].1)) then 1 else 0)
  }

  /** How many verdicts the report counts as warnings. */
  function Warnings(r: ResultMap): (n: nat)
    ensures n <= |r|
  {
    if r == [] then 0
    else Warnings(r[..|r| - 1]) + (if IsWarning(Classify(r[|r| - 1].1)) then 1 else 0)
  }

  /**
   * What one verdict contributes: a red one a negative factor only, a yellow one with "Негатив"
   * both a negative factor and a warning, any other yellow one a warning only, anything else nothing.
   */
  lemma OneVerdictCounts(key: string, v: string)
    ensures Classify(v) == Red ==> Negatives([(key, v)]) == 1 && Warnings([(key, v)]) == 0
    ensures Classify(v) == YellowNegative ==> Negatives([(key, v)]) == 1 && Warnings([(key, v)]) == 1
    ensures Classify(v) == YellowOther ==> Negatives([(key, v)]) == 0 && Warnings([(key, v)]) == 1
    ensures Classify(v) == Neutral ==> Negatives([(key, v)]) == 0 && Warnings([(key, v)]) == 0
  {
    assert [(key, v)][..0] == [];
  }

  /** The counts of results placed one after the other add up. */
  lemma {:induction false} CountsAdd(a: ResultMap, b: ResultMap)
    ensures Negatives(a + b) == Negatives(a) + Negatives(b)
    ensures Warnings(a + b) == Warnings(a) + Warnings(b)
    decreases |b|
  {
    if b == [] {
      assert a + b == a;
    } else {
      var b' := b[..|b| - 1];
      CountsAdd(a, b');
      assert (a + b)[..|a + b| - 1] == a + b';
      assert (a + b)[|a + b| - 1] == b[|b| - 1];
    }
  }

  const Header: string := "📊 *Результаты анализа сайта*\n\n"

  /** `f"• *{key}*: {value}\n"`. */
  function Line(key: string, value: string): string {
    "• *" + key + "*: " + value + "\n"
  }

  /** One line per result, in the results' order. */
  function Lines(r: ResultMap): string {
    if r == [] then [] else Lines(r[..|r| - 1]) + Line(r[|r| - 1].0, r[|r| - 1].1)
  }

  /** `"\n" + "=" * 40 + "\n\n"`. */
  const Rule: string := "\n" + "========================================" + "\n\n"

  const RefuseMark: char := '❌'
  const CautionMark: char := '⚠'
  const RefuseHead: string := [RefuseMark] + " *РЕКОМЕНДАЦИЯ:* НЕ ПРОВОДИТЬ ОПЕРАЦИИ НА ДАННОМ САЙТЕ\n\n"
  const CautionHead: string := [CautionMark] + "\U{FE0F} *РЕКОМЕНДАЦИЯ:* МОЖНО ИСПОЛЬЗОВАТЬ С ОСТОРОЖНОСТЬЮ\n\n"
  const WarningsWord: string := " предупреждений"

  /** The recommendation for `n` negative factors and `w` warnings. */
  function Conclusion(n: nat, w: nat): string {
    if n >= 2 then RefuseHead + Reason(n, w) else CautionHead + Status(n, w)
  }

  function Reason(n: nat, w: nat): string {
    "*Причина:* " + NatToString(n) + " негативных факторов" + (if w > 0 then " и " + NatToString(w) + WarningsWord else "")
  }

  function Status(n: nat, w: nat): string {
    "*Статус:* " + NatToString(n) + " негативных факторов" + (if w > 0 then ", " + NatToString(w) + WarningsWord else "")
  }

  function ReportText(r: ResultMap): string {
    Header + Lines(r) + Rule + Conclusion(Negatives(r), Warnings(r))
  }

  /** The report advises against the site exactly when at least two verdicts read as negative. */
  lemma RefusedIffTwoNegatives(n: nat, w: nat)
    ensures StartsWith(Conclusion(n, w), RefuseHead) <==> n >= 2
    ensures StartsWith(Conclusion(n, w), CautionHead) <==> n < 2
  {
    var c := Conclusion(n, w);
    if n >= 2 {
      StartsWithConcat(RefuseHead, Reason(n, w));
      assert c[0] == RefuseMark;
    } else {
      StartsWithConcat(CautionHead, Status(n, w));
      assert c[0] == CautionMark;
    }
  }

  /** The number of warnings is mentioned, at the very end, exactly when there is at least one. */
  lemma WarningsMentionedIffAny(n: nat, w: nat)
    ensures EndsWith(Conclusion(n, w), WarningsWord) <==> w > 0
    ensures w > 0 ==> EndsWith(Conclusion(n, w), (if n >= 2 then " и " else ", ") + NatToString(w) + WarningsWord)
  {
    var c := Conclusion(n, w);
    if w > 0 {
      if n >= 2 {
        TailShown(RefuseHead, "*Причина:* " + NatToString(n) + " негативных факторов", " и ", NatToString(w), WarningsWord);
      } else {
        TailShown(CautionHead, "*Статус:* " + NatToString(n) + " негативных факторов", ", ", NatToString(w), WarningsWord);
      }
    } else {
      assert n >= 2 ==> c == RefuseHead + "*Причина:* " + NatToString(n) + " негативных факторов";
      assert n < 2 ==> c == CautionHead + "*Статус:* " + NatToString(n) + " негативных факторов";
      assert c[|c| - 1] == 'в';
      assert WarningsWord[|WarningsWord| - 1] == 'й';
    }
  }

  lemma TailShown(head: string, body: string, sep: string, num: string, word: string)
    ensures EndsWith(head + (body + (sep + num + word)), sep + num + word)
    ensures EndsWith(head + (body + (sep + num + word)), word)
  {
    var tail := sep + num + word;
    assert head + (body + tail) == (head + body) + tail;
    EndsWithConcat(head + body, tail);
    EndsWithConcat(sep + num, word);
    EndsWithTransitive(head + (body + tail), tail, word);
  }

  /** Lines of results placed one after the other are the lines of each, one after the other. */
  lemma {:induction false} LinesAdd(a: ResultMap, b: ResultMap)
    ensures Lines(a + b) == Lines(a) + Lines(b)
    decreases |b|
  {
    if b == [] {
      assert a + b == a;
    } else {
      var b' := b[..|b| - 1];
      LinesAdd(a, b');
      assert (a + b)[..|a + b| - 1] == a + b';
      assert (a + b)[|a + b| - 1] == b[|b| - 1];
    }
  }

  /** The lines of the results before, at and after position `i`. */
  lemma LinesAround(r: ResultMap, i: nat)
    requires i < |r|
    ensures Lines(r) == Lines(r[..i]) + Line(r[i].0, r[i].1) + Lines(r[i + 1..])
  {
    var before, after := r[..i], r[i + 1..];
    var upTo := before + [r[i]];
    SplitAt(r, i);
    LinesAdd(upTo, after);
    assert upTo[..|upTo| - 1] == before;
    assert Lines(upTo) == Lines(before) + Line(r[i].0, r[i].1);
  }

  /** Every result has its line in the report, and the lines keep the results' order. */
  lemma ReportListsEveryResult(r: ResultMap, i: nat)
    requires i < |r|
    ensures ReportText(r) ==
      Header + Lines(r[..i]) + Line(r[i].0, r[i].1) + Lines(r[i + 1..]) + Rule + Conclusion(Negatives(r), Warnings(r))
  {
    LinesAround(r, i);
    Regroup(Header, Lines(r[..i]), Line(r[i].0, r[i].1), Lines(r[i + 1..]), Rule, Conclusion(Negatives(r), Warnings(r)));
  }

  lemma Regroup(a: string, b: string, c: string, d: string, e: string, f: string)
    ensures a + (b + c + d) + e + f == a + b + c + d + e + f
  {
  }

  /** Four texts placed one after the other begin with the first and end with the last. */
  lemma Framed(a: string, b: string, c: string, d: string)
    ensures StartsWith(a + b + c + d, a) && EndsWith(a + b + c + d, d)
  {
    assert a + b + c + d == a + (b + c + d);
    StartsWithConcat(a, b + c + d);
    EndsWithConcat(a + b + c, d);
  }

  /** The report opens with the header and closes with the recommendation. */
  lemma ReportFrame(r: ResultMap)
    ensures StartsWith(ReportText(r), Header)
    ensures EndsWith(ReportText(r), Conclusion(Negatives(r), Warnings(r)))
  {
    Framed(Header, Lines(r), Rule, Conclusion(Negatives(r), Warnings(r)));
  }
}
