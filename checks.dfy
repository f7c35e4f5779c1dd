/**
 * The verdicts of the checks that decide on counts and WHOIS fields: domain age,
 * page structure, owner, reviews, and the verdict written when the page cannot be fetched.
 * Each verdict is a text; the contracts say how the report will read it.
 */
module Checks {
  import opened Text
  import opened Evidence
  import opened Verdicts
  import opened Names

  /** Written by the WHOIS-based checks when the lookup raises. */
  const CheckFailed: string := "🟡 " + NegativeWord + " (ошибка проверки)"

  lemma CheckFailedIsNegativeWarning()
    ensures Classify(CheckFailed) == YellowNegative
  {
    ContainsMiddle("🟡 ", NegativeWord, " (ошибка проверки)");
  }

  // ---------------------------------------------------------------- domain age

  /** Younger than four months counts against the site. */
  const YoungDomainDays: int := 120

  /** Whole months of age, rounded down as Python's `//` does, also for a creation date in the future. */
  function Months(days: int): (m: int)
    ensures m * 30 <= days < m * 30 + 30
  {
    days / 30
  }

  /**
   * The age the check works with: a single date, or the first of a list. None when the record
   * has no date, when the list is empty (indexing it raises) or when the lookup failed.
   */
  function AgeDays(w: Whois): Option<int> {
    match w
    case WhoisFailed => None
    case WhoisRecord(c, _, _) =>
      match c
      case NoCreationDate => None
      case CreatedAt(d) => Some(d)
      case CreatedAtList(ds) => if ds == [] then None else Some(ds[0])
  }

  function AgeVerdict(days: int): (v: string)
    ensures Classify(v) == (if days < YoungDomainDays then Red else Neutral)
    ensures EndsWith(v, IntToString(Months(days)) + " мес.)")
  {
    var shown := IntToString(Months(days)) + " мес.)";
    IntUnmarked(Months(days));
    if days < YoungDomainDays then
      RedVerdict("🔴 Негатив (", shown);
      EndsWithConcat("🔴 Негатив (", shown);
      "🔴 Негатив (" + shown
    else
      assert Unmarked(" мес.)");
      EndsWithConcat("🟢 Не негатив (", shown);
      "🟢 Не негатив (" + shown
  }

  const NoCreationDateVerdict: string := "🟡 " + NegativeWord + " (не удалось определить)"

  lemma NoCreationDateIsNegativeWarning()
    ensures Classify(NoCreationDateVerdict) == YellowNegative
  {
    ContainsMiddle("🟡 ", NegativeWord, " (не удалось определить)");
  }

  /** The domain-age check: red below 120 days, green from 120 days on, a yellow negative when no age is known. */
  function DomainAgeVerdict(w: Whois): (v: string)
    ensures AgeDays(w).Some? ==> (Classify(v) == Red <==> AgeDays(w).value < YoungDomainDays)
    ensures AgeDays(w).Some? ==> (Classify(v) == Neutral <==> AgeDays(w).value >= YoungDomainDays)
    ensures AgeDays(w).Some? ==> EndsWith(v, IntToString(Months(AgeDays(w).value)) + " мес.)")
    ensures AgeDays(w).None? ==> Classify(v) == YellowNegative
    ensures w.WhoisFailed? || w.creation == CreatedAtList([]) ==> v == CheckFailed
    ensures w.WhoisRecord? && w.creation == NoCreationDate ==> v == NoCreationDateVerdict
  {
    match w
    case WhoisFailed => CheckFailedIsNegativeWarning(); CheckFailed
    case WhoisRecord(c, _, _) =>
      match c
      case NoCreationDate =>
        NoCreationDateIsNegativeWarning();
        NoCreationDateVerdict
      case CreatedAt(d) => AgeVerdict(d)
      case CreatedAtList(ds) =>
        if ds == [] then CheckFailedIsNegativeWarning(); CheckFailed else AgeVerdict(ds[0])
  }

  /** A list of creation dates is judged by its first entry alone. */
  lemma FirstListedDateDecides(ds: seq<int>, org: string, name: string)
    requires ds != []
    ensures DomainAgeVerdict(WhoisRecord(CreatedAtList(ds), org, name)) == DomainAgeVerdict(WhoisRecord(CreatedAt(ds[0]), org, name))
  {
  }

  // ---------------------------------------------------------------- page structure

  const MinInternalLinks: nat := 8

  /** An anchor counts as internal when it is a fragment or a rooted path, or mentions no "http" at all. */
  predicate IsInternal(href: string) {
    StartsWith(href, "#") || StartsWith(href, "/") || !Contains(href, "http")
  }

  /** How many of the anchors are internal. */
  function InternalLinks(hrefs: seq<string>): (n: nat)
    ensures n <= |hrefs|
    ensures n == |hrefs| <==> forall i | 0 <= i < |hrefs| :: IsInternal(hrefs[i])
    ensures n == 0 <==> forall i | 0 <= i < |hrefs| :: !IsInternal(hrefs[i])
  {
    if hrefs == [] then 0
    else
      var init := hrefs[..|hrefs| - 1];
      assert forall i | 0 <= i < |init| :: init[i] == hrefs[i];
      InternalLinks(init) + (if IsInternal(hrefs[|hrefs| - 1]) then 1 else 0)
  }

  const OnePageVerdict: string := "🔴 Негатив (одностраничный)"

  /** The structure check: red exactly when there is no navigation, no form and fewer than eight internal links. */
  function StructureVerdict(navs: nat, links: nat, forms: nat): (v: string)
    ensures Classify(v) == Red <==> navs == 0 && links < MinInternalLinks && forms == 0
    ensures Classify(v) != Red ==> Classify(v) == Neutral
    ensures Classify(v) == Red ==> v == OnePageVerdict
    ensures Classify(v) != Red ==>
      v == "🟢 Не негатив (" + NatToString(links) + " ссылок, " + NatToString(navs) + " навигаций)"
  {
    if navs < 1 && links < MinInternalLinks && forms < 1 then
      OnePageVerdict
    else
      CountsVerdict(links, navs)
  }

  /** The green structure verdict, showing the internal links and the navigation blocks counted. */
  function CountsVerdict(links: nat, navs: nat): (v: string)
    ensures Classify(v) == Neutral
    ensures v == "🟢 Не негатив (" + NatToString(links) + " ссылок, " + NatToString(navs) + " навигаций)"
  {
    var shown := NatToString(links) + " ссылок, " + NatToString(navs) + " навигаций)";
    DigitsUnmarked(NatToString(links));
    DigitsUnmarked(NatToString(navs));
    assert Unmarked(" ссылок, ") && Unmarked(" навигаций)");
    assert Unmarked(shown);
    NeutralVerdict("🟢 Не негатив (", shown, "");
    assert "🟢 Не негатив (" + shown + "" == "🟢 Не негатив (" + NatToString(links) + " ссылок, " + NatToString(navs) + " навигаций)";
    "🟢 Не негатив (" + shown
  }

  /** A page with fewer than eight anchors, no navigation and no form is one-page, whatever the anchors are. */
  lemma FewAnchorsIsOnePage(hrefs: seq<string>)
    requires |hrefs| < MinInternalLinks
    ensures Classify(StructureVerdict(0, InternalLinks(hrefs), 0)) == Red
  {
  }

  /** Eight internal anchors are enough on their own. */
  lemma EightInternalLinksSuffice(hrefs: seq<string>, navs: nat, forms: nat)
    requires |hrefs| >= MinInternalLinks && forall i | 0 <= i < |hrefs| :: IsInternal(hrefs[i])
    ensures Classify(StructureVerdict(navs, InternalLinks(hrefs), forms)) == Neutral
  {
  }

  // ---------------------------------------------------------------- owner

  const OrgShown: nat := 50
  const NameShown: nat := 30
  const UnknownOwnerVerdict: string := "🟡 Не определено"

  function OrgVerdict(org: string): (v: string)
    ensures StartsWith(v, "🟢 Не негатив (организация: ") && EndsWith(v, Take(org, OrgShown) + ")")
    ensures Unmarked(Take(org, OrgShown)) ==> Classify(v) == Neutral
  {
    var head := "🟢 Не негатив (организация: ";
    assert Unmarked(head) && Unmarked(")");
    NeutralVerdict(head, Take(org, OrgShown), ")");
    StartsWithConcat(head, Take(org, OrgShown) + ")");
    EndsWithConcat(head, Take(org, OrgShown) + ")");
    assert head + Take(org, OrgShown) + ")" == head + (Take(org, OrgShown) + ")");
    head + Take(org, OrgShown) + ")"
  }

  function PersonVerdict(name: string): (v: string)
    ensures Classify(v) == Red
    ensures StartsWith(v, "🔴 Негатив (частное лицо: ") && EndsWith(v, Take(name, NameShown) + ")")
  {
    RedVerdict("🔴 Негатив (частное лицо: ", Take(name, NameShown) + ")");
    StartsWithConcat("🔴 Негатив (частное лицо: ", Take(name, NameShown) + ")");
    EndsWithConcat("🔴 Негатив (частное лицо: ", Take(name, NameShown) + ")");
    assert "🔴 Негатив (частное лицо: " + Take(name, NameShown) + ")" == "🔴 Негатив (частное лицо: " + (Take(name, NameShown) + ")");
    "🔴 Негатив (частное лицо: " + Take(name, NameShown) + ")"
  }

  /**
   * A name that is not a person's is shown in a yellow verdict without the word "Негатив";
   * but the name itself is part of the text the report reads.
   */
  function UndeterminedVerdict(name: string): (v: string)
    ensures Classify(v) ==
      (if RedMark in Take(name, NameShown) then Red
       else if Contains(Take(name, NameShown), NegativeWord) then YellowNegative
       else YellowOther)
    ensures StartsWith(v, "🟡 Не определено (") && EndsWith(v, Take(name, NameShown) + ")")
  {
    var head := "🟡 Не определено (";
    var shown := Take(name, NameShown);
    UndeterminedReading(head, shown);
    StartsWithConcat(head, shown + ")");
    EndsWithConcat(head, shown + ")");
    assert head + shown + ")" == head + (shown + ")");
    head + shown + ")"
  }

  lemma UndeterminedReading(head: string, shown: string)
    requires head == "🟡 Не определено ("
    ensures Classify(head + shown + ")") ==
      (if RedMark in shown then Red else if Contains(shown, NegativeWord) then YellowNegative else YellowOther)
  {
    assert 'г' in NegativeWord && 'г' !in head && 'г' !in ")";
    MissingCharNotContained(head, NegativeWord, 'г');
    MissingCharNotContained(")", NegativeWord, 'г');
    if Contains(shown, NegativeWord) {
      ContainsInRight(head, shown, NegativeWord);
      ContainsInLeft(head + shown, ")", NegativeWord);
    } else {
      NotContainsAcrossLeftBarrier(head, shown, NegativeWord);
      NotContainsAcrossRightBarrier(head + shown, ")", NegativeWord);
    }
    assert (head + shown + ")")[0] == YellowMark;
  }

  /**
   * The owner check: an organisation wins over any name; a name that reads as a person
   * (two or three Cyrillic words, or two Latin words) is red; any other name, or none,
   * is undetermined; a failed lookup is a yellow negative.
   */
  function OwnerVerdict(w: Whois): (v: string)
    ensures w.WhoisFailed? ==> v == CheckFailed && Classify(v) == YellowNegative
    ensures w.WhoisRecord? && w.org != [] ==> v == OrgVerdict(w.org)
    ensures w.WhoisRecord? && w.org == [] && w.name != [] && IsPersonName(w.name) ==> v == PersonVerdict(w.name)
    ensures w.WhoisRecord? && w.org != [] ==>
      StartsWith(v, "🟢 Не негатив (организация: ") &&
      (Unmarked(Take(w.org, OrgShown)) ==> Classify(v) == Neutral)
    ensures w.WhoisRecord? && w.org == [] && w.name != [] && IsPersonName(w.name) ==> Classify(v) == Red
    ensures w.WhoisRecord? && w.org == [] && w.name != [] && !IsPersonName(w.name) ==>
      v == UndeterminedVerdict(w.name)
    ensures w.WhoisRecord? && w.org == [] && w.name == [] ==> Classify(v) == YellowOther
  {
    match w
    case WhoisFailed => CheckFailedIsNegativeWarning(); CheckFailed
    case WhoisRecord(_, org, name) =>
      if org != [] then OrgVerdict(org)
      else if name != [] then
        if IsPersonName(name) then PersonVerdict(name) else UndeterminedVerdict(name)
      else
        assert 'г' in NegativeWord && 'г' !in UnknownOwnerVerdict;
        MissingCharNotContained(UnknownOwnerVerdict, NegativeWord, 'г');
        UnknownOwnerVerdict
  }

  // ---------------------------------------------------------------- reviews and availability

  /** The review check is a placeholder: it always asks for a manual look. */
  const ReviewsVerdict: string := "🟡 Требует ручной проверки"

  lemma ReviewsIsPlainWarning()
    ensures Classify(ReviewsVerdict) == YellowOther
  {
    assert 'г' in NegativeWord && 'г' !in ReviewsVerdict;
    MissingCharNotContained(ReviewsVerdict, NegativeWord, 'г');
  }

  /** Written instead of the three page checks when the page cannot be fetched. */
  const UnreachableVerdict: string := "🔴 Негатив (сайт недоступен)"
}
