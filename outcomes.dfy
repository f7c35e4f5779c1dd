/**
 * What a whole analysis reports, in terms of the evidence it was given: which checks
 * appear and in what order, and when the recommendation is to stay away.
 */
module Outcomes {
  import opened Text
  import opened Evidence
  import opened Verdicts
  import opened Checks
  import opened Updates
  import opened Builders
  import opened Results
  import opened Report
  import opened Analyzer

  /** The checks of an analysis, in order: six when the page was fetched, four when it was not. */
  lemma OutcomeKeys(domain: string, age: Whois, fetch: Fetch, owner: Whois, currentYear: int)
    ensures fetch.Fetched? ==>
      Keys(Outcome(domain, age, fetch, owner, currentYear)) == [AgeKey, UpdatesKey, StructureKey, BuilderKey, OwnerKey, ReviewsKey]
    ensures fetch.FetchFailed? ==>
      Keys(Outcome(domain, age, fetch, owner, currentYear)) == [AgeKey, AvailabilityKey, OwnerKey, ReviewsKey]
    ensures DistinctKeys(Outcome(domain, age, fetch, owner, currentYear))
  {
    match fetch
    case Fetched(p) =>
      FetchedKeys(DomainAgeVerdict(age), ContentVerdict(p, currentYear),
        StructureVerdict(p.navCount, InternalLinks(p.hrefs), p.formCount), BuilderVerdict(domain, p),
        OwnerVerdict(owner), ReviewsVerdict);
    case FetchFailed =>
      UnreachableKeys(DomainAgeVerdict(age), OwnerVerdict(owner), ReviewsVerdict);
  }

  lemma KeysAre(r: ResultMap, ks: seq<string>)
    requires |r| == |ks| && forall i | 0 <= i < |r| :: r[i].0 == ks[i]
    ensures Keys(r) == ks
  {
  }

  lemma FetchedKeys(a: string, u: string, s: string, b: string, o: string, v: string)
    ensures var r := [(AgeKey, a)] + [(UpdatesKey, u), (StructureKey, s), (BuilderKey, b)] + [(OwnerKey, o), (ReviewsKey, v)];
      Keys(r) == [AgeKey, UpdatesKey, StructureKey, BuilderKey, OwnerKey, ReviewsKey] && DistinctKeys(r)
  {
    KeysDiffer();
    var r := [(AgeKey, a), (UpdatesKey, u), (StructureKey, s), (BuilderKey, b), (OwnerKey, o), (ReviewsKey, v)];
    assert [(AgeKey, a)] + [(UpdatesKey, u), (StructureKey, s), (BuilderKey, b)] + [(OwnerKey, o), (ReviewsKey, v)] == r;
    KeysAre(r, [AgeKey, UpdatesKey, StructureKey, BuilderKey, OwnerKey, ReviewsKey]);
  }

  lemma UnreachableKeys(a: string, o: string, v: string)
    ensures var r := [(AgeKey, a)] + [(AvailabilityKey, UnreachableVerdict)] + [(OwnerKey, o), (ReviewsKey, v)];
      Keys(r) == [AgeKey, AvailabilityKey, OwnerKey, ReviewsKey] && DistinctKeys(r)
  {
    KeysDiffer();
    var r := [(AgeKey, a), (AvailabilityKey, UnreachableVerdict), (OwnerKey, o), (ReviewsKey, v)];
    assert [(AgeKey, a)] + [(AvailabilityKey, UnreachableVerdict)] + [(OwnerKey, o), (ReviewsKey, v)] == r;
    KeysAre(r, [AgeKey, AvailabilityKey, OwnerKey, ReviewsKey]);
  }

  /** The counts of an analysis are the counts of its parts. */
  lemma OutcomeCounts(domain: string, age: Whois, fetch: Fetch, owner: Whois, currentYear: int)
    ensures var r := Outcome(domain, age, fetch, owner, currentYear);
      var ends := [(OwnerKey, OwnerVerdict(owner)), (ReviewsKey, ReviewsVerdict)];
      Negatives(r) == Negatives([(AgeKey, DomainAgeVerdict(age))]) + Negatives(PageResults(domain, fetch, currentYear)) + Negatives(ends) &&
      Warnings(r) == Warnings([(AgeKey, DomainAgeVerdict(age))]) + Warnings(PageResults(domain, fetch, currentYear)) + Warnings(ends)
  {
    var first := [(AgeKey, DomainAgeVerdict(age))];
    var page := PageResults(domain, fetch, currentYear);
    var ends := [(OwnerKey, OwnerVerdict(owner)), (ReviewsKey, ReviewsVerdict)];
    CountsAdd(first, page);
    CountsAdd(first + page, ends);
  }

  /** The owner and reviews verdicts: the reviews always add one warning and nothing negative. */
  lemma EndCounts(owner: Whois)
    ensures var ends := [(OwnerKey, OwnerVerdict(owner)), (ReviewsKey, ReviewsVerdict)];
      Negatives(ends) == Negatives([(OwnerKey, OwnerVerdict(owner))]) &&
      Warnings(ends) == Warnings([(OwnerKey, OwnerVerdict(owner))]) + 1
  {
    var o := [(OwnerKey, OwnerVerdict(owner))];
    var v := [(ReviewsKey, ReviewsVerdict)];
    assert o + v == [(OwnerKey, OwnerVerdict(owner)), (ReviewsKey, ReviewsVerdict)];
    CountsAdd(o, v);
    ReviewsIsPlainWarning();
    OneVerdictCounts(ReviewsKey, ReviewsVerdict);
  }

  lemma UnreachableCounts(domain: string, currentYear: int)
    ensures Negatives(PageResults(domain, FetchFailed, currentYear)) == 1
    ensures Warnings(PageResults(domain, FetchFailed, currentYear)) == 0
  {
    assert UnreachableVerdict[0] == RedMark;
    OneVerdictCounts(AvailabilityKey, UnreachableVerdict);
  }

  /** A verdict counted as negative adds one negative factor. */
  lemma NegativeCounts(key: string, v: string)
    requires IsNegative(Classify(v))
    ensures Negatives([(key, v)]) == 1
  {
    OneVerdictCounts(key, v);
  }

  /**
   * The review check is a placeholder that always asks for a manual look, so every
   * report ends by mentioning at least one warning.
   */
  lemma EveryReportMentionsWarnings(domain: string, age: Whois, fetch: Fetch, owner: Whois, currentYear: int)
    ensures var r := Outcome(domain, age, fetch, owner, currentYear);
      Warnings(r) >= 1 && EndsWith(ReportText(r), WarningsWord)
  {
    var r := Outcome(domain, age, fetch, owner, currentYear);
    OutcomeCounts(domain, age, fetch, owner, currentYear);
    EndCounts(owner);
    WarningsMentionedIffAny(Negatives(r), Warnings(r));
    ReportFrame(r);
    EndsWithTransitive(ReportText(r), Conclusion(Negatives(r), Warnings(r)), WarningsWord);
  }

  /**
   * A site that cannot be fetched and whose domain age is unknown or under 120 days has two
   * negative factors, and the report advises against it.
   */
  lemma UnreachableYoungSiteIsRefused(domain: string, age: Whois, owner: Whois, currentYear: int)
    requires AgeDays(age).None? || AgeDays(age).value < YoungDomainDays
    ensures var r := Outcome(domain, age, FetchFailed, owner, currentYear);
      Negatives(r) >= 2 && StartsWith(Conclusion(Negatives(r), Warnings(r)), RefuseHead)
  {
    var r := Outcome(domain, age, FetchFailed, owner, currentYear);
    OutcomeCounts(domain, age, FetchFailed, owner, currentYear);
    UnreachableCounts(domain, currentYear);
    NegativeCounts(AgeKey, DomainAgeVerdict(age));
    RefusedIffTwoNegatives(Negatives(r), Warnings(r));
  }

  /**
   * When both WHOIS lookups fail, the age and the owner verdicts are both yellow negatives:
   * the report advises against the site whatever its page shows.
   */
  lemma WhoisOutageRefusesAnySite(domain: string, fetch: Fetch, currentYear: int)
    ensures var r := Outcome(domain, WhoisFailed, fetch, WhoisFailed, currentYear);
      Negatives(r) >= 2 && StartsWith(Conclusion(Negatives(r), Warnings(r)), RefuseHead)
  {
    var r := Outcome(domain, WhoisFailed, fetch, WhoisFailed, currentYear);
    OutcomeCounts(domain, WhoisFailed, fetch, WhoisFailed, currentYear);
    EndCounts(WhoisFailed);
    NegativeCounts(AgeKey, DomainAgeVerdict(WhoisFailed));
    NegativeCounts(OwnerKey, OwnerVerdict(WhoisFailed));
    RefusedIffTwoNegatives(Negatives(r), Warnings(r));
  }

  /**
   * A site with an old domain, a Last-Modified header, navigation, no builder sign and a
   * registered organisation has no negative factor and one warning (the reviews): the
   * report says it may be used with caution.
   */
  lemma CleanSiteMayBeUsedWithCaution(domain: string, age: Whois, p: Page, owner: Whois, currentYear: int)
    requires AgeDays(age).Some? && AgeDays(age).value >= YoungDomainDays
    requires p.lastModified.Some? && Unmarked(Take(p.lastModified.value, HeaderShown))
    requires p.navCount > 0 && !AnySign(domain, p)
    requires owner.WhoisRecord? && owner.org != [] && Unmarked(Take(owner.org, OrgShown))
    ensures var r := Outcome(domain, age, Fetched(p), owner, currentYear);
      Negatives(r) == 0 && Warnings(r) == 1 && StartsWith(Conclusion(Negatives(r), Warnings(r)), CautionHead)
  {
    var r := Outcome(domain, age, Fetched(p), owner, currentYear);
    OutcomeCounts(domain, age, Fetched(p), owner, currentYear);
    EndCounts(owner);
    FetchedPageClean(domain, p, currentYear);
    OneVerdictCounts(AgeKey, DomainAgeVerdict(age));
    OneVerdictCounts(OwnerKey, OwnerVerdict(owner));
    RefusedIffTwoNegatives(Negatives(r), Warnings(r));
  }

  lemma FetchedPageClean(domain: string, p: Page, currentYear: int)
    requires p.lastModified.Some? && Unmarked(Take(p.lastModified.value, HeaderShown))
    requires p.navCount > 0 && !AnySign(domain, p)
    ensures Negatives(PageResults(domain, Fetched(p), currentYear)) == 0
    ensures Warnings(PageResults(domain, Fetched(p), currentYear)) == 0
  {
    var u := [(UpdatesKey, ContentVerdict(p, currentYear))];
    var s := [(StructureKey, StructureVerdict(p.navCount, InternalLinks(p.hrefs), p.formCount))];
    var b := [(BuilderKey, BuilderVerdict(domain, p))];
    assert PageResults(domain, Fetched(p), currentYear) == u + s + b;
    CountsAdd(u, s);
    CountsAdd(u + s, b);
    OneVerdictCounts(UpdatesKey, ContentVerdict(p, currentYear));
    OneVerdictCounts(StructureKey, StructureVerdict(p.navCount, InternalLinks(p.hrefs), p.formCount));
    OneVerdictCounts(BuilderKey, BuilderVerdict(domain, p));
  }
}
