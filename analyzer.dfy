/**
 * The analyser object. It keeps the results of the last analysis in an ordered
 * dictionary from check name to verdict, runs the checks in a fixed order, and
 * renders the report from whatever the dictionary holds.
 */
module Analyzer {
  import opened Text
  import opened Evidence
  import opened Verdicts
  import opened Url
  import opened Checks
  import opened Updates
  import opened Builders
  import opened Results
  import opened Report

  const AgeKey: string := "Возраст домена"
  const UpdatesKey: string := "Обновления"
  const StructureKey: string := "Структура"
  const BuilderKey: string := "Конструктор"
  const AvailabilityKey: string := "Доступность"
  const OwnerKey: string := "Владелец"
  const ReviewsKey: string := "Отзывы"

  const InvalidUrlMessage: string := "❌ Ошибка: Некорректный URL"

  /** The builder loop: builders in table order, the first whose keyword occurs in one of the texts. */
  method FindBuilder(texts: seq<string>) returns (r: Option<nat>)
    ensures r == FirstBuilder(texts, 0)
  {
    var b := 0;
    while b < |FreeBuilders|
      invariant b <= |FreeBuilders|
      invariant FirstBuilder(texts, b) == FirstBuilder(texts, 0)
    {
      if Mentions(texts, b) {
        return Some(b);
      }
      b := b + 1;
    }
    return None;
  }

  /** The anchor loop: how many hrefs are fragments, rooted paths, or mention no "http". */
  method CountInternal(hrefs: seq<string>) returns (internal: nat)
    ensures internal == InternalLinks(hrefs)
  {
    internal := 0;
    var i := 0;
    while i < |hrefs|
      invariant i <= |hrefs|
      invariant internal == InternalLinks(hrefs[..i])
    {
      var href := hrefs[i];
      if StartsWith(href, "#") || StartsWith(href, "/") || !Contains(href, "http") {
        internal := internal + 1;
      }
      assert hrefs[..i + 1][..i] == hrefs[..i];
      i := i + 1;
    }
    assert hrefs[..i] == hrefs;
  }

  /** The date candidates: the three date searches, extended by the year of each copyright match. */
  method GatherCandidates(p: Page) returns (found: seq<string>)
    ensures found == Candidates(p)
  {
    var dates := p.dayFirstDates + p.yearFirstDates + p.monthWords;
    var groups := p.copyrightGroups;
    found := dates;
    var i := 0;
    while i < |groups|
      invariant i <= |groups|
      invariant found == dates + CopyrightYears(groups[..i])
    {
      var year := if groups[i].0 != [] then groups[i].0 else groups[i].1;
      if year != [] {
        found := found + [year];
      }
      assert groups[..i + 1][..i] == groups[..i];
      i := i + 1;
    }
    assert groups[..i] == groups;
  }

  /** The year loop: the recent years the candidates yield, in candidate order. */
  method RecentOf(window: seq<string>, currentYear: int) returns (recent: seq<nat>)
    ensures recent == RecentYears(window, currentYear)
  {
    recent := [];
    var j := 0;
    while j < |window|
      invariant j <= |window|
      invariant recent == RecentYears(window[..j], currentYear)
    {
      var year := FirstYear(window[j]);
      if year.Some? && year.value >= currentYear - 1 {
        recent := recent + [year.value];
      }
      assert window[..j + 1][..j] == window[..j];
      j := j + 1;
    }
    assert window[..j] == window;
  }

  /** The sign search of the builder check, returning at the first sign found. */
  method DetectBuilder(domain: string, p: Page) returns (d: Detection)
    ensures d == Detect(domain, p)
  {
    var lowered := Lower(domain);
    var found := FindBuilder([lowered, Lower(p.html)]);
    if found.Some? {
      return Platform(found.value);
    }
    if MentionsAny(lowered, FreeHosting) {
      return FreeHost;
    }
    if p.generator.Some? && p.generator.value != [] {
      found := FindBuilder([Lower(p.generator.value)]);
      if found.Some? {
        return Platform(found.value);
      }
    }
    found := FindScriptBuilder(p.scriptSrcs);
    if found.Some? {
      return Platform(found.value);
    }
    return NoSign;
  }

  /** The script loop: scripts in document order, each tried against the builders in table order. */
  method FindScriptBuilder(srcs: seq<string>) returns (r: Option<nat>)
    ensures r == ScriptBuilder(srcs)
  {
    var i := 0;
    while i < |srcs|
      invariant i <= |srcs|
      invariant ScriptBuilder(srcs[i..]) == ScriptBuilder(srcs)
    {
      assert srcs[i..][1..] == srcs[i + 1..];
      r := FindBuilder([Lower(srcs[i])]);
      if r.Some? {
        return;
      }
      i := i + 1;
    }
    return None;
  }

  /** The counting loop of the report: a red mark, else a yellow one with "Негатив", else a yellow one. */
  method CountVerdicts(r: ResultMap) returns (negatives: nat, warnings: nat)
    ensures negatives == Negatives(r) && warnings == Warnings(r)
  {
    negatives, warnings := 0, 0;
    var i := 0;
    while i < |r|
      invariant i <= |r|
      invariant negatives == Negatives(r[..i]) && warnings == Warnings(r[..i])
    {
      var value := r[i].1;
      if RedMark in value {
        negatives := negatives + 1;
      } else if YellowMark in value && Contains(value, NegativeWord) {
        negatives := negatives + 1;
        warnings := warnings + 1;
      } else if YellowMark in value {
        warnings := warnings + 1;
      }
      assert r[..i + 1][..i] == r[..i];
      i := i + 1;
    }
    assert r[..i] == r;
  }

  /** The line loop of the report. */
  method RenderLines(r: ResultMap) returns (lines: string)
    ensures lines == Lines(r)
  {
    lines := [];
    var i := 0;
    while i < |r|
      invariant i <= |r|
      invariant lines == Lines(r[..i])
    {
      lines := lines + Line(r[i].0, r[i].1);
      assert r[..i + 1][..i] == r[..i];
      i := i + 1;
    }
    assert r[..i] == r;
  }

  /** The check names, pairwise different. */
  lemma KeysDiffer()
    ensures UpdatesKey != AgeKey && StructureKey !in {AgeKey, UpdatesKey}
    ensures BuilderKey !in {AgeKey, UpdatesKey, StructureKey} && AvailabilityKey != AgeKey
    ensures OwnerKey !in {AgeKey, UpdatesKey, StructureKey, BuilderKey, AvailabilityKey}
    ensures ReviewsKey !in {AgeKey, UpdatesKey, StructureKey, BuilderKey, AvailabilityKey, OwnerKey}
  {
  }

  /** The six assignments of an analysis of a fetched page, each to a new key, leave the results in that order. */
  lemma FetchedOrder(a: string, u: string, s: string, b: string, o: string, r: string)
    ensures Assigned(Assigned(Assigned(Assigned(Assigned(Assigned([], AgeKey, a), UpdatesKey, u), StructureKey, s), BuilderKey, b), OwnerKey, o), ReviewsKey, r)
      == [(AgeKey, a)] + [(UpdatesKey, u), (StructureKey, s), (BuilderKey, b)] + [(OwnerKey, o), (ReviewsKey, r)]
  {
    KeysDiffer();
    SixFresh(AgeKey, UpdatesKey, StructureKey, BuilderKey, OwnerKey, ReviewsKey, a, u, s, b, o, r);
  }

  /** Six assignments to six different keys append them in order. */
  lemma SixFresh(k1: string, k2: string, k3: string, k4: string, k5: string, k6: string,
                 v1: string, v2: string, v3: string, v4: string, v5: string, v6: string)
    requires k2 != k1 && k3 !in {k1, k2} && k4 !in {k1, k2, k3}
    requires k5 !in {k1, k2, k3, k4} && k6 !in {k1, k2, k3, k4, k5}
    ensures Assigned(Assigned(Assigned(Assigned(Assigned(Assigned([], k1, v1), k2, v2), k3, v3), k4, v4), k5, v5), k6, v6)
      == [(k1, v1)] + [(k2, v2), (k3, v3), (k4, v4)] + [(k5, v5), (k6, v6)]
  {
    ThreeFresh(k1, k2, k3, v1, v2, v3);
    AppendFourth(k1, k2, k3, k4, v1, v2, v3, v4);
    AppendFifth(k1, k2, k3, k4, k5, v1, v2, v3, v4, v5);
    AppendSixth(k1, k2, k3, k4, k5, k6, v1, v2, v3, v4, v5, v6);
  }

  lemma ThreeFresh(k1: string, k2: string, k3: string, v1: string, v2: string, v3: string)
    requires k2 != k1 && k3 !in {k1, k2}
    ensures Assigned(Assigned(Assigned([], k1, v1), k2, v2), k3, v3) == [(k1, v1), (k2, v2), (k3, v3)]
  {
    AssignedNew([(k1, v1)], k2, v2);
    assert [(k1, v1)] + [(k2, v2)] == [(k1, v1), (k2, v2)];
    AssignedNew([(k1, v1), (k2, v2)], k3, v3);
  }

  lemma AppendFourth(k1: string, k2: string, k3: string, k4: string, v1: string, v2: string, v3: string, v4: string)
    requires k4 !in {k1, k2, k3}
    ensures Assigned([(k1, v1), (k2, v2), (k3, v3)], k4, v4) == [(k1, v1), (k2, v2), (k3, v3), (k4, v4)]
  {
    AssignedNew([(k1, v1), (k2, v2), (k3, v3)], k4, v4);
  }

  lemma AppendFifth(k1: string, k2: string, k3: string, k4: string, k5: string,
                    v1: string, v2: string, v3: string, v4: string, v5: string)
    requires k5 !in {k1, k2, k3, k4}
    ensures Assigned([(k1, v1), (k2, v2), (k3, v3), (k4, v4)], k5, v5) == [(k1, v1), (k2, v2), (k3, v3), (k4, v4), (k5, v5)]
  {
    AssignedNew([(k1, v1), (k2, v2), (k3, v3), (k4, v4)], k5, v5);
  }

  lemma AppendSixth(k1: string, k2: string, k3: string, k4: string, k5: string, k6: string,
                    v1: string, v2: string, v3: string, v4: string, v5: string, v6: string)
    requires k6 !in {k1, k2, k3, k4, k5}
    ensures Assigned([(k1, v1), (k2, v2), (k3, v3), (k4, v4), (k5, v5)], k6, v6)
      == [(k1, v1)] + [(k2, v2), (k3, v3), (k4, v4)] + [(k5, v5), (k6, v6)]
  {
    AssignedNew([(k1, v1), (k2, v2), (k3, v3), (k4, v4), (k5, v5)], k6, v6);
    SixRegrouped((k1, v1), (k2, v2), (k3, v3), (k4, v4), (k5, v5), (k6, v6));
  }

  lemma SixRegrouped<T>(x1: T, x2: T, x3: T, x4: T, x5: T, x6: T)
    ensures [x1, x2, x3, x4, x5] + [x6] == [x1] + [x2, x3, x4] + [x5, x6]
  {
  }

  /** The four assignments of an analysis whose page could not be fetched. */
  lemma UnreachableOrder(a: string, o: string, r: string)
    ensures Assigned(Assigned(Assigned(Assigned([], AgeKey, a), AvailabilityKey, UnreachableVerdict), OwnerKey, o), ReviewsKey, r)
      == [(AgeKey, a)] + [(AvailabilityKey, UnreachableVerdict)] + [(OwnerKey, o), (ReviewsKey, r)]
  {
    KeysDiffer();
    ThreeFresh(AgeKey, AvailabilityKey, OwnerKey, a, UnreachableVerdict, o);
    AppendLast(AgeKey, AvailabilityKey, OwnerKey, ReviewsKey, a, UnreachableVerdict, o, r);
  }

  lemma AppendLast(k1: string, k2: string, k3: string, k4: string, v1: string, v2: string, v3: string, v4: string)
    requires k4 !in {k1, k2, k3}
    ensures Assigned([(k1, v1), (k2, v2), (k3, v3)], k4, v4) == [(k1, v1)] + [(k2, v2)] + [(k3, v3), (k4, v4)]
  {
    AssignedNew([(k1, v1), (k2, v2), (k3, v3)], k4, v4);
    FourRegrouped((k1, v1), (k2, v2), (k3, v3), (k4, v4));
  }

  lemma FourRegrouped<T>(x1: T, x2: T, x3: T, x4: T)
    ensures [x1, x2, x3] + [x4] == [x1] + [x2] + [x3, x4]
  {
  }




  /** What the page checks contribute: three verdicts for a fetched page, the availability verdict otherwise. */
  function PageResults(domain: string, fetch: Fetch, currentYear: int): ResultMap {
    match fetch
    case Fetched(p) =>
      [(UpdatesKey, ContentVerdict(p, currentYear)),
       (StructureKey, StructureVerdict(p.navCount, InternalLinks(p.hrefs), p.formCount)),
       (BuilderKey, BuilderVerdict(domain, p))]
    case FetchFailed => [(AvailabilityKey, UnreachableVerdict)]
  }

  /**
   * The results of one analysis of a valid URL: the domain age, then the page checks,
   * then the owner and the reviews.
   */
  function Outcome(domain: string, age: Whois, fetch: Fetch, owner: Whois, currentYear: int): ResultMap {
    [(AgeKey, DomainAgeVerdict(age))] + PageResults(domain, fetch, currentYear) +
    [(OwnerKey, OwnerVerdict(owner)), (ReviewsKey, ReviewsVerdict)]
  }

  class SiteAnalyzer {
    var results: ResultMap

    /** Assignment by key never lets a check name appear twice. */
    predicate Valid()
      reads this
    {
      DistinctKeys(results)
    }

    constructor()
      ensures Valid() && results == []
    {
      results := [];
    }

    /** `self.results[key] = value`. */
    method Record(key: string, value: string)
      requires Valid()
      modifies this
      ensures Valid() && results == Assigned(old(results), key, value)
    {
      AssignedKeepsKeysDistinct(results, key, value);
      results := Assigned(results, key, value);
    }

    method CheckDomainAge(w: Whois)
      requires Valid()
      modifies this
      ensures Valid() && results == Assigned(old(results), AgeKey, DomainAgeVerdict(w))
    {
      Record(AgeKey, DomainAgeVerdict(w));
    }

    /** The freshness check: the header if there is one, else the newest recent year among the first ten candidates. */
    method CheckContentUpdates(p: Page, currentYear: int)
      requires Valid()
      modifies this
      ensures Valid() && results == Assigned(old(results), UpdatesKey, ContentVerdict(p, currentYear))
    {
      if p.lastModified.Some? {
        Record(UpdatesKey, HeaderVerdict(p.lastModified.value));
        return;
      }
      var found := GatherCandidates(p);
      var window := if |found| > Examined then found[..Examined] else found;
      var recent := RecentOf(window, currentYear);
      if recent != [] {
        Record(UpdatesKey, FreshVerdict(Newest(recent)));
      } else {
        Record(UpdatesKey, StaleVerdict);
      }
    }

    /** The structure check. */
    method CheckPageStructure(p: Page)
      requires Valid()
      modifies this
      ensures Valid() && results == Assigned(old(results), StructureKey, StructureVerdict(p.navCount, InternalLinks(p.hrefs), p.formCount))
    {
      var internal := CountInternal(p.hrefs);
      Record(StructureKey, StructureVerdict(p.navCount, internal, p.formCount));
    }

    /** The builder check: the platform named, free hosting, or no sign. */
    method CheckBuilder(domain: string, p: Page)
      requires Valid()
      modifies this
      ensures Valid() && results == Assigned(old(results), BuilderKey, BuilderVerdict(domain, p))
    {
      var d := DetectBuilder(domain, p);
      match d {
        case Platform(b) => Record(BuilderKey, PlatformVerdict(b));
        case FreeHost => Record(BuilderKey, FreeHostVerdict);
        case NoSign => Record(BuilderKey, NoBuilderVerdict);
      }
    }

    method CheckOwner(w: Whois)
      requires Valid()
      modifies this
      ensures Valid() && results == Assigned(old(results), OwnerKey, OwnerVerdict(w))
    {
      Record(OwnerKey, OwnerVerdict(w));
    }

    method CheckReviews(domain: string)
      requires Valid()
      modifies this
      ensures Valid() && results == Assigned(old(results), ReviewsKey, ReviewsVerdict)
    {
      Record(ReviewsKey, ReviewsVerdict);
    }

    /** The report of the results as they stand. */
    method GenerateReport() returns (report: string)
      ensures report == ReportText(results)
    {
      var r := results;
      var negatives, warnings := CountVerdicts(r);
      var lines := RenderLines(r);
      report := Header + lines + Rule + Conclusion(negatives, warnings);
    }

    /**
     * The analysis of one URL. An invalid URL is answered with an error message and leaves the
     * results alone; a valid one gets a scheme if it lacks a lower-case one, and its domain is analysed.
     */
    method AnalyzeSite(url: string, age: Whois, fetch: Fetch, owner: Whois, currentYear: int) returns (out: string)
      requires Valid()
      modifies this
      ensures Valid()
      ensures !IsValidUrl(url) ==> out == InvalidUrlMessage && results == old(results)
      ensures IsValidUrl(url) ==>
        results == Outcome(ExtractDomain(Normalize(url)), age, fetch, owner, currentYear) &&
        out == ReportText(results)
    {
      if !IsValidUrl(url) {
        return InvalidUrlMessage;
      }
      var full := url;
      if !(StartsWith(full, "http://") || StartsWith(full, "https://")) {
        full := "https://" + full;
      }
      out := RunChecks(ExtractDomain(full), age, fetch, owner, currentYear);
    }

    /** The body of the analysis once the domain is known: clear the results, run the checks in order, report. */
    method RunChecks(domain: string, age: Whois, fetch: Fetch, owner: Whois, currentYear: int) returns (out: string)
      modifies this
      ensures Valid()
      ensures results == Outcome(domain, age, fetch, owner, currentYear) && out == ReportText(results)
    {
      results := [];
      CheckDomainAge(age);
      match fetch {
        case Fetched(p) =>
          CheckContentUpdates(p, currentYear);
          CheckPageStructure(p);
          CheckBuilder(domain, p);
          CheckOwner(owner);
          CheckReviews(domain);
          FetchedOrder(DomainAgeVerdict(age), ContentVerdict(p, currentYear),
            StructureVerdict(p.navCount, InternalLinks(p.hrefs), p.formCount), BuilderVerdict(domain, p),
            OwnerVerdict(owner), ReviewsVerdict);
        case FetchFailed =>
          Record(AvailabilityKey, UnreachableVerdict);
          CheckOwner(owner);
          CheckReviews(domain);
          UnreachableOrder(DomainAgeVerdict(age), OwnerVerdict(owner), ReviewsVerdict);
      }
      out := GenerateReport();
    }
  }
}
