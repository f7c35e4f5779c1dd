/**
 * The content-freshness check. A Last-Modified header settles it at once. Otherwise the
 * candidate dates found in the page text are read in order, only the first ten are looked at,
 * each yields the number in its first run of four digits, and a year no older than last year
 * makes the page fresh.
 */
module Updates {
  import opened Text
  import opened Evidence
  import opened Verdicts

  /** Four digits start at `i`. */
  predicate FourDigitsAt(s: string, i: nat) {
    i + 4 <= |s| && AllDigits(s[i..i + 4])
  }

  /** Where a search for four digits succeeds at or after `i`: the first such position. */
  function YearPosition(s: string, i: nat): (p: Option<nat>)
    ensures p.Some? ==> i <= p.value && FourDigitsAt(s, p.value)
    ensures p.Some? ==> forall q | i <= q < p.value :: !FourDigitsAt(s, q)
    ensures p.None? ==> forall q: nat | i <= q :: !FourDigitsAt(s, q)
    decreases |s| - i
  {
    if i + 4 > |s| then None
    else if FourDigitsAt(s, i) then Some(i)
    else YearPosition(s, i + 1)
  }

  /** The year a candidate yields: its first run of four digits read as a number, if it has one. */
  function FirstYear(s: string): (y: Option<nat>)
    ensures y.Some? <==> exists q: nat :: FourDigitsAt(s, q)
    ensures y.Some? ==> exists q: nat ::
      FourDigitsAt(s, q) && (forall q': nat | q' < q :: !FourDigitsAt(s, q')) && y.value == DigitsValue(s[q..q + 4])
  {
    match YearPosition(s, 0)
    case None => None
    case Some(q) => Some(DigitsValue(s[q..q + 4]))
  }

  /** Text without a digit never yields a year: a month word takes a place among the candidates and nothing else. */
  lemma UndatedYieldsNoYear(s: string)
    requires forall k | 0 <= k < |s| :: !IsDigit(s[k])
    ensures FirstYear(s).None?
  {
    forall q: nat ensures !FourDigitsAt(s, q) {
      if q + 4 <= |s| {
        assert !IsDigit(s[q..q + 4][0]);
      }
    }
  }

  /** The year each copyright match contributes: its first group, else its second, when not empty. */
  function CopyrightYears(groups: seq<(string, string)>): (years: seq<string>)
    ensures |years| <= |groups|
  {
    if groups == [] then []
    else
      var g := groups[|groups| - 1];
      var year := if g.0 != [] then g.0 else g.1;
      CopyrightYears(groups[..|groups| - 1]) + (if year != [] then [year] else [])
  }

  /** Every candidate in search order: both numeric date patterns, the month words, then the copyright years. */
  function Candidates(p: Page): seq<string> {
    p.dayFirstDates + p.yearFirstDates + p.monthWords + CopyrightYears(p.copyrightGroups)
  }

  const Examined: nat := 10

  /** The candidates the check looks at: the first ten. */
  function FirstExamined(c: seq<string>): (e: seq<string>)
    ensures |e| <= Examined && |e| <= |c| && e == c[..|e|]
    ensures |c| <= Examined ==> e == c
    ensures |c| > Examined ==> e == c[..Examined]
  {
    if |c| <= Examined then c else c[..Examined]
  }

  /** A year counts as recent when it is this year, last year, or later. */
  predicate IsRecent(y: nat, currentYear: int) {
    y >= currentYear - 1
  }

  /** The candidate at `i` yields a recent year. */
  predicate RecentAt(c: seq<string>, i: nat, currentYear: int)
    requires i < |c|
  {
    FirstYear(c[i]).Some? && IsRecent(FirstYear(c[i]).value, currentYear)
  }

  /** The recent years the candidates yield, in candidate order. */
  function RecentYears(c: seq<string>, currentYear: int): (r: seq<nat>)
    ensures |r| <= |c|
    ensures forall k | 0 <= k < |r| :: IsRecent(r[k], currentYear)
  {
    if c == [] then []
    else
      var y := FirstYear(c[|c| - 1]);
      RecentYears(c[..|c| - 1], currentYear) + (if y.Some? && IsRecent(y.value, currentYear) then [y.value] else [])
  }

  /** Every recent year comes from some candidate ... */
  lemma {:induction false} RecentYearsFromCandidates(c: seq<string>, currentYear: int)
    ensures forall k | 0 <= k < |RecentYears(c, currentYear)| ::
      exists i | 0 <= i < |c| :: FirstYear(c[i]) == Some(RecentYears(c, currentYear)[k])
  {
    if c != [] {
      var init := c[..|c| - 1];
      RecentYearsFromCandidates(init, currentYear);
      var r0 := RecentYears(init, currentYear);
      var r := RecentYears(c, currentYear);
      forall k | 0 <= k < |r| ensures exists i | 0 <= i < |c| :: FirstYear(c[i]) == Some(r[k]) {
        if k < |r0| {
          assert r[k] == r0[k];
          var i :| 0 <= i < |init| && FirstYear(init[i]) == Some(r0[k]);
          assert c[i] == init[i];
        } else {
          assert FirstYear(c[|c| - 1]) == Some(r[k]);
        }
      }
    } else {
      assert |RecentYears(c, currentYear)| == 0;
    }
  }

  /** ... and every candidate that yields a recent year contributes it. */
  lemma {:induction false} RecentYearsComplete(c: seq<string>, currentYear: int)
    ensures forall i | 0 <= i < |c| && RecentAt(c, i, currentYear) :: FirstYear(c[i]).value in RecentYears(c, currentYear)
  {
    if c != [] {
      var init := c[..|c| - 1];
      RecentYearsComplete(init, currentYear);
      forall i | 0 <= i < |c| && RecentAt(c, i, currentYear)
        ensures FirstYear(c[i]).value in RecentYears(c, currentYear)
      {
        if i < |init| {
          assert c[i] == init[i];
          assert RecentAt(init, i, currentYear);
        }
      }
    }
  }

  /** No recent year at all exactly when no candidate yields one. */
  lemma RecentYearsEmpty(c: seq<string>, currentYear: int)
    ensures RecentYears(c, currentYear) == [] <==> forall i | 0 <= i < |c| :: !RecentAt(c, i, currentYear)
  {
    RecentYearsFromCandidates(c, currentYear);
    RecentYearsComplete(c, currentYear);
    var r := RecentYears(c, currentYear);
    if r != [] {
      var i :| 0 <= i < |c| && FirstYear(c[i]) == Some(r[0]);
      assert RecentAt(c, i, currentYear);
    }
  }

  /** Python's `max` over a non-empty list. */
  function Newest(r: seq<nat>): (m: nat)
    requires r != []
    ensures m in r && forall k | 0 <= k < |r| :: r[k] <= m
  {
    if |r| == 1 then r[0]
    else
      var m := Newest(r[..|r| - 1]);
      assert forall k | 0 <= k < |r| - 1 :: r[..|r| - 1][k] == r[k];
      if r[|r| - 1] > m then r[|r| - 1] else m
  }

  const HeaderShown: nat := 20
  const StaleVerdict: string := "🔴 Негатив (нет свежих обновлений)"

  function HeaderVerdict(lastModified: string): (v: string)
    ensures StartsWith(v, "🟢 Не негатив (последнее: ") && EndsWith(v, Take(lastModified, HeaderShown) + ")")
    ensures Unmarked(Take(lastModified, HeaderShown)) ==> Classify(v) == Neutral
  {
    var head := "🟢 Не негатив (последнее: ";
    var shown := Take(lastModified, HeaderShown);
    assert Unmarked(head) && Unmarked(")");
    NeutralVerdict(head, shown, ")");
    StartsWithConcat(head, shown + ")");
    EndsWithConcat(head, shown + ")");
    assert head + shown + ")" == head + (shown + ")");
    head + shown + ")"
  }

  function FreshVerdict(year: nat): (v: string)
    ensures Classify(v) == Neutral
    ensures EndsWith(v, NatToString(year) + ")")
  {
    var head := "🟢 Не негатив (обновлен в ";
    DigitsUnmarked(NatToString(year));
    assert Unmarked(head) && Unmarked(")");
    NeutralVerdict(head, NatToString(year), ")");
    EndsWithConcat(head, NatToString(year) + ")");
    assert head + NatToString(year) + ")" == head + (NatToString(year) + ")");
    head + NatToString(year) + ")"
  }

  /** Some examined candidate yields a recent year. */
  predicate Fresh(p: Page, currentYear: int) {
    var c := FirstExamined(Candidates(p));
    exists i | 0 <= i < |c| :: RecentAt(c, i, currentYear)
  }

  /** The freshness check. */
  function ContentVerdict(p: Page, currentYear: int): (v: string)
    ensures p.lastModified.Some? ==> v == HeaderVerdict(p.lastModified.value)
    ensures p.lastModified.Some? ==> StartsWith(v, "🟢 Не негатив (последнее: ")
    ensures p.lastModified.Some? && Unmarked(Take(p.lastModified.value, HeaderShown)) ==> Classify(v) == Neutral
    ensures p.lastModified.None? ==> (Classify(v) == Neutral <==> Fresh(p, currentYear))
    ensures p.lastModified.None? ==> (Classify(v) == Red <==> !Fresh(p, currentYear))
  {
    match p.lastModified
    case Some(lm) => HeaderVerdict(lm)
    case None =>
      var r := RecentYears(FirstExamined(Candidates(p)), currentYear);
      RecentYearsEmpty(FirstExamined(Candidates(p)), currentYear);
      if r != [] then FreshVerdict(Newest(r))
      else
        assert StaleVerdict[0] == RedMark;
        StaleVerdict
  }

  /** The newest recent year is the year of some candidate, and no candidate yields a newer recent one. */
  lemma NewestRecentYear(c: seq<string>, currentYear: int)
    requires RecentYears(c, currentYear) != []
    ensures exists i | 0 <= i < |c| :: RecentAt(c, i, currentYear) && FirstYear(c[i]).value == Newest(RecentYears(c, currentYear))
    ensures forall j | 0 <= j < |c| && RecentAt(c, j, currentYear) :: FirstYear(c[j]).value <= Newest(RecentYears(c, currentYear))
  {
    var r := RecentYears(c, currentYear);
    RecentYearsFromCandidates(c, currentYear);
    RecentYearsComplete(c, currentYear);
    var k :| 0 <= k < |r| && r[k] == Newest(r);
    var i :| 0 <= i < |c| && FirstYear(c[i]) == Some(r[k]);
    assert RecentAt(c, i, currentYear);
  }

  /** A fresh page is reported with the newest recent year among the examined candidates. */
  lemma ReportsNewestYear(p: Page, currentYear: int)
    requires p.lastModified.None? && Fresh(p, currentYear)
    ensures var c := FirstExamined(Candidates(p));
      exists y: nat :: ContentVerdict(p, currentYear) == FreshVerdict(y) &&
        (exists i | 0 <= i < |c| :: RecentAt(c, i, currentYear) && FirstYear(c[i]).value == y) &&
        (forall j | 0 <= j < |c| && RecentAt(c, j, currentYear) :: FirstYear(c[j]).value <= y)
  {
    var c := FirstExamined(Candidates(p));
    RecentYearsEmpty(c, currentYear);
    NewestRecentYear(c, currentYear);
    var y := Newest(RecentYears(c, currentYear));
    assert ContentVerdict(p, currentYear) == FreshVerdict(y);
  }

  /**
   * Ten undated candidates at the front (month words, say) fill the window: the page is stale
   * whatever the candidates after them say.
   */
  lemma TenUndatedCandidatesAreStale(p: Page, currentYear: int)
    requires p.lastModified.None? && |Candidates(p)| >= Examined
    requires forall i, k | 0 <= i < Examined && 0 <= k < |Candidates(p)[i]| :: !IsDigit(Candidates(p)[i][k])
    ensures Classify(ContentVerdict(p, currentYear)) == Red
  {
    var c := FirstExamined(Candidates(p));
    forall i | 0 <= i < |c| ensures !RecentAt(c, i, currentYear) {
      assert c[i] == Candidates(p)[i];
      UndatedYieldsNoYear(c[i]);
    }
  }
}
