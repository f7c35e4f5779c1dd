/**
 * Address handling of the site analyser: the hand-written URL validation
 * pattern of `is_valid_url`, the scheme prefixing done by `analyze_site`, and
 * the authority extraction of `extract_domain` (what `urlparse(url).netloc`
 * gives for a URL that starts with a lower-case `http://` or `https://`).
 *
 * The pattern is matched case-insensitively and anchored with `^...$`; it is
 *   (https?://)?  host  (:\d+)?  (/[-a-z\d%_.~+]*)*  (\?[;&a-z\d%_.~+=-]*)?  (#[-a-z\d_]*)?
 * where host is `(label\.)+[a-z]{2,}` with label `[a-z\d]([a-z\d-]*[a-z\d])*`,
 * or `(\d{1,3}\.){3}\d{1,3}`. Below, `UrlGrammar` states that pattern as a
 * chain of concatenations (one existential split per component), `Scan` is a
 * deterministic left-to-right recogniser, and `ScanIsGrammar` proves the two
 * accept the same strings.
 */
module Url {
  import opened Text

  // ---------------------------------------------------------------- character classes
  // `[a-z]` under IGNORECASE accepts both ASCII cases; `\d` is taken as ASCII digits.

  predicate IsLetter(c: char) { 'a' <= c <= 'z' || 'A' <= c <= 'Z' }
  predicate IsAlnum(c: char) { IsLetter(c) || IsDigit(c) }
  predicate IsHostChar(c: char) { IsAlnum(c) || c == '-' || c == '.' }
  /** `[-a-z\d%_.~+]` together with the `/` that starts each repeated segment. */
  predicate IsPathChar(c: char) { IsAlnum(c) || c in "/-%_.~+" }
  predicate IsQueryChar(c: char) { IsAlnum(c) || c in ";&%_.~+=-" }
  predicate IsFragmentChar(c: char) { IsAlnum(c) || c == '-' || c == '_' }

  // ---------------------------------------------------------------- dotted names

  predicate NoDot(s: string) { forall i | 0 <= i < |s| :: s[i] != '.' }

  /** Index of the first dot in `s`, or `|s|` when there is none. */
  function DotIndex(s: string): (n: nat)
    ensures n <= |s| && forall i | 0 <= i < n :: s[i] != '.'
    ensures n < |s| ==> s[n] == '.'
  {
    if s == [] || s[0] == '.' then 0 else 1 + DotIndex(s[1..])
  }

  /** Python's `s.split('.')`. */
  function Split(s: string): (parts: seq<string>)
    ensures |parts| >= 1
    decreases |s|
  {
    var k := DotIndex(s);
    if k == |s| then [s] else [s[..k]] + Split(s[k + 1..])
  }

  /** Python's `'.'.join(parts)`. */
  function Join(parts: seq<string>): string
    requires |parts| >= 1
    decreases |parts|
  {
    if |parts| == 1 then parts[0] else parts[0] + "." + Join(parts[1..])
  }

  lemma JoinCons(head: string, rest: seq<string>)
    requires |rest| >= 1
    ensures Join([head] + rest) == head + "." + Join(rest)
  {
    assert ([head] + rest)[1..] == rest;
  }

  lemma {:induction false} DotIndexUnique(s: string, n: nat)
    requires n <= |s| && forall i | 0 <= i < n :: s[i] != '.'
    requires n < |s| ==> s[n] == '.'
    ensures DotIndex(s) == n
  {
    if n > 0 {
      DotIndexUnique(s[1..], n - 1);
    }
  }

  lemma SplitCons(head: string, tail: string)
    requires NoDot(head)
    ensures Split(head + "." + tail) == [head] + Split(tail)
  {
    var s := head + "." + tail;
    forall i | 0 <= i < |head| ensures s[i] != '.' {
      assert s[i] == head[i];
    }
    DotIndexUnique(s, |head|);
    assert s[..|head|] == head;
    assert s[|head| + 1..] == tail;
  }

  /** A dot-free string splits into itself alone. */
  lemma SplitNoDot(s: string)
    ensures NoDot(s) <==> Split(s) == [s]
  {
    var k := DotIndex(s);
    if k < |s| {
      assert s[k] == '.';
      assert Split(s)[0] == s[..k] != s;
    }
  }

  lemma {:induction false} JoinSplit(s: string)
    ensures Join(Split(s)) == s
    decreases |s|
  {
    var k := DotIndex(s);
    if k == |s| {
      assert Split(s) == [s];
    } else {
      var rest := s[k + 1..];
      assert Split(s) == [s[..k]] + Split(rest);
      JoinSplit(rest);
      JoinCons(s[..k], Split(rest));
      SplitAround(s, k);
    }
  }

  lemma {:induction false} SplitJoin(parts: seq<string>)
    requires |parts| >= 1
    requires forall i | 0 <= i < |parts| :: NoDot(parts[i])
    ensures Split(Join(parts)) == parts
    decreases |parts|
  {
    if |parts| == 1 {
      SplitNoDot(parts[0]);
    } else {
      var rest := parts[1..];
      assert parts == [parts[0]] + rest;
      JoinCons(parts[0], rest);
      SplitCons(parts[0], Join(rest));
      SplitJoin(rest);
    }
  }

  // ---------------------------------------------------------------- the host

  /** `[a-z\d]([a-z\d-]*[a-z\d])*`: alphanumerics and hyphens, alphanumeric at both ends. */
  predicate Label(s: string) {
    |s| >= 1 && IsAlnum(s[0]) && IsAlnum(s[|s| - 1]) &&
    forall i | 0 <= i < |s| :: IsAlnum(s[i]) || s[i] == '-'
  }

  /** `[a-z]{2,}` */
  predicate Tld(s: string) { |s| >= 2 && forall i | 0 <= i < |s| :: IsLetter(s[i]) }

  /** `\d{1,3}`: no range check, so `999` is a group. */
  predicate DigitGroup(s: string) { 1 <= |s| <= 3 && AllDigits(s) }

  /** `(label\.)+[a-z]{2,}`, on the dot-separated pieces: one or more labels, then a top-level word. */
  predicate DomainParts(parts: seq<string>) {
    |parts| >= 2 && (forall i | 0 <= i < |parts| - 1 :: Label(parts[i])) && Tld(parts[|parts| - 1])
  }

  predicate DomainName(h: string) { DomainParts(Split(h)) }

  /** `(\d{1,3}\.){3}\d{1,3}`, on the dot-separated pieces: four groups of digits. */
  predicate Ipv4Parts(parts: seq<string>) {
    |parts| == 4 && forall i | 0 <= i < 4 :: DigitGroup(parts[i])
  }

  predicate Ipv4(h: string) { Ipv4Parts(Split(h)) }

  predicate Host(h: string) { DomainName(h) || Ipv4(h) }

  /** Any labels followed by a top-level word form a domain name the pattern accepts. */
  lemma DomainNameFromLabels(labels: seq<string>, tld: string)
    requires |labels| >= 1 && forall i | 0 <= i < |labels| :: Label(labels[i])
    requires Tld(tld)
    ensures DomainName(Join(labels + [tld]))
  {
    var parts := labels + [tld];
    LabelsNoDot(labels, tld);
    assert DomainParts(parts) by {
      forall i | 0 <= i < |parts| - 1 ensures Label(parts[i]) {
        assert parts[i] == labels[i];
      }
      assert parts[|parts| - 1] == tld;
    }
    SplitJoin(parts);
  }

  lemma LabelsNoDot(labels: seq<string>, tld: string)
    requires forall i | 0 <= i < |labels| :: Label(labels[i])
    requires Tld(tld)
    ensures forall i | 0 <= i < |labels + [tld]| :: NoDot((labels + [tld])[i])
  {
    forall i | 0 <= i < |labels + [tld]| ensures NoDot((labels + [tld])[i]) {
      if i < |labels| {
        assert (labels + [tld])[i] == labels[i];
        LabelNoDot(labels[i]);
      } else {
        assert (labels + [tld])[i] == tld;
        TldNoDot(tld);
      }
    }
  }

  lemma LabelNoDot(s: string)
    requires Label(s)
    ensures NoDot(s)
  {
    forall i | 0 <= i < |s| ensures s[i] != '.' {
      assert IsAlnum(s[i]) || s[i] == '-';
    }
  }

  lemma TldNoDot(s: string)
    requires Tld(s)
    ensures NoDot(s)
  {
    forall i | 0 <= i < |s| ensures s[i] != '.' {
      assert IsLetter(s[i]);
    }
  }

  /** Four groups of one to three digits form an address the pattern accepts, whatever their values. */
  lemma Ipv4FromGroups(groups: seq<string>)
    requires |groups| == 4 && forall i | 0 <= i < 4 :: DigitGroup(groups[i])
    ensures Ipv4(Join(groups))
  {
    forall i | 0 <= i < 4 ensures NoDot(groups[i]) {
      assert DigitGroup(groups[i]);
    }
    SplitJoin(groups);
  }

  lemma {:induction false} JoinHostChars(parts: seq<string>)
    requires |parts| >= 1
    requires forall i, j | 0 <= i < |parts| && 0 <= j < |parts[i]| :: IsHostChar(parts[i][j])
    ensures forall k | 0 <= k < |Join(parts)| :: IsHostChar(Join(parts)[k])
    decreases |parts|
  {
    if |parts| > 1 {
      JoinHostChars(parts[1..]);
      var rest := Join(parts[1..]);
      assert Join(parts) == parts[0] + "." + rest;
      forall k | 0 <= k < |Join(parts)| ensures IsHostChar(Join(parts)[k]) {
        if k < |parts[0]| {
          assert IsHostChar(parts[0][k]);
        } else if k > |parts[0]| {
          assert Join(parts)[k] == rest[k - |parts[0]| - 1];
        }
      }
    }
  }

  /** A host consists of host characters and contains a dot. */
  lemma HostShape(h: string)
    requires Host(h)
    ensures forall i | 0 <= i < |h| :: IsHostChar(h[i])
    ensures '.' in h
  {
    var parts := Split(h);
    JoinSplit(h);
    SplitNoDot(h);
    forall i, j | 0 <= i < |parts| && 0 <= j < |parts[i]| ensures IsHostChar(parts[i][j]) {
      if DomainName(h) {
        if i < |parts| - 1 {
          assert Label(parts[i]);
        } else {
          assert Tld(parts[i]);
        }
      } else {
        assert DigitGroup(parts[i]);
      }
    }
    JoinHostChars(parts);
  }

  /** The same for a host found between positions `a` and `b` of a longer input. */
  lemma HostRunShape(s: string, a: nat, b: nat)
    requires a <= b <= |s| && Host(s[a..b])
    ensures forall k | a <= k < b :: IsHostChar(s[k])
    ensures exists k | a <= k < b :: s[k] == '.'
  {
    var h := s[a..b];
    HostShape(h);
    forall k | a <= k < b ensures IsHostChar(s[k]) {
      assert s[k] == h[k - a];
    }
    var j :| 0 <= j < |h| && h[j] == '.';
    assert s[a + j] == '.';
  }

  // ---------------------------------------------------------------- the other components
  // Each component is described by its start and end positions inside the whole input `s`.

  /** `(https?://)?`, case-insensitive: the input starts with `prefix` once lower-cased. */
  predicate LowerStartsWith(s: string, prefix: string) {
    |prefix| <= |s| && forall i | 0 <= i < |prefix| :: LowerChar(s[i]) == prefix[i]
  }

  predicate SchemeAt(s: string, a: nat) {
    a == 0 || (a == 7 && LowerStartsWith(s, "http://")) || (a == 8 && LowerStartsWith(s, "https://"))
  }

  /** `(:\d+)?` between positions `b` and `c`. */
  predicate PortAt(s: string, b: nat, c: nat) {
    b <= c <= |s| &&
    (c == b || (c >= b + 2 && s[b] == ':' && forall k | b < k < c :: IsDigit(s[k])))
  }

  /** `(/[-a-z\d%_.~+]*)*`: nothing, or a slash followed by path characters and slashes. */
  predicate PathAt(s: string, c: nat, d: nat) {
    c <= d <= |s| && (d == c || (s[c] == '/' && forall k | c <= k < d :: IsPathChar(s[k])))
  }

  /** `(\?[;&a-z\d%_.~+=-]*)?` */
  predicate QueryAt(s: string, d: nat, e: nat) {
    d <= e <= |s| && (e == d || (s[d] == '?' && forall k | d < k < e :: IsQueryChar(s[k])))
  }

  /** `(#[-a-z\d_]*)?` up to the end of the input. */
  predicate FragmentAt(s: string, e: nat) {
    e <= |s| && (e == |s| || (s[e] == '#' && forall k | e < k < |s| :: IsFragmentChar(s[k])))
  }

  // ---------------------------------------------------------------- the pattern, as concatenations

  /** The rest of `s` from position `d` is a query followed by a fragment. */
  predicate QueryFragmentFrom(s: string, d: nat) {
    exists e | d <= e <= |s| :: QueryAt(s, d, e) && FragmentAt(s, e)
  }

  predicate PathFrom(s: string, c: nat) {
    exists d | c <= d <= |s| :: PathAt(s, c, d) && QueryFragmentFrom(s, d)
  }

  predicate PortFrom(s: string, b: nat) {
    exists c | b <= c <= |s| :: PortAt(s, b, c) && PathFrom(s, c)
  }

  predicate HostFrom(s: string, a: nat) {
    exists b | a <= b <= |s| :: Host(s[a..b]) && PortFrom(s, b)
  }

  /** The whole string is a match of the validation pattern (without the `$` newline allowance). */
  predicate UrlGrammar(s: string) {
    exists a | 0 <= a <= |s| :: SchemeAt(s, a) && HostFrom(s, a)
  }

  // ---------------------------------------------------------------- the deterministic recogniser

  function SchemeLength(s: string): (n: nat)
    ensures SchemeAt(s, n) && n <= |s|
  {
    if LowerStartsWith(s, "https://") then 8 else if LowerStartsWith(s, "http://") then 7 else 0
  }

  function PortEnd(s: string, b: nat): (c: nat)
    requires b <= |s|
    ensures b <= c <= |s|
  {
    if b < |s| && s[b] == ':' then RunEnd(s, b + 1, IsDigit) else b
  }

  function PathEnd(s: string, c: nat): (d: nat)
    requires c <= |s|
    ensures PathAt(s, c, d)
  {
    if c < |s| && s[c] == '/' then RunEnd(s, c, IsPathChar) else c
  }

  function QueryEnd(s: string, d: nat): (e: nat)
    requires d <= |s|
    ensures QueryAt(s, d, e)
  {
    if d < |s| && s[d] == '?' then RunEnd(s, d + 1, IsQueryChar) else d
  }

  /** Where the recogniser cuts the input: the end of the scheme, host, port, path and query. */
  datatype Cut = Cut(scheme: nat, host: nat, port: nat, path: nat, query: nat)

  function Cuts(s: string): (x: Cut)
    ensures x.scheme <= x.host <= x.port <= x.path <= x.query <= |s|
  {
    var a := SchemeLength(s);
    var b := RunEnd(s, a, IsHostChar);
    var c := PortEnd(s, b);
    var d := PathEnd(s, c);
    Cut(a, b, c, d, QueryEnd(s, d))
  }

  /** The recogniser's verdict: the longest runs it took are a host, a port and a fragment. */
  predicate Accepts(s: string) {
    var x := Cuts(s);
    Host(s[x.scheme..x.host]) && PortAt(s, x.host, x.port) && FragmentAt(s, x.query)
  }

  datatype UrlParts = UrlParts(scheme: string, host: string, port: string, path: string, query: string, fragment: string)
  {
    function Whole(): string { scheme + host + port + path + query + fragment }
    /** The network location: host and port. */
    function Authority(): string { host + port }
  }

  lemma CutsJoin(s: string, x: Cut)
    requires x.scheme <= x.host <= x.port <= x.path <= x.query <= |s|
    ensures s[..x.scheme] + s[x.scheme..x.host] + s[x.host..x.port] + s[x.port..x.path]
            + s[x.path..x.query] + s[x.query..] == s
  {
    assert s[..x.scheme] + s[x.scheme..x.host] == s[..x.host];
    assert s[..x.host] + s[x.host..x.port] == s[..x.port];
    assert s[..x.port] + s[x.port..x.path] == s[..x.path];
    assert s[..x.path] + s[x.path..x.query] == s[..x.query];
    assert s[..x.query] + s[x.query..] == s;
  }

  /** Splits an accepted input into the pattern's components. */
  function Scan(s: string): (r: Option<UrlParts>)
    ensures r.Some? <==> Accepts(s)
    ensures r.Some? ==> r.value.Whole() == s
  {
    var x := Cuts(s);
    if Accepts(s) then
      var r := UrlParts(s[..x.scheme], s[x.scheme..x.host], s[x.host..x.port],
                        s[x.port..x.path], s[x.path..x.query], s[x.query..]);
      CutsJoin(s, x);
      Some(r)
    else
      None
  }

  /**
   * `is_valid_url`: `re.match` of the pattern. Its closing `$` also matches
   * just before one final newline, so a single trailing `\n` is accepted.
   */
  predicate IsValidUrl(url: string) {
    Accepts(url) || (url != [] && url[|url| - 1] == '\n' && Accepts(url[..|url| - 1]))
  }

  // ---------------------------------------------------------------- recogniser == pattern

  lemma QueryFragmentLead(s: string, d: nat)
    requires QueryFragmentFrom(s, d) && d < |s|
    ensures s[d] == '?' || s[d] == '#'
  {
  }

  lemma PathLead(s: string, c: nat)
    requires PathFrom(s, c) && c < |s|
    ensures s[c] == '/' || s[c] == '?' || s[c] == '#'
  {
    var d :| c <= d <= |s| && PathAt(s, c, d) && QueryFragmentFrom(s, d);
    if d == c {
      QueryFragmentLead(s, d);
    }
  }

  lemma PortLead(s: string, b: nat)
    requires PortFrom(s, b) && b < |s|
    ensures s[b] == ':' || s[b] == '/' || s[b] == '?' || s[b] == '#'
  {
    var c :| b <= c <= |s| && PortAt(s, b, c) && PathFrom(s, c);
    if c == b {
      PathLead(s, c);
    }
  }

  lemma QueryScan(s: string, d: nat)
    requires d <= |s|
    ensures QueryFragmentFrom(s, d) <==> FragmentAt(s, QueryEnd(s, d))
  {
    if QueryFragmentFrom(s, d) {
      var e :| d <= e <= |s| && QueryAt(s, d, e) && FragmentAt(s, e);
      if e > d {
        RunEndUnique(s, d + 1, IsQueryChar, e);
      }
      assert QueryEnd(s, d) == e;
    }
  }

  lemma PathScan(s: string, c: nat)
    requires c <= |s|
    ensures PathFrom(s, c) <==> QueryFragmentFrom(s, PathEnd(s, c))
  {
    if PathFrom(s, c) {
      var d :| c <= d <= |s| && PathAt(s, c, d) && QueryFragmentFrom(s, d);
      if d < |s| {
        QueryFragmentLead(s, d);
      }
      if d > c {
        RunEndUnique(s, c, IsPathChar, d);
      }
      assert PathEnd(s, c) == d;
    }
  }

  lemma PortScan(s: string, b: nat)
    requires b <= |s|
    ensures PortFrom(s, b) <==> PortAt(s, b, PortEnd(s, b)) && PathFrom(s, PortEnd(s, b))
  {
    if PortFrom(s, b) {
      var c :| b <= c <= |s| && PortAt(s, b, c) && PathFrom(s, c);
      if c < |s| {
        PathLead(s, c);
      }
      if c > b {
        RunEndUnique(s, b + 1, IsDigit, c);
      }
      assert PortEnd(s, b) == c;
    }
  }

  lemma HostScan(s: string, a: nat)
    requires a <= |s|
    ensures var b := RunEnd(s, a, IsHostChar);
            HostFrom(s, a) <==> Host(s[a..b]) && PortFrom(s, b)
  {
    if HostFrom(s, a) {
      var b :| a <= b <= |s| && Host(s[a..b]) && PortFrom(s, b);
      HostRunEnd(s, a, b);
    }
  }

  /** A host followed by what may follow a host ends where the run of host characters ends. */
  lemma HostRunEnd(s: string, a: nat, b: nat)
    requires a <= b <= |s| && Host(s[a..b]) && PortFrom(s, b)
    ensures RunEnd(s, a, IsHostChar) == b
  {
    HostRunShape(s, a, b);
    if b < |s| {
      PortLead(s, b);
    }
    RunEndUnique(s, a, IsHostChar, b);
  }

  /** Characters of a scheme written in any case: letters up to the colon. */
  lemma SchemeChars(s: string, prefix: string, colon: nat)
    requires colon < |prefix| && prefix[colon] == ':'
    requires forall i | 0 <= i < colon :: 'a' <= prefix[i] <= 'z'
    ensures LowerStartsWith(s, prefix) ==>
            s[colon] == ':' && forall i | 0 <= i < colon :: IsLetter(s[i])
  {
    if LowerStartsWith(s, prefix) {
      assert LowerChar(s[colon]) == ':';
      forall i | 0 <= i < colon ensures IsLetter(s[i]) {
        assert LowerChar(s[i]) == prefix[i];
      }
    }
  }

  /** A run of host characters holding a dot cannot start with a scheme, whose colon would end it first. */
  lemma NoSchemeBeforeDot(s: string, b: nat, k: nat)
    requires k < b <= |s| && s[k] == '.'
    requires forall i | 0 <= i < b :: IsHostChar(s[i])
    ensures SchemeLength(s) == 0
  {
    SchemeChars(s, "https://", 5);
    SchemeChars(s, "http://", 4);
  }

  /** Input that a host can start does not begin with a scheme: the scheme is not optional by accident. */
  lemma HostStartHasNoScheme(s: string)
    requires HostFrom(s, 0)
    ensures SchemeLength(s) == 0
  {
    var b :| 0 <= b <= |s| && Host(s[0..b]) && PortFrom(s, b);
    HostRunShape(s, 0, b);
    var k :| 0 <= k < b && s[k] == '.';
    NoSchemeBeforeDot(s, b, k);
  }

  lemma SchemeScan(s: string)
    ensures UrlGrammar(s) <==> HostFrom(s, SchemeLength(s))
  {
    if UrlGrammar(s) {
      var a :| 0 <= a <= |s| && SchemeAt(s, a) && HostFrom(s, a);
      if a == 0 {
        HostStartHasNoScheme(s);
      } else if a == 7 {
        assert LowerChar(s[4]) == ':';
      }
      assert SchemeLength(s) == a;
    }
  }

  /** The recogniser accepts exactly the strings the pattern matches. */
  lemma ScanIsGrammar(s: string)
    ensures Accepts(s) <==> UrlGrammar(s)
  {
    var x := Cuts(s);
    SchemeScan(s);
    HostScan(s, x.scheme);
    PortScan(s, x.host);
    PathScan(s, x.port);
    QueryScan(s, x.path);
  }

  /** `is_valid_url` accepts a string iff the pattern matches all of it, or all of it but one final newline. */
  lemma ValidUrlIsPatternMatch(url: string)
    ensures IsValidUrl(url) <==>
            UrlGrammar(url) || (url != [] && url[|url| - 1] == '\n' && UrlGrammar(url[..|url| - 1]))
  {
    ScanIsGrammar(url);
    if url != [] {
      ScanIsGrammar(url[..|url| - 1]);
    }
  }

  // ---------------------------------------------------------------- normalisation and the domain

  /** The case-sensitive test `url.startswith(('http://', 'https://'))`. */
  predicate HasLowerScheme(url: string) {
    StartsWith(url, "http://") || StartsWith(url, "https://")
  }

  /** `analyze_site` prefixes `https://` unless the URL already starts with a lower-case scheme. */
  function Normalize(url: string): (r: string)
    ensures HasLowerScheme(r)
    ensures HasLowerScheme(url) ==> r == url
    ensures !HasLowerScheme(url) ==> r == "https://" + url
    ensures EndsWith(r, url) && |r| <= |url| + 8
  {
    if HasLowerScheme(url) then url else "https://" + url
  }

  /** Prefixing twice is prefixing once. */
  lemma NormalizeIdempotent(url: string)
    ensures Normalize(Normalize(url)) == Normalize(url)
  {
  }

  /** Tab, carriage return and line feed: `urlsplit` deletes them before parsing. */
  predicate IsUnsafe(c: char) { c == '\t' || c == '\r' || c == '\n' }

  predicate NoUnsafe(s: string) { forall i | 0 <= i < |s| :: !IsUnsafe(s[i]) }

  function StripUnsafe(s: string): string
  {
    if s == [] then [] else (if IsUnsafe(s[0]) then [] else [s[0]]) + StripUnsafe(s[1..])
  }

  /** Deleting removes every tab and line break, and nothing else from text that has none. */
  lemma {:induction false} StripUnsafeResult(s: string)
    ensures NoUnsafe(StripUnsafe(s))
    ensures NoUnsafe(s) ==> StripUnsafe(s) == s
  {
    if s != [] {
      StripUnsafeResult(s[1..]);
      var head := if IsUnsafe(s[0]) then [] else [s[0]];
      assert StripUnsafe(s) == head + StripUnsafe(s[1..]);
      if NoUnsafe(s) {
        assert NoUnsafe(s[1..]);
        assert s == [s[0]] + s[1..];
      }
    }
  }

  lemma {:induction false} StripUnsafeConcat(a: string, b: string)
    ensures StripUnsafe(a + b) == StripUnsafe(a) + StripUnsafe(b)
    decreases |a|
  {
    if a != [] {
      var head := if IsUnsafe(a[0]) then [] else [a[0]];
      assert (a + b)[0] == a[0];
      assert (a + b)[1..] == a[1..] + b;
      calc {
        StripUnsafe(a + b);
        head + StripUnsafe(a[1..] + b);
        { StripUnsafeConcat(a[1..], b); }
        head + (StripUnsafe(a[1..]) + StripUnsafe(b));
        (head + StripUnsafe(a[1..])) + StripUnsafe(b);
        StripUnsafe(a) + StripUnsafe(b);
      }
    } else {
      assert a + b == b;
    }
  }

  /** Text without tabs or line breaks keeps its place in front of whatever is deleted behind it. */
  lemma StripUnsafeSafePrefix(prefix: string, rest: string)
    requires NoUnsafe(prefix)
    ensures StripUnsafe(prefix + rest) == prefix + StripUnsafe(rest)
  {
    StripUnsafeConcat(prefix, rest);
    StripUnsafeResult(prefix);
  }

  /** Length of the lower-case scheme `url` starts with. */
  function SchemeEnd(url: string): (n: nat)
    requires HasLowerScheme(url)
    ensures n <= |url| && NoUnsafe(url[..n])
  {
    if StartsWith(url, "https://") then 8 else 7
  }

  /** The network location ends at the first `/`, `?` or `#`. */
  predicate IsAuthorityChar(c: char) { c != '/' && c != '?' && c != '#' }

  /**
   * `extract_domain` on the URLs the analyser passes it (they start with a
   * lower-case scheme): `urlparse(url).netloc`, the text after `//` up to the
   * next `/`, `?` or `#`, once tabs and line breaks are deleted. The scheme
   * has none of those, so the deletion leaves it in front.
   */
  function ExtractDomain(url: string): (d: string)
    requires HasLowerScheme(url)
    ensures forall i | 0 <= i < |d| :: IsAuthorityChar(d[i]) && !IsUnsafe(d[i])
  {
    var n := SchemeEnd(url);
    var clean := StripUnsafe(url);
    assert url == url[..n] + url[n..];
    StripUnsafeSafePrefix(url[..n], url[n..]);
    StripUnsafeResult(url);
    var e := RunEnd(clean, n, IsAuthorityChar);
    assert forall k | n <= k < e :: IsAuthorityChar(clean[k]) && !IsUnsafe(clean[k]);
    clean[n..e]
  }

  // ---------------------------------------------------------------- what the analyser gets as domain

  /** What acceptance tells about the characters between the cuts. */
  predicate Decomposed(s: string, x: Cut) {
    SchemeAt(s, x.scheme) && x.scheme <= x.host <= |s| &&
    (forall k | x.scheme <= k < x.host :: IsHostChar(s[k])) &&
    PortAt(s, x.host, x.port) && PathAt(s, x.port, x.path) && QueryAt(s, x.path, x.query) &&
    FragmentAt(s, x.query)
  }

  lemma AcceptedDecomposed(s: string)
    requires Accepts(s)
    ensures Decomposed(s, Cuts(s))
  {
    var x := Cuts(s);
    HostRunShape(s, x.scheme, x.host);
  }

  /** Every character of an accepted input is one of the pattern's, so none is a tab or line break. */
  lemma AcceptedHasNoUnsafe(s: string)
    requires Accepts(s)
    ensures NoUnsafe(s)
  {
    AcceptedDecomposed(s);
    DecomposedHasNoUnsafe(s, Cuts(s));
  }

  lemma DecomposedHasNoUnsafe(s: string, x: Cut)
    requires Decomposed(s, x)
    ensures NoUnsafe(s)
  {
    forall k | 0 <= k < |s| ensures !IsUnsafe(s[k]) {
      if k < x.scheme {
        assert LowerChar(s[k]) in "https://";
      }
    }
  }

  /** In an accepted input the host and port run up to the first `/`, `?` or `#` after the scheme. */
  lemma AuthorityRun(s: string)
    requires Accepts(s)
    ensures var x := Cuts(s);
            RunEnd(s, x.scheme, IsAuthorityChar) == x.port
  {
    AcceptedDecomposed(s);
    DecomposedAuthorityRun(s, Cuts(s));
  }

  lemma DecomposedAuthorityRun(s: string, x: Cut)
    requires Decomposed(s, x)
    ensures RunEnd(s, x.scheme, IsAuthorityChar) == x.port
  {
    forall k | x.scheme <= k < x.port ensures IsAuthorityChar(s[k]) {
    }
    RunEndUnique(s, x.scheme, IsAuthorityChar, x.port);
  }

  /** A lower-case prefix written out is also a prefix once lower-cased. */
  lemma StartsWithLowerStartsWith(s: string, prefix: string)
    requires forall i | 0 <= i < |prefix| :: !('A' <= prefix[i] <= 'Z')
    ensures StartsWith(s, prefix) ==> LowerStartsWith(s, prefix)
  {
    if StartsWith(s, prefix) {
      forall i | 0 <= i < |prefix| ensures LowerChar(s[i]) == prefix[i] {
        assert s[i] == s[..|prefix|][i];
      }
    }
  }

  /** The recogniser's scheme and the analyser's agree on input with a lower-case scheme. */
  lemma LowerSchemeCut(s: string)
    requires HasLowerScheme(s)
    ensures SchemeLength(s) == SchemeEnd(s)
  {
    StartsWithLowerStartsWith(s, "https://");
    StartsWithLowerStartsWith(s, "http://");
    if !StartsWith(s, "https://") {
      assert s[..7][4] == ':';
      assert LowerChar(s[4]) == ':';
    }
  }

  /** Input that does not start with a scheme in any case does not start with a lower-case one. */
  lemma NoSchemeNoLowerScheme(s: string)
    requires SchemeLength(s) == 0
    ensures !HasLowerScheme(s)
  {
    StartsWithLowerStartsWith(s, "https://");
    StartsWithLowerStartsWith(s, "http://");
  }

  /** The domain of a URL after prefixing `https://` is the run of authority characters the URL starts with. */
  lemma PrefixedDomain(s: string)
    requires !HasLowerScheme(s) && NoUnsafe(s)
    ensures Normalize(s) == "https://" + s
    ensures ExtractDomain(Normalize(s)) == s[..RunEnd(s, 0, IsAuthorityChar)]
  {
    var url := "https://" + s;
    var e := RunEnd(s, 0, IsAuthorityChar);
    assert url[..8] == "https://";
    assert SchemeEnd(url) == 8;
    assert NoUnsafe(url);
    StripUnsafeResult(url);
    forall k | 8 <= k < 8 + e ensures IsAuthorityChar(url[k]) {
      assert url[k] == s[k - 8];
    }
    if 8 + e < |url| {
      assert url[8 + e] == s[e];
    }
    RunEndUnique(url, 8, IsAuthorityChar, 8 + e);
    assert url[8..8 + e] == s[..e];
  }

  lemma DecomposedDomain(s: string, x: Cut)
    requires Decomposed(s, x) && x.scheme == SchemeLength(s)
    requires x.scheme == 0 || HasLowerScheme(s)
    ensures ExtractDomain(Normalize(s)) == s[x.scheme..x.port]
  {
    DecomposedHasNoUnsafe(s, x);
    DecomposedAuthorityRun(s, x);
    if HasLowerScheme(s) {
      LowerSchemeCut(s);
      StripUnsafeResult(s);
    } else {
      PrefixedDomain(s);
    }
  }

  /**
   * For an input the recogniser accepts, whose scheme is absent or written in
   * lower case, the domain the analyser works with is the host and port.
   */
  lemma AcceptedDomainIsAuthority(s: string)
    requires Accepts(s)
    requires Cuts(s).scheme == 0 || HasLowerScheme(s)
    ensures ExtractDomain(Normalize(s)) == Scan(s).value.Authority()
  {
    var x := Cuts(s);
    AcceptedDecomposed(s);
    DecomposedDomain(s, x);
    var p := Scan(s).value;
    assert p.host == s[x.scheme..x.host] && p.port == s[x.host..x.port];
    SliceJoin(s, x.scheme, x.host, x.port);
  }

  lemma DecomposedMixedCaseDomain(s: string, x: Cut)
    requires Decomposed(s, x)
    requires x.scheme > 0 && !HasLowerScheme(s)
    ensures ExtractDomain(Normalize(s)) == s[..x.scheme - 2]
  {
    var n := x.scheme;
    DecomposedHasNoUnsafe(s, x);
    SchemeChars(s, "https://", 5);
    SchemeChars(s, "http://", 4);
    assert LowerChar(s[n - 2]) == '/';
    RunEndUnique(s, 0, IsAuthorityChar, n - 2);
    PrefixedDomain(s);
  }

  /**
   * The prefix test is case-sensitive while validation is not: an accepted
   * input whose scheme has an upper-case letter gets a second scheme prepended,
   * and the domain the analyser then works with is the old scheme's name and colon.
   */
  lemma MixedCaseSchemeDomain(s: string)
    requires Accepts(s)
    requires Cuts(s).scheme > 0 && !HasLowerScheme(s)
    ensures Normalize(s) == "https://" + s
    ensures ExtractDomain(Normalize(s)) == Scan(s).value.scheme[..Cuts(s).scheme - 2]
  {
    var x := Cuts(s);
    AcceptedDecomposed(s);
    DecomposedMixedCaseDomain(s, x);
    var p := Scan(s).value;
    assert p.scheme == s[..x.scheme];
    PrefixOfPrefix(s, x.scheme - 2, x.scheme);
  }

  /** Appending a newline does not change whether a prefix that does not end in one is there. */
  lemma StartsWithNewline(s: string, prefix: string)
    requires |prefix| > 0 && prefix[|prefix| - 1] != '\n'
    ensures StartsWith(s + "\n", prefix) <==> StartsWith(s, prefix)
  {
    var t := s + "\n";
    if |s| >= |prefix| {
      assert t[..|prefix|] == s[..|prefix|];
    } else if |t| == |prefix| {
      assert t[..|prefix|][|prefix| - 1] == '\n';
    }
  }

  /** The one trailing newline that validation lets through is deleted before the domain is read. */
  lemma TrailingNewlineIgnored(s: string)
    ensures Normalize(s + "\n") == Normalize(s) + "\n"
    ensures ExtractDomain(Normalize(s + "\n")) == ExtractDomain(Normalize(s))
  {
    StartsWithNewline(s, "http://");
    StartsWithNewline(s, "https://");
    var u := Normalize(s);
    assert Normalize(s + "\n") == u + "\n";
    StartsWithNewline(u, "http://");
    StartsWithNewline(u, "https://");
    StripUnsafeConcat(u, "\n");
    assert StripUnsafe("\n") == [];
    assert StripUnsafe(u + "\n") == StripUnsafe(u);
  }
}
