/**
 * Concrete inputs for the address checks, worked through the recogniser and
 * the domain extraction.
 */
module UrlExamples {
  import opened Text
  import opened Url

  lemma ExampleComHost()
    ensures Host("example.com")
  {
    assert Label("example");
    assert Tld("com");
    DomainNameFromLabels(["example"], "com");
    JoinCons("example", ["com"]);
    assert ["example"] + ["com"] == ["example", "com"];
    assert Join(["example", "com"]) == "example.com";
  }

  lemma ExampleComCuts()
    ensures Cuts("example.com") == Cut(0, 11, 11, 11, 11)
  {
    var s := "example.com";
    assert LowerChar(s[0]) != 'h';
    forall k | 0 <= k < |s| ensures IsHostChar(s[k]) {
    }
    RunEndUnique(s, 0, IsHostChar, |s|);
  }

  lemma ExampleComAccepted()
    ensures Accepts("example.com")
  {
    var s := "example.com";
    ExampleComCuts();
    ExampleComHost();
    assert s[0..11] == s;
  }

  lemma ExampleComAuthority()
    ensures Accepts("example.com")
    ensures Scan("example.com").value.Authority() == "example.com"
  {
    var s := "example.com";
    ExampleComAccepted();
    ExampleComCuts();
    var p := Scan(s).value;
    assert p.host == s[0..11] && p.port == s[11..11];
    assert s[0..11] == s && s[11..11] == [];
  }

  /** A bare domain name is a valid address and is its own domain once prefixed. */
  lemma BareDomainAccepted()
    ensures IsValidUrl("example.com")
    ensures ExtractDomain(Normalize("example.com")) == "example.com"
  {
    ExampleComAuthority();
    AcceptedDomainIsAuthority("example.com");
  }

  /** The allowance of `$` for one final newline: the same address with a line break is valid too. */
  lemma TrailingNewlineAccepted()
    ensures IsValidUrl("example.com\n")
  {
    var u := "example.com\n";
    assert u[..|u| - 1] == "example.com";
    ExampleComAccepted();
  }

  /** ... and the line break does not reach the domain. */
  lemma TrailingNewlineDomain()
    ensures ExtractDomain(Normalize("example.com\n")) == "example.com"
  {
    BareDomainAccepted();
    TrailingNewlineIgnored("example.com");
    assert "example.com" + "\n" == "example.com\n";
  }

  lemma NotIsNoHost()
    ensures !Host("not")
  {
    assert NoDot("not");
    SplitNoDot("not");
  }

  lemma SentenceCuts()
    ensures Cuts("not a url!!").scheme == 0 && Cuts("not a url!!").host == 3
  {
    var s := "not a url!!";
    assert LowerChar(s[0]) != 'h';
    RunEndUnique(s, 0, IsHostChar, 3);
  }

  /** Text with spaces is rejected: the run of host characters stops at the first space and has no dot. */
  lemma SentenceRejected()
    ensures !IsValidUrl("not a url!!")
  {
    var s := "not a url!!";
    SentenceCuts();
    NotIsNoHost();
    assert s[0..3] == "not";
    assert !Accepts(s);
    assert s[|s| - 1] == '!';
  }

  lemma AddressHost()
    ensures Host("999.999.999.999")
  {
    var g := "999";
    var parts := [g, g, g, g];
    assert DigitGroup(g);
    Ipv4FromGroups(parts);
    assert parts[1..] == [g, g, g] && parts[1..][1..] == [g, g] && parts[1..][1..][1..] == [g];
    assert Join([g, g]) == "999.999";
    assert Join([g, g, g]) == "999.999.999";
    assert Join(parts) == "999.999.999.999";
  }

  lemma AddressCuts()
    ensures Cuts("999.999.999.999") == Cut(0, 15, 15, 15, 15)
  {
    var s := "999.999.999.999";
    assert LowerChar(s[0]) != 'h';
    forall k | 0 <= k < |s| ensures IsHostChar(s[k]) {
    }
    RunEndUnique(s, 0, IsHostChar, |s|);
  }

  /** The address pattern checks the shape only: groups above 255 are accepted. */
  lemma UnrangedAddressAccepted()
    ensures IsValidUrl("999.999.999.999")
  {
    var s := "999.999.999.999";
    AddressCuts();
    AddressHost();
    assert s[0..15] == s;
    AcceptsAt(s, Cut(0, 15, 15, 15, 15));
  }

  lemma UpperCaseSchemeCuts()
    ensures Cuts("HTTP://example.com") == Cut(7, 18, 18, 18, 18)
  {
    var s := "HTTP://example.com";
    assert LowerChar(s[4]) != 's';
    assert LowerStartsWith(s, "http://");
    forall k | 7 <= k < |s| ensures IsHostChar(s[k]) {
    }
    RunEndUnique(s, 7, IsHostChar, |s|);
  }

  lemma AfterPrefix(a: string, b: string)
    ensures (a + b)[|a|..|a| + |b|] == b
  {
  }

  lemma UpperCaseSchemeHost()
    ensures Host("HTTP://example.com"[7..18])
  {
    UpperCaseSchemeHostSlice();
    ExampleComHost();
  }

  lemma UpperCaseSchemeHostSlice()
    ensures "HTTP://example.com"[7..18] == "example.com"
  {
    AfterPrefix("HTTP://", "example.com");
    assert "HTTP://example.com" == "HTTP://" + "example.com";
  }

  /** The recogniser's verdict read off a known set of cuts. */
  lemma AcceptsAt(s: string, x: Cut)
    requires Cuts(s) == x
    requires Host(s[x.scheme..x.host]) && PortAt(s, x.host, x.port) && FragmentAt(s, x.query)
    ensures Accepts(s)
  {
  }

  lemma UpperCaseSchemeAccepted()
    ensures Accepts("HTTP://example.com")
  {
    var s := "HTTP://example.com";
    UpperCaseSchemeCuts();
    UpperCaseSchemeHost();
    AcceptsAt(s, Cut(7, 18, 18, 18, 18));
  }

  lemma UpperCaseSchemeParts()
    ensures Accepts("HTTP://example.com")
    ensures Scan("HTTP://example.com").value.scheme == "HTTP://"
  {
    var s := "HTTP://example.com";
    UpperCaseSchemeAccepted();
    UpperCaseSchemeCuts();
    assert s[..7] == "HTTP://";
  }

  lemma UpperCaseSchemeNotLower()
    ensures !HasLowerScheme("HTTP://example.com")
  {
    var s := "HTTP://example.com";
    assert s[..7][0] == 'H';
    assert s[..8][0] == 'H';
  }

  /**
   * An upper-case scheme passes validation but not the lower-case prefix test,
   * so the analyser looks up `HTTP:` as the domain.
   */
  lemma UpperCaseSchemeDomain()
    ensures IsValidUrl("HTTP://example.com")
    ensures Normalize("HTTP://example.com") == "https://HTTP://example.com"
    ensures ExtractDomain(Normalize("HTTP://example.com")) == "HTTP:"
  {
    var s := "HTTP://example.com";
    UpperCaseSchemeParts();
    UpperCaseSchemeCuts();
    UpperCaseSchemeNotLower();
    MixedCaseSchemeDomain(s);
    UpperCaseSchemePrefixed();
    assert "HTTP://"[..5] == "HTTP:";
  }

  lemma UpperCaseSchemePrefixed()
    ensures "https://" + "HTTP://example.com" == "https://HTTP://example.com"
  {
  }
}
