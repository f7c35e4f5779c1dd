/**
 * The builder signs are substrings, not domain labels: a domain that merely contains a
 * builder's keyword inside a longer word is taken for that builder.
 */
module BuilderExamples {
  import opened Text
  import opened Evidence
  import opened Builders

  const Domain: string := "matilda.ru"

  /** A page with nothing in it but the domain. */
  function BlankPage(): Page {
    Page(None, [], [], [], [], 0, [], 0, "", None, [])
  }

  lemma DomainIsLowerCase()
    ensures Lower(Domain) == Domain
  {
  }

  /** The four builders before Tilda have no keyword in the texts. */
  lemma EarlierBuildersAbsent()
    ensures forall b | 0 <= b < 4 :: !Mentions([Domain, ""], b)
  {
    NotMentioned([Domain, ""], 0, 'w');
    NotMentioned([Domain, ""], 1, 'w');
    NotMentioned([Domain, ""], 2, 'w');
    NotMentioned([Domain, ""], 3, 'b');
  }

  lemma TildaMentioned()
    ensures Mentions([Domain, ""], 4)
  {
    assert Domain[2..7] == "tilda";
    ContainsAt(Domain, "tilda", 2);
    assert FreeBuilders[4].keywords[0] == "tilda";
    assert MentionsAny([Domain, ""][0], FreeBuilders[4].keywords);
  }

  /** "matilda.ru" is reported as a Tilda site. */
  lemma MatildaIsTakenForTilda()
    ensures Detect(Domain, BlankPage()) == Platform(4) && FreeBuilders[4].name == "Tilda"
  {
    DomainIsLowerCase();
    EarlierBuildersAbsent();
    TildaMentioned();
    assert FirstBuilder([Domain, ""], 4) == Some(4);
    assert FirstBuilder([Domain, ""], 0) == Some(4);
  }
}
