/**
 * The site-builder check. Signs are looked for in a fixed order and the first one found
 * decides: a builder keyword in the domain or the page source (builders in table order),
 * a free-hosting name in the domain, a builder keyword in the generator meta tag, a builder
 * keyword in a script address (scripts in document order, builders in table order).
 * Every test is plain substring containment on lower-cased text.
 */
module Builders {
  import opened Text
  import opened Evidence
  import opened Verdicts

  datatype Builder = Builder(name: string, keywords: seq<string>)

  /** The free site builders, in the order they are tried. */
  const FreeBuilders: seq<Builder> := [
    Builder("Wix", ["wix", "wixpress", "wixsite.com"]),
    Builder("Weebly", ["weebly", "weebly.com"]),
    Builder("WordPress.com", ["wordpress.com", "wp.com", "wp-content"]),
    Builder("Blogger", ["blogger", "blogspot"]),
    Builder("Tilda", ["tilda", "tilda.ws", "tilda.cc"]),
    Builder("Ucoz", ["ucoz", "ucoz.ru"]),
    Builder("Jimdo", ["jimdo", "jimdosite"]),
    Builder("Webnode", ["webnode"])
  ]

  /** Free hosting services, recognised anywhere in the domain. */
  const FreeHosting: seq<string> := [
    "github.io", "netlify.app", "vercel.app",
    "herokuapp.com", "000webhostapp.com",
    "glitch.me", "repl.co", "firebaseapp.com",
    "surge.sh", "web.app"
  ]

  /** One of the keywords occurs in the text. */
  predicate MentionsAny(text: string, keywords: seq<string>) {
    exists k | 0 <= k < |keywords| :: Contains(text, keywords[k])
  }

  /** Builder `b` is mentioned in one of the texts. */
  predicate Mentions(texts: seq<string>, b: nat)
    requires b < |FreeBuilders|
  {
    exists t | 0 <= t < |texts| :: MentionsAny(texts[t], FreeBuilders[b].keywords)
  }

  /** Some builder is mentioned in one of the texts. */
  predicate MentionsSome(texts: seq<string>) {
    exists b | 0 <= b < |FreeBuilders| :: Mentions(texts, b)
  }

  /** The first builder, from `from` on in table order, mentioned in one of the texts. */
  function FirstBuilder(texts: seq<string>, from: nat): (r: Option<nat>)
    requires from <= |FreeBuilders|
    ensures r.Some? ==> from <= r.value < |FreeBuilders| && Mentions(texts, r.value)
    ensures r.Some? ==> forall b | from <= b < r.value :: !Mentions(texts, b)
    ensures r.None? ==> forall b | from <= b < |FreeBuilders| :: !Mentions(texts, b)
    decreases |FreeBuilders| - from
  {
    if from == |FreeBuilders| then None
    else if Mentions(texts, from) then Some(from)
    else FirstBuilder(texts, from + 1)
  }

  /** The builder named by the generator meta tag, when the tag has content. */
  function GeneratorBuilder(generator: Option<string>): (r: Option<nat>)
    ensures r.Some? ==> r.value < |FreeBuilders|
    ensures r.None? <==> generator.None? || generator.value == [] || !MentionsSome([Lower(generator.value)])
    ensures r.Some? ==> r == FirstBuilder([Lower(generator.value)], 0)
  {
    if generator.Some? && generator.value != [] then FirstBuilder([Lower(generator.value)], 0) else None
  }

  /** The builder named by the first script address that names one. */
  function ScriptBuilder(srcs: seq<string>): (r: Option<nat>)
    ensures r.Some? ==> r.value < |FreeBuilders|
    ensures r.None? <==> forall j | 0 <= j < |srcs| :: !MentionsSome([Lower(srcs[j])])
  {
    if srcs == [] then None
    else
      var first := FirstBuilder([Lower(srcs[0])], 0);
      assert forall j | 1 <= j < |srcs| :: srcs[1..][j - 1] == srcs[j];
      if first.Some? then first else ScriptBuilder(srcs[1..])
  }

  /** The script sign is the builder named by the first script address that names one. */
  lemma {:induction false} ScriptBuilderFirst(srcs: seq<string>, j: nat)
    requires j < |srcs| && MentionsSome([Lower(srcs[j])])
    requires forall k | 0 <= k < j :: !MentionsSome([Lower(srcs[k])])
    ensures ScriptBuilder(srcs) == FirstBuilder([Lower(srcs[j])], 0)
    decreases j
  {
    if j > 0 {
      assert !MentionsSome([Lower(srcs[0])]);
      assert forall k | 0 <= k < j - 1 :: srcs[1..][k] == srcs[k + 1];
      ScriptBuilderFirst(srcs[1..], j - 1);
      assert srcs[1..][j - 1] == srcs[j];
    }
  }

  datatype Detection = Platform(index: nat) | FreeHost | NoSign

  /** Every sign the check looks for, taken together. */
  predicate AnySign(domain: string, p: Page) {
    MentionsSome([Lower(domain), Lower(p.html)]) ||
    MentionsAny(Lower(domain), FreeHosting) ||
    (p.generator.Some? && p.generator.value != [] && MentionsSome([Lower(p.generator.value)])) ||
    exists j | 0 <= j < |p.scriptSrcs| :: MentionsSome([Lower(p.scriptSrcs[j])])
  }

  /** The signs in the order they are tried. */
  function Detect(domain: string, p: Page): (d: Detection)
    ensures d.Platform? ==> d.index < |FreeBuilders|
    ensures d == NoSign <==> !AnySign(domain, p)
    ensures MentionsSome([Lower(domain), Lower(p.html)]) ==> d == Platform(FirstBuilder([Lower(domain), Lower(p.html)], 0).value)
    ensures !MentionsSome([Lower(domain), Lower(p.html)]) && MentionsAny(Lower(domain), FreeHosting) ==> d == FreeHost
    ensures !MentionsSome([Lower(domain), Lower(p.html)]) && !MentionsAny(Lower(domain), FreeHosting) ==>
      (GeneratorBuilder(p.generator).Some? ==> d == Platform(GeneratorBuilder(p.generator).value)) &&
      (GeneratorBuilder(p.generator).None? && ScriptBuilder(p.scriptSrcs).Some? ==> d == Platform(ScriptBuilder(p.scriptSrcs).value))
  {
    var first := FirstBuilder([Lower(domain), Lower(p.html)], 0);
    if first.Some? then Platform(first.value)
    else if MentionsAny(Lower(domain), FreeHosting) then FreeHost
    else
      var generated := GeneratorBuilder(p.generator);
      if generated.Some? then Platform(generated.value)
      else
        var scripted := ScriptBuilder(p.scriptSrcs);
        if scripted.Some? then Platform(scripted.value) else NoSign
  }

  const FreeHostVerdict: string := "🔴 Негатив (бесплатный хостинг)"
  const NoBuilderVerdict: string := "🟢 Не негатив"

  /** A red verdict naming the builder. */
  function PlatformVerdict(b: nat): (v: string)
    requires b < |FreeBuilders|
    ensures Classify(v) == Red
    ensures StartsWith(v, "🔴 Негатив (") && EndsWith(v, FreeBuilders[b].name + ")")
  {
    StartsWithConcat("🔴 Негатив (", FreeBuilders[b].name + ")");
    EndsWithConcat("🔴 Негатив (", FreeBuilders[b].name + ")");
    assert "🔴 Негатив (" + FreeBuilders[b].name + ")" == "🔴 Негатив (" + (FreeBuilders[b].name + ")");
    RedVerdict("🔴 Негатив (", FreeBuilders[b].name + ")");
    "🔴 Негатив (" + FreeBuilders[b].name + ")"
  }

  /** The builder check: red, naming the platform or free hosting, exactly when some sign is found. */
  function BuilderVerdict(domain: string, p: Page): (v: string)
    ensures Classify(v) == Red <==> AnySign(domain, p)
    ensures Classify(v) != Red ==> Classify(v) == Neutral
    ensures Detect(domain, p).Platform? ==> v == PlatformVerdict(Detect(domain, p).index)
    ensures Detect(domain, p) == FreeHost ==> v == FreeHostVerdict
    ensures Detect(domain, p) == NoSign ==> v == NoBuilderVerdict
  {
    match Detect(domain, p)
    case Platform(b) => PlatformVerdict(b)
    case FreeHost => assert FreeHostVerdict[0] == RedMark; FreeHostVerdict
    case NoSign => NoBuilderVerdict
  }

  // ---------------------------------------------------------------- substring, not suffix

  /** A builder each of whose keywords holds a letter no text holds is not mentioned. */
  lemma NotMentioned(texts: seq<string>, b: nat, c: char)
    requires b < |FreeBuilders|
    requires forall k | 0 <= k < |FreeBuilders[b].keywords| :: c in FreeBuilders[b].keywords[k]
    requires forall t | 0 <= t < |texts| :: c !in texts[t]
    ensures !Mentions(texts, b)
  {
    var kw := FreeBuilders[b].keywords;
    forall t, k | 0 <= t < |texts| && 0 <= k < |kw| ensures !Contains(texts[t], kw[k]) {
      MissingCharNotContained(texts[t], kw[k], c);
    }
  }
}
