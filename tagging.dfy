/** The rule-based multi-label tagger: `TAGS`, `getTags` and the labelling `applyTags` performs. */
module Tagging {
  import opened Wrappers
  import opened Text
  import opened Seqs
  import opened Articles

  /** One entry of the tag table: a tag name and the lower-case strings that trigger it. */
  datatype TagRule = TagRule(name: string, keywords: seq<string>)

  /** The collector's tag table, in declaration order (src/index.ts, `TAGS`). The functions
      below take the table as a parameter, so that lemmas can be applied to small tables. */
  const TAGS: seq<TagRule> := [
    TagRule("old-and-busted", ["busted"]),
    TagRule("anyone", ["benutzt hier jemand", "ist hier jemand", "verwendet hier jemand", "macht hier jemand"]),
    TagRule("how-bad", ["wie schlimm ist die lage"]),
    TagRule("mkü", ["medienkompetenz"]),
    TagRule("good-bad-news", ["gute nachricht:", "schlechte nachricht:"]),
    TagRule("leserbrief", ["leserbrief", "zuschrift", "einsender"]),
    TagRule("moneyquote", ["money quote"]),
    TagRule("cpu", ["intel", "amd", "spectre", "metldown", "cpu", "risc-v"]),
    TagRule("spectre", ["spectre", "meltdown"]),
    TagRule("c", ["cpp", "gcc"]),
    TagRule("crypto", ["btc", "bitcoin", "ftx", "crypto", "krypto", "coinbase", "nft", "opensea", "wallet", "blockchain"]),
    TagRule("agency", ["cia", "fbi", "nsa ", " nsa", "geheimdienst", "bnd"]),
    TagRule("energy", ["solar", "rwe ", " rwe", " uniper", "gazprom", "atomausstieg", " öl", "kernkraft", "energiepreis", "versorger"]),
    TagRule("ukraine", ["ukraine", "kiev"]),
    TagRule("covid", [" impf", " geimpf", "corona", "covid", "klopapier", "schwurb", "querdenk"]),
    TagRule("schwurbel", ["verschwörung", "schwurb", "querdenk", "qanon", "covidiot"]),
    TagRule("infra-apocalypse", ["infrastrukturapokalypse"]),
    TagRule("usa", [" usa", "vereinigten staaten", "vereinigte staaten", "us air force", "trump", "biden", "pence", " amis", " us-"]),
    TagRule("tech", ["ssd", "cpu", "intel", "amd", "apple", "samsung", "hdd", "gpu", "arm", "nvidia", "ibm"]),
    TagRule("linux", ["kernel", "linux"]),
    TagRule("privacy", ["datenschutz", "privacy", "google home", "facebook", "alexa", "abhör", "verschlüsselung", "whatsapp", "telegram", "vpn", "trojaner", "dsgvo", "überwach", "anonymisier"]),
    TagRule("war", ["krieg ", "krieg-", "kriegs", "ukraine", "taliban", "rakete", "waffen", "panzer", "syrien"]),
    TagRule("russia", ["russland", "russen", "putin", "kreml"]),
    TagRule("china", ["china", "chines"]),
    TagRule("apokalypse", ["apokalypse"]),
    TagRule("politics", ["merkel", "scholz", "spahn", "söder", "seehofer", "altmaier", "cdu", "spd", "afd", "fdp", "grüne", "demokratie", "politiker", "politik", "staat ", "europ", "gesetz ", "gesetze", "sanktion", "eu-", " eu ", "nazi", "bundes", "höcke", "gauland", "von storch", "weidel", "wahlkampf"]),
    TagRule("digitalisierung", ["digitalisierung"]),
    TagRule("finance", [" bank", "wirecard", "cum-ex", "cumex", "cum ex", "inflation", "steuer ", "aktie", "ezb"]),
    TagRule("security", ["ransom", "security", "advisory", "cve", "cyber", "bsi", "hintertür", "backdoor", "tpm", "spectre", "meltdown", "vulnerability", "exploit", "hacker", "datenreichtum", "zertifikat", "schlüssel", "sandbox", "privileg", "sicherheitslücke", "sicherheitsproblem"]),
    TagRule("software", ["open-source", "open source", "opensource", "bug", "entwickler", "software"]),
    TagRule("environment", ["co2", "klima", "climate", "carbon", "umwelt"]),
    TagRule("police", ["cops", "poliz", "gewahrsam"]),
    TagRule("snakeoil", ["schlangenöl"]),
    TagRule("ai", ["künstlichen intelligenz", "künstlicher intelligenz", "künstliche intelligenz", "ki "]),
    TagRule("infra", ["bahn", "flug", "telekom", "vodafone", "glasfaser", "anbieter", "mobilfunk", " isp", "verkehr", "9€-ticket"]),
    TagRule("fail", ["kaputt", "bug", "fail", "mit profis"]),
    TagRule("ceo", ["ceo", " elon", "bezos", "gates", "zuckerberg", "warren buffett", "tim cook"]),
    TagRule("court", ["gericht", "richter"]),
    TagRule("media", ["öffentlich-rechtlich", "fox-news", "fox news", "foxnews", "medien", "propaganda"]),
    TagRule("left", ["antifa", "linke"]),
    TagRule("right", [" npd", "afd", "höcke", "gauland", "von storch", "weidel"]),
    TagRule("youtube", ["youtube", "youtu.be"]),
    TagRule("twitter", ["twitter"]),
    TagRule("tagesschau", ["tagesschau"]),
    TagRule("spiegel", ["spiegel"]),
    TagRule("heise", ["heise.de"]),
    TagRule("apple", ["apple"]),
    TagRule("microsoft", ["microsoft"]),
    TagRule("facebook", ["facebook"]),
    TagRule("google", ["google"]),
    TagRule("tesla", ["tesla"]),
    TagRule("amazon", ["amazon"]),
    TagRule("berlin", ["berlin"])
  ]

  /** Some keyword of `rule` occurs in the already lower-cased text (`keywords.some(...)`). */
  predicate Matches(rule: TagRule, lowered: string)
  {
    exists k :: k in rule.keywords && Contains(lowered, k)
  }

  /** The names of the matching rules from position `from` on, walking the table front to back. */
  function MatchingNames(rules: seq<TagRule>, lowered: string, from: nat): seq<string>
    requires from <= |rules|
    decreases |rules| - from
  {
    if from == |rules| then []
    else
      (if Matches(rules[from], lowered) then [rules[from].name] else [])
      + MatchingNames(rules, lowered, from + 1)
  }

  /** `getTags`: lower-case the text, keep the table entries one of whose keywords occurs in it,
      and return their names. */
  function GetTags(rules: seq<TagRule>, text: string): seq<string>
  {
    MatchingNames(rules, Lower(text), 0)
  }

  /** The positions, from `from` on, of the rules that match: the entries `filter` keeps. */
  ghost function MatchingPositions(rules: seq<TagRule>, lowered: string, from: nat): seq<nat>
    requires from <= |rules|
    decreases |rules| - from
  {
    if from == |rules| then []
    else
      (if Matches(rules[from], lowered) then [from] else [])
      + MatchingPositions(rules, lowered, from + 1)
  }

  /** `idx` lists, in increasing order, exactly the positions of the rules that match. */
  ghost predicate IsMatchingSelection(idx: seq<nat>, rules: seq<TagRule>, lowered: string)
  {
    && (forall j :: 0 <= j < |idx| ==> idx[j] < |rules|)
    && (forall j, k :: 0 <= j < k < |idx| ==> idx[j] < idx[k])
    && (forall i :: 0 <= i < |rules| ==> (i in idx <==> Matches(rules[i], lowered)))
  }

  lemma {:induction false} PositionsInRange(rules: seq<TagRule>, lowered: string, from: nat)
    requires from <= |rules|
    ensures forall j :: 0 <= j < |MatchingPositions(rules, lowered, from)| ==>
      from <= MatchingPositions(rules, lowered, from)[j] < |rules|
    decreases |rules| - from
  {
    if from < |rules| {
      PositionsInRange(rules, lowered, from + 1);
    }
  }

  lemma {:induction false} PositionsIncreasing(rules: seq<TagRule>, lowered: string, from: nat)
    requires from <= |rules|
    ensures forall j, k :: 0 <= j < k < |MatchingPositions(rules, lowered, from)| ==>
      MatchingPositions(rules, lowered, from)[j] < MatchingPositions(rules, lowered, from)[k]
    decreases |rules| - from
  {
    if from < |rules| {
      PositionsIncreasing(rules, lowered, from + 1);
      PositionsInRange(rules, lowered, from + 1);
      var idx := MatchingPositions(rules, lowered, from);
      var rest := MatchingPositions(rules, lowered, from + 1);
      var head := if Matches(rules[from], lowered) then [from] else [];
      assert idx == head + rest;
      var d := |head|;
      forall j, k | 0 <= j < k < |idx|
        ensures idx[j] < idx[k]
      {
        assert idx[k] == rest[k - d];
        if j >= d {
          assert idx[j] == rest[j - d];
        } else {
          assert idx[j] == from;
        }
      }
    }
  }

  lemma {:induction false} PositionsComplete(rules: seq<TagRule>, lowered: string, from: nat)
    requires from <= |rules|
    ensures forall i :: from <= i < |rules| ==>
      (i in MatchingPositions(rules, lowered, from) <==> Matches(rules[i], lowered))
    decreases |rules| - from
  {
    if from < |rules| {
      PositionsComplete(rules, lowered, from + 1);
      PositionsInRange(rules, lowered, from + 1);
      var idx := MatchingPositions(rules, lowered, from);
      var rest := MatchingPositions(rules, lowered, from + 1);
      assert from !in rest;
      assert forall i :: i in idx <==> (i == from && Matches(rules[from], lowered)) || i in rest;
    }
  }

  /** The names `MatchingNames` returns are those of the rules at the matching positions. */
  lemma {:induction false} PositionsNamed(rules: seq<TagRule>, lowered: string, from: nat)
    requires from <= |rules|
    ensures var idx := MatchingPositions(rules, lowered, from);
      && |idx| == |MatchingNames(rules, lowered, from)|
      && forall j :: 0 <= j < |idx| ==> idx[j] < |rules| && MatchingNames(rules, lowered, from)[j] == rules[idx[j]].name
    decreases |rules| - from
  {
    PositionsInRange(rules, lowered, from);
    if from < |rules| {
      PositionsNamed(rules, lowered, from + 1);
    }
  }

  /** The positions of the matching rules form a selection whose names are `MatchingNames`. */
  lemma MatchingSelection(rules: seq<TagRule>, lowered: string) returns (idx: seq<nat>)
    ensures IsMatchingSelection(idx, rules, lowered)
    ensures |idx| == |MatchingNames(rules, lowered, 0)|
    ensures forall j :: 0 <= j < |idx| ==> MatchingNames(rules, lowered, 0)[j] == rules[idx[j]].name
  {
    idx := MatchingPositions(rules, lowered, 0);
    PositionsInRange(rules, lowered, 0);
    PositionsIncreasing(rules, lowered, 0);
    PositionsComplete(rules, lowered, 0);
    PositionsNamed(rules, lowered, 0);
  }

  /** `getTags` keeps the names of the matching rules and only those, in the order the table
      declares them: exactly the rules at the positions of an increasing selection. */
  lemma GetTagsInTableOrder(rules: seq<TagRule>, text: string)
    ensures exists idx ::
      (&& IsMatchingSelection(idx, rules, Lower(text))
       && |idx| == |GetTags(rules, text)|
       && forall j :: 0 <= j < |idx| ==> GetTags(rules, text)[j] == rules[idx[j]].name)
  {
    var idx := MatchingSelection(rules, Lower(text));
  }

  /** A name is in `getTags`' answer exactly when some rule with that name has a keyword
      occurring in the lower-cased text. */
  lemma GetTagsMembership(rules: seq<TagRule>, text: string, name: string)
    ensures name in GetTags(rules, text)
      <==> exists i :: 0 <= i < |rules| && rules[i].name == name && Matches(rules[i], Lower(text))
  {
    var tags := GetTags(rules, text);
    var idx := MatchingSelection(rules, Lower(text));
    if name in tags {
      var j :| 0 <= j < |tags| && tags[j] == name;
      assert idx[j] in idx;
    }
    if exists i :: 0 <= i < |rules| && rules[i].name == name && Matches(rules[i], Lower(text)) {
      var i :| 0 <= i < |rules| && rules[i].name == name && Matches(rules[i], Lower(text));
      var j :| 0 <= j < |idx| && idx[j] == i;
      assert tags[j] == name;
    }
  }

  /** With distinct rule names (as in an object literal) no tag is reported twice. */
  lemma GetTagsDistinct(rules: seq<TagRule>, text: string)
    requires forall i, j :: 0 <= i < j < |rules| ==> rules[i].name != rules[j].name
    ensures Distinct(GetTags(rules, text))
  {
    var idx := MatchingSelection(rules, Lower(text));
  }

  /** The tags `applyTags` writes: `getTags`' answer, or `['notag']` when it is empty. */
  function TagsOrSentinel(rules: seq<TagRule>, text: string): (tags: seq<string>)
    ensures tags != []
    ensures GetTags(rules, text) != [] ==> tags == GetTags(rules, text)
  {
    var found := GetTags(rules, text);
    if found == [] then [NOTAG] else found
  }

  /** No rule of the table is itself named like the sentinel. */
  predicate SentinelFree(rules: seq<TagRule>)
  {
    forall i :: 0 <= i < |rules| ==> rules[i].name != NOTAG
  }

  /** An article is labelled with the sentinel alone exactly when no rule matches its text. */
  lemma SentinelExactlyWhenNoRuleMatches(rules: seq<TagRule>, text: string)
    requires SentinelFree(rules)
    ensures TagsOrSentinel(rules, text) == [NOTAG]
      <==> forall i :: 0 <= i < |rules| ==> !Matches(rules[i], Lower(text))
  {
    var found := GetTags(rules, text);
    if found == [] {
      forall i | 0 <= i < |rules|
        ensures !Matches(rules[i], Lower(text))
      {
        GetTagsMembership(rules, text, rules[i].name);
      }
    } else {
      GetTagsMembership(rules, text, found[0]);
      var i :| 0 <= i < |rules| && rules[i].name == found[0] && Matches(rules[i], Lower(text));
      assert TagsOrSentinel(rules, text) != [NOTAG];
    }
  }

  /** After labelling, the tags other than the sentinel are exactly the matching rule names. */
  lemma RealTagsAreMatches(rules: seq<TagRule>, text: string)
    requires SentinelFree(rules)
    ensures RealTags(TagsOrSentinel(rules, text)) == GetTags(rules, text)
  {
    var found := GetTags(rules, text);
    if found == [] {
      assert RealTags([NOTAG]) == Filter([NOTAG], IsRealTag);
      assert [NOTAG][1..] == [];
    } else {
      forall t | t in found
        ensures IsRealTag(t)
      {
        GetTagsMembership(rules, text, t);
      }
      FilterKeepsAll(found, IsRealTag);
    }
  }

  /** One article after `a.tags = getTags(a.text)` and the sentinel fallback: only `tags` changes. */
  function Classify(rules: seq<TagRule>, a: Article): (b: Article)
    ensures b.uuid == a.uuid && b.date == a.date && b.text == a.text
    ensures b.tags.Some? && b.tags.value != []
  {
    a.(tags := Some(TagsOrSentinel(rules, a.text)))
  }

  /** The whole article list after `applyTags`. */
  function ApplyAll(rules: seq<TagRule>, articles: seq<Article>): (r: seq<Article>)
    ensures |r| == |articles|
  {
    seq(|articles|, i requires 0 <= i < |articles| => Classify(rules, articles[i]))
  }

  /** Labelling depends on the text alone, so labelling twice is labelling once. */
  lemma ApplyAllIdempotent(rules: seq<TagRule>, articles: seq<Article>)
    ensures ApplyAll(rules, ApplyAll(rules, articles)) == ApplyAll(rules, articles)
  {
  }
}
