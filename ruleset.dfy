/**
 The rule-set documents `generate` builds: for every group, a source rule
 set of format version 3 holding one rule of the default kind that carries
 the group's four compiled lists. The JSON encoding and the file writes are
 not modelled; the result maps each group name to its document, which is
 written to the file `FileName` gives that name.
 */
module RuleSet {
  import opened Common
  import opened Geosite
  import opened Parse
  import opened Compile
  import opened Groups

  /** The rule-set format version written into every document. */
  const RuleSetVersion := 3

  /** The rule kind of a plain (non-logical) rule. */
  const RuleTypeDefault := "default"

  /** The fields of a default rule that the transcoder fills; all others stay empty. */
  datatype DefaultHeadlessRule = DefaultHeadlessRule(
    domain: seq<string>,
    domainSuffix: seq<string>,
    domainKeyword: seq<string>,
    domainRegex: seq<string>)

  /** A rule of a rule set, tagged with its kind. */
  datatype HeadlessRule = HeadlessRule(ruleType: string, defaultOptions: DefaultHeadlessRule)

  /** One output document. */
  datatype SourceRuleSet = SourceRuleSet(version: int, rules: seq<HeadlessRule>)

  /** The default rule carrying the compiled lists of `items`. */
  function RuleOf(items: seq<DomainItem>): DefaultHeadlessRule {
    DefaultHeadlessRule(Values(items, 0), Values(items, 3), Values(items, 1), Values(items, 2))
  }

  /** The document written for a group with the given items. */
  function Envelope(items: seq<DomainItem>): SourceRuleSet {
    SourceRuleSet(RuleSetVersion, [HeadlessRule(RuleTypeDefault, RuleOf(items))])
  }

  /** The name of the file a group is written to. */
  function FileName(code: string): (r: string)
    ensures |r| == |code| + 13
    ensures r[..8] == "geosite-" && r[8..|r| - 5] == code && r[|r| - 5..] == ".json"
  {
    "geosite-" + code + ".json"
  }

  /** The group name can be read back from the file name, so distinct groups give distinct names (before the path is cleaned). */
  lemma FileNameInjective(c1: string, c2: string)
    ensures FileName(c1) == FileName(c2) <==> c1 == c2
  {
    if FileName(c1) == FileName(c2) {
      assert c1 == FileName(c1)[8..|FileName(c1)| - 5];
      assert c2 == FileName(c2)[8..|FileName(c2)| - 5];
    }
  }

  /** The documents of the groups in `done`, by group name; group `code` is written to `FileName(code)`. */
  function Documents(domainMap: DomainMap, done: set<string>): map<string, SourceRuleSet> {
    map code | code in done && code in domainMap :: Envelope(domainMap[code])
  }

  /** The body of `generate`'s loop (main.go lines 204-215): one group compiled and wrapped. */
  method BuildRuleSet(items: seq<DomainItem>) returns (ruleSet: SourceRuleSet)
    ensures ruleSet == Envelope(items)
  {
    var domain, domainSuffix, domainKeyword, domainRegex := Compile.Compile(items);
    var headlessRule := DefaultHeadlessRule(domain, domainSuffix, domainKeyword, domainRegex);
    ruleSet := SourceRuleSet(RuleSetVersion, [HeadlessRule(RuleTypeDefault, headlessRule)]);
  }

  /**
   The loop of `generate` (main.go lines 203-232): every group is compiled
   and wrapped into its document, stored under its group name (it is written to
   the file `FileName` names). Groups are
   visited in an arbitrary order, as Go's map iteration visits them; the
   result does not depend on that order.
   */
  method WriteRuleSets(domainMap: DomainMap) returns (files: map<string, SourceRuleSet>)
    ensures files == Documents(domainMap, domainMap.Keys)
  {
    files := map[];
    var remaining := domainMap.Keys;
    ghost var done: set<string> := {};
    assert Documents(domainMap, {}) == map[];
    while remaining != {}
      invariant done + remaining == domainMap.Keys && done !! remaining
      invariant files == Documents(domainMap, done)
      decreases remaining
    {
      var code :| code in remaining;
      var ruleSet := BuildRuleSet(domainMap[code]);
      files := files[code := ruleSet];
      assert Documents(domainMap, done + {code}) == files;
      remaining := remaining - {code};
      done := done + {code};
    }
  }

  /**
   `generate` after the download: a decoding error is returned and nothing
   is written; otherwise every group of the regrouping is written.
   */
  method Generate(decoded: Result<seq<GeoSite>, DecodeError>)
    returns (r: Result<map<string, SourceRuleSet>, DecodeError>)
    ensures decoded.Err? ==> r == Err(decoded.error)
    ensures decoded.Ok? ==> r == Ok(Documents(ParseSpec(decoded.value), ParseSpec(decoded.value).Keys))
  {
    var parsed := Parse.Parse(decoded);
    if parsed.Err? {
      return Err(parsed.error);
    }
    var files := WriteRuleSets(parsed.value);
    return Ok(files);
  }

  /**
   Every group of the regrouping gets a version-3 document with one default
   rule, whose four lists hold every item of the group exactly once, and
   nothing else.
   */
  lemma GeneratedDocument(entries: seq<GeoSite>, name: string, t: int, v: string)
    requires name in ParseSpec(entries)
    ensures var files := Documents(ParseSpec(entries), ParseSpec(entries).Keys);
            name in files &&
            files[name].version == 3 &&
            files[name].rules == [HeadlessRule("default", RuleOf(ParseSpec(entries)[name]))]
    ensures var rule := RuleOf(ParseSpec(entries)[name]);
            |rule.domain| + |rule.domainSuffix| + |rule.domainKeyword| + |rule.domainRegex| == |ParseSpec(entries)[name]|
    ensures multiset(Values(ParseSpec(entries)[name], t))[v] == (if DomainItem(t, v) in ParseSpec(entries)[name] then 1 else 0)
  {
    var items := ParseSpec(entries)[name];
    ParseListsWellFormed(entries, name);
    CompileLengths(items);
    CompileCounts(items, t, v);
    DistinctCount(items, DomainItem(t, v));
  }

  /** In a list without duplicates every element is counted once. */
  lemma {:induction false} DistinctCount(items: seq<DomainItem>, x: DomainItem)
    requires NoDuplicates(items)
    ensures multiset(items)[x] == if x in items then 1 else 0
    decreases |items|
  {
    if items != [] {
      var prefix := items[..|items| - 1];
      assert items == prefix + [items[|items| - 1]];
      assert NoDuplicates(prefix);
      DistinctCount(prefix, x);
      assert items[|items| - 1] !in prefix;
    }
  }

  /**
   Where a record's value ends up: Full records become exact domains, Plain
   records keywords (not exact domains), Regex records regular expressions
   and RootDomain records suffixes; records of any other type appear nowhere.
   */
  lemma RecordRouting(d: Domain)
    ensures d.kind.Full? ==> RuleOf(ClassifyAll([d])) == DefaultHeadlessRule([d.value], [], [], [])
    ensures d.kind.Plain? ==> RuleOf(ClassifyAll([d])) == DefaultHeadlessRule([], [], [d.value], [])
    ensures d.kind.Regex? ==> RuleOf(ClassifyAll([d])) == DefaultHeadlessRule([], [], [], [d.value])
    ensures d.kind.RootDomain? ==> RuleOf(ClassifyAll([d])) == DefaultHeadlessRule([], [d.value], [], [])
    ensures d.kind.Other? ==> RuleOf(ClassifyAll([d])) == DefaultHeadlessRule([], [], [], [])
  {
    assert [d][..0] == [];
    var items := ClassifyAll([d]);
    if d.kind.Other? {
      assert items == [];
    } else {
      var x := Classify(d).value;
      assert items == [x] == [] + [x];
      ValuesSnoc([], x, 0);
      ValuesSnoc([], x, 1);
      ValuesSnoc([], x, 2);
      ValuesSnoc([], x, 3);
    }
  }

  /**
   The four lists are not disjoint: a Full record and a RootDomain record
   with the same value put that value both in the exact-domain list and in
   the suffix list of the group.
   */
  lemma ListsMayShareValue()
    ensures var rule := RuleOf(ClassifyAll([Domain(Full, "a.com", []), Domain(RootDomain, "a.com", [])]));
            "a.com" in rule.domain && "a.com" in rule.domainSuffix
  {
    var ds := [Domain(Full, "a.com", []), Domain(RootDomain, "a.com", [])];
    var items := ClassifyAll(ds);
    ClassifyAllMembers(ds, DomainItem(0, "a.com"));
    ClassifyAllMembers(ds, DomainItem(3, "a.com"));
    assert Classify(ds[0]) == Some(DomainItem(0, "a.com"));
    assert Classify(ds[1]) == Some(DomainItem(3, "a.com"));
    ValuesMembers(items, 0, "a.com");
    ValuesMembers(items, 3, "a.com");
  }

  /** Three records: an exact domain, a keyword tagged `key` and a suffix. */
  function ThreeRecords(va: string, vb: string, vc: string, key: string): seq<Domain> {
    [Domain(Full, va, []), Domain(Plain, vb, [Attribute(key)]), Domain(RootDomain, vc, [])]
  }

  /** Classifying the three records, and the tagged one alone. */
  lemma ThreeClassified(va: string, vb: string, vc: string, key: string)
    ensures ClassifyAll(ThreeRecords(va, vb, vc, key)) == [DomainItem(0, va), DomainItem(1, vb), DomainItem(3, vc)]
    ensures ClassifyAll([ThreeRecords(va, vb, vc, key)[1]]) == [DomainItem(1, vb)]
  {
    var ds := ThreeRecords(va, vb, vc, key);
    assert ds[..2][..1] == [ds[0]] && [ds[0]][..0] == [];
    assert ClassifyAll([ds[0]]) == [DomainItem(0, va)];
    assert ClassifyAll(ds[..2]) == [DomainItem(0, va), DomainItem(1, vb)];
    assert [ds[1]][..0] == [];
  }

  /** The three records fill one bucket, `key`, holding the tagged record. */
  lemma ThreeBuckets(va: string, vb: string, vc: string, key: string)
    ensures CollectAttributes(ThreeRecords(va, vb, vc, key)) == map[key := [ThreeRecords(va, vb, vc, key)[1]]]
  {
    var ds := ThreeRecords(va, vb, vc, key);
    var a, b := ds[0], ds[1];
    assert ds[..2] == [a, b] && [a, b][..1] == [a] && [a][..0] == [];
    assert CollectAttributes([a]) == map[];
    assert b.attributes == [Attribute(key)] && b.attributes[..0] == [];
    assert AddAttributes(map[], b, []) == map[];
    assert AddAttributes(map[], b, b.attributes) == AppendTo(map[], key, b);
    assert [] + [b] == [b];
  }

  /** The classified bucket of the three records. */
  lemma ThreeLists(va: string, vb: string, vc: string, key: string)
    ensures AttributeLists(map[key := [ThreeRecords(va, vb, vc, key)[1]]], {key}) == map[key := [DomainItem(1, vb)]]
  {
    ThreeClassified(va, vb, vc, key);
    UniqOfDistinct([DomainItem(1, vb)]);
  }

  /** The attribute groups of the three records: only `code@key`. */
  lemma ThreeAttributeGroups(code: string, va: string, vb: string, vc: string, key: string)
    ensures var buckets := CollectAttributes(ThreeRecords(va, vb, vc, key));
            AttributeGroups(code, buckets, buckets.Keys) == map[GroupName(code, key) := [DomainItem(1, vb)]]
  {
    ThreeBuckets(va, vb, vc, key);
    var buckets := map[key := [ThreeRecords(va, vb, vc, key)[1]]];
    assert buckets.Keys == {key};
    ThreeLists(va, vb, vc, key);
    GroupNameInjective(code);
    RekeySingleton(GroupNamer(code), key, [DomainItem(1, vb)]);
  }

  /** The groups of an entry holding the three records. */
  lemma ThreeGroups(code: string, va: string, vb: string, vc: string, key: string)
    ensures EntryGroups(GeoSite(code, ThreeRecords(va, vb, vc, key)))
         == map[ToLower(code) := [DomainItem(0, va), DomainItem(1, vb), DomainItem(3, vc)]]
            + map[GroupName(ToLower(code), key) := [DomainItem(1, vb)]]
  {
    var base := [DomainItem(0, va), DomainItem(1, vb), DomainItem(3, vc)];
    ThreeClassified(va, vb, vc, key);
    UniqOfDistinct(base);
    ThreeAttributeGroups(ToLower(code), va, vb, vc, key);
    EntryGroupsOf(GeoSite(code, ThreeRecords(va, vb, vc, key)), base,
                  map[GroupName(ToLower(code), key) := [DomainItem(1, vb)]]);
  }

  /** An entry's groups, given its deduplicated base list and its attribute groups. */
  lemma EntryGroupsOf(e: GeoSite, base: seq<DomainItem>, attrGroups: DomainMap)
    ensures var buckets := CollectAttributes(e.domains);
            Uniq(ClassifyAll(e.domains)) == base &&
            AttributeGroups(ToLower(e.countryCode), buckets, buckets.Keys) == attrGroups
            ==> EntryGroups(e) == map[ToLower(e.countryCode) := base] + attrGroups
  {
  }

  /**
   A worked case: one entry with an exact-domain record `va`, a keyword
   record `vb` tagged `key` and a suffix record `vc` yields exactly the
   groups `code` (lower-cased) and `code@key`; `va` becomes an exact domain,
   `vb` a keyword and `vc` a suffix, and the tagged group holds `vb` only.
   */
  lemma ThreeRecordEntry(code: string, va: string, vb: string, vc: string, key: string)
    ensures var base := [DomainItem(0, va), DomainItem(1, vb), DomainItem(3, vc)];
            ParseSpec([GeoSite(code, ThreeRecords(va, vb, vc, key))])
            == map[ToLower(code) := base, GroupName(ToLower(code), key) := [DomainItem(1, vb)]]
    ensures ToLower(code) != GroupName(ToLower(code), key)
    ensures RuleOf([DomainItem(0, va), DomainItem(1, vb), DomainItem(3, vc)]) == DefaultHeadlessRule([va], [vc], [vb], [])
  {
    var e := GeoSite(code, ThreeRecords(va, vb, vc, key));
    var lower := ToLower(code);
    ThreeGroups(code, va, vb, vc, key);
    ParseSpecSingle(e);
    JoinSingletonIsUpdate(map[lower := [DomainItem(0, va), DomainItem(1, vb), DomainItem(3, vc)]],
                   GroupName(lower, key), [DomainItem(1, vb)]);
    BaseNameNotAttribute(lower, key);
    var ia, ib, ic := DomainItem(0, va), DomainItem(1, vb), DomainItem(3, vc);
    ThreeValues(ia, ib, ic, 0);
    ThreeValues(ia, ib, ic, 1);
    ThreeValues(ia, ib, ic, 2);
    ThreeValues(ia, ib, ic, 3);
  }

  /** The list of type `t` of a three-item group. */
  lemma ThreeValues(ia: DomainItem, ib: DomainItem, ic: DomainItem, t: int)
    ensures Values([ia, ib, ic], t)
         == (if ia.itemType == t then [ia.value] else []) + (if ib.itemType == t then [ib.value] else [])
            + (if ic.itemType == t then [ic.value] else [])
  {
    assert [ia, ib, ic] == [] + [ia] + [ib] + [ic];
    ValuesSnoc([], ia, t);
    ValuesSnoc([ia], ib, t);
    ValuesSnoc([ia, ib], ic, t);
    assert [] + [ia] == [ia] && [ia] + [ib] == [ia, ib] && [ia, ib] + [ic] == [ia, ib, ic];
  }
}
