/**
 Regrouping of the decoded database into named groups of classified items.

 Every category entry yields a base group, keyed by its lower-cased code, and
 one group per attribute key found among its records, keyed `code@key`. A
 group's list is the first-occurrence deduplication of the classified items
 of the records it covers. Groups of later entries replace groups of the
 same name from earlier entries.
 */
module Parse {
  import opened Common
  import opened Geosite

  /** Records collected per attribute key, before classification. */
  type Buckets = map<string, seq<Domain>>

  /** The groups produced so far, by group name. */
  type DomainMap = map<string, seq<DomainItem>>

  /** The error `proto.Unmarshal` reports for bytes that are not a geosite list. */
  datatype DecodeError = DecodeError(message: string)

  /** The attribute keys carried by one list of attributes. */
  function KeySet(attrs: seq<Attribute>): set<string> {
    set a | a in attrs :: a.key
  }

  /** The attribute keys a record carries. */
  function KeysOf(d: Domain): set<string> {
    KeySet(d.attributes)
  }

  /** `d` appended to the bucket of `key`; a missing bucket counts as empty. */
  function AppendTo(m: Buckets, key: string, d: Domain): Buckets {
    m[key := (if key in m then m[key] else []) + [d]]
  }

  /** `d` appended to the bucket of every attribute in `attrs`, once per attribute. */
  function AddAttributes(m: Buckets, d: Domain, attrs: seq<Attribute>): Buckets
    decreases |attrs|
  {
    if attrs == [] then m
    else AppendTo(AddAttributes(m, d, attrs[..|attrs| - 1]), attrs[|attrs| - 1].key, d)
  }

  /** The buckets built from the records `ds` of one entry. */
  function CollectAttributes(ds: seq<Domain>): Buckets
    decreases |ds|
  {
    if ds == [] then map[]
    else
      var d := ds[|ds| - 1];
      AddAttributes(CollectAttributes(ds[..|ds| - 1]), d, d.attributes)
  }

  /** The name of the attribute group `key` of the entry with lower-cased code `code`. */
  function GroupName(code: string, key: string): (r: string)
    ensures |r| == |code| + 1 + |key|
    ensures r[..|code|] == code && r[|code|] == '@' && r[|code| + 1..] == key
  {
    code + "@" + key
  }

  /** The naming of the attribute groups of `code`, as a function of the attribute key. */
  function GroupNamer(code: string): string -> string {
    key => GroupName(code, key)
  }

  /** The attribute key can be read back from a group name, so distinct keys give distinct names. */
  lemma GroupNameInjective(code: string)
    ensures Injective(GroupNamer(code))
    ensures forall k1, k2 {:trigger GroupName(code, k1), GroupName(code, k2)} ::
              GroupName(code, k1) == GroupName(code, k2) ==> k1 == k2
  {
    forall k1, k2 | GroupName(code, k1) == GroupName(code, k2)
      ensures k1 == k2
    {
      assert k1 == GroupName(code, k1)[|code| + 1..];
      assert k2 == GroupName(code, k2)[|code| + 1..];
    }
  }

  /** The deduplicated classified list of each bucket whose key is in `keys`, by attribute key. */
  function AttributeLists(buckets: Buckets, keys: set<string>): DomainMap {
    map k | k in keys && k in buckets :: Uniq(ClassifyAll(buckets[k]))
  }

  /** The attribute groups of `code` for those `keys` that have a bucket, by group name. */
  function AttributeGroups(code: string, buckets: Buckets, keys: set<string>): DomainMap
  {
    GroupNameInjective(code);
    Rekey(GroupNamer(code), AttributeLists(buckets, keys))
  }

  /** The groups one category entry produces: its base group and its attribute groups. */
  function EntryGroups(e: GeoSite): (r: DomainMap)
    ensures ToLower(e.countryCode) in r
  {
    var code := ToLower(e.countryCode);
    var buckets := CollectAttributes(e.domains);
    map[code := Uniq(ClassifyAll(e.domains))] + AttributeGroups(code, buckets, buckets.Keys)
  }

  /** The groups of every entry, in entry order. */
  function AllEntryGroups(entries: seq<GeoSite>): seq<DomainMap> {
    MapSeq(EntryGroups, entries)
  }

  /** The result of regrouping `entries`: each entry's groups override earlier ones of the same name. */
  function ParseSpec(entries: seq<GeoSite>): DomainMap {
    Overlay(AllEntryGroups(entries))
  }

  // ---------------------------------------------------------------------------
  // The imperative regrouping
  // ---------------------------------------------------------------------------

  /**
   The pass over one entry's records (main.go lines 107-137): every record
   is appended to the bucket of each attribute key it carries, and its
   classified item, if its type is recognised, to the base list.
   */
  method CollectRecords(records: seq<Domain>) returns (domains: seq<DomainItem>, attributes: Buckets)
    ensures domains == ClassifyAll(records)
    ensures attributes == CollectAttributes(records)
  {
    domains, attributes := [], map[];
    for i := 0 to |records|
      invariant domains == ClassifyAll(records[..i])
      invariant attributes == CollectAttributes(records[..i])
    {
      var domain := records[i];
      assert records[..i + 1][..i] == records[..i];
      if |domain.attributes| > 0 {
        for j := 0 to |domain.attributes|
          invariant attributes == AddAttributes(CollectAttributes(records[..i]), domain, domain.attributes[..j])
        {
          assert domain.attributes[..j + 1][..j] == domain.attributes[..j];
          var key := domain.attributes[j].key;
          attributes := attributes[key := (if key in attributes then attributes[key] else []) + [domain]];
        }
        assert domain.attributes[..|domain.attributes|] == domain.attributes;
      }
      match domain.kind
      case Plain => domains := domains + [DomainItem(1, domain.value)];
      case Regex => domains := domains + [DomainItem(2, domain.value)];
      case RootDomain => domains := domains + [DomainItem(3, domain.value)];
      case Full => domains := domains + [DomainItem(0, domain.value)];
      case Other(_) =>
    }
    assert records[..|records|] == records;
  }

  /** The classification of one attribute bucket (main.go lines 140-164). */
  method ClassifyBucket(attributeEntries: seq<Domain>) returns (attributeDomains: seq<DomainItem>)
    ensures attributeDomains == ClassifyAll(attributeEntries)
  {
    attributeDomains := [];
    for j := 0 to |attributeEntries|
      invariant attributeDomains == ClassifyAll(attributeEntries[..j])
    {
      var domain := attributeEntries[j];
      assert attributeEntries[..j + 1][..j] == attributeEntries[..j];
      match domain.kind
      case Plain => attributeDomains := attributeDomains + [DomainItem(1, domain.value)];
      case Regex => attributeDomains := attributeDomains + [DomainItem(2, domain.value)];
      case RootDomain => attributeDomains := attributeDomains + [DomainItem(3, domain.value)];
      case Full => attributeDomains := attributeDomains + [DomainItem(0, domain.value)];
      case Other(_) =>
    }
    assert attributeEntries[..|attributeEntries|] == attributeEntries;
  }

  /**
   The loop over one entry's attribute buckets (main.go lines 139-166): each
   bucket is classified, deduplicated and stored as group `code@key`. The
   buckets are visited in an arbitrary order, as Go's map iteration visits
   them; the result does not depend on that order.
   */
  method StoreAttributeGroups(domainMap: DomainMap, code: string, attributes: Buckets)
    returns (result: DomainMap)
    ensures result == domainMap + AttributeGroups(code, attributes, attributes.Keys)
  {
    result := domainMap;
    var remaining := attributes.Keys;
    ghost var done: set<string> := {};
    EmptyAttributeGroups(code, attributes);
    while remaining != {}
      invariant done + remaining == attributes.Keys && done !! remaining
      invariant result == domainMap + AttributeGroups(code, attributes, done)
      decreases remaining
    {
      var attribute :| attribute in remaining;
      var attributeDomains := ClassifyBucket(attributes[attribute]);
      StoreOneGroup(domainMap, code, attributes, done, attribute);
      result := result[GroupName(code, attribute) := Uniq(attributeDomains)];
      remaining := remaining - {attribute};
      done := done + {attribute};
    }
  }

  /**
   The map-building part of `parse` (main.go lines 104-168): for each entry,
   its base group is stored under the lower-cased code, then its attribute
   groups.
   */
  method ParseEntries(entries: seq<GeoSite>) returns (domainMap: DomainMap)
    ensures domainMap == ParseSpec(entries)
  {
    domainMap := map[];
    assert AllEntryGroups(entries[..0]) == [];
    for n := 0 to |entries|
      invariant domainMap == ParseSpec(entries[..n])
    {
      var entry := entries[n];
      var code := ToLower(entry.countryCode);
      var domains, attributes := CollectRecords(entry.domains);
      ghost var before := domainMap;
      domainMap := domainMap[code := Uniq(domains)];
      domainMap := StoreAttributeGroups(domainMap, code, attributes);
      EntryGroupsStored(before, entry);
      ParseSpecSnoc(entries, n);
    }
    assert entries[..|entries|] == entries;
  }

  /**
   `parse`: a decoding error is returned as it is, with no groups; decoded
   entries are regrouped.
   */
  method Parse(decoded: Result<seq<GeoSite>, DecodeError>) returns (r: Result<DomainMap, DecodeError>)
    ensures decoded.Err? ==> r == Err(decoded.error)
    ensures decoded.Ok? ==> r == Ok(ParseSpec(decoded.value))
  {
    if decoded.Err? {
      return Err(decoded.error);
    }
    var domainMap := ParseEntries(decoded.value);
    return Ok(domainMap);
  }

  // ---------------------------------------------------------------------------
  // Lemmas about the regrouping
  // ---------------------------------------------------------------------------

  /** Regrouping one more entry joins its groups to the earlier result. */
  lemma ParseSpecSnoc(entries: seq<GeoSite>, n: nat)
    requires n < |entries|
    ensures ParseSpec(entries[..n + 1]) == ParseSpec(entries[..n]) + EntryGroups(entries[n])
  {
    MapSeqSnoc(EntryGroups, entries, n);
    OverlaySnoc(AllEntryGroups(entries[..n]), EntryGroups(entries[n]));
  }

  /** Regrouping a single entry gives exactly its groups. */
  lemma ParseSpecSingle(e: GeoSite)
    ensures ParseSpec([e]) == EntryGroups(e)
  {
    MapSeqSingle(EntryGroups, e);
    OverlaySingle(EntryGroups(e));
  }

  /** Storing an entry's base group, then its attribute groups, adds exactly its groups. */
  lemma EntryGroupsStored(before: DomainMap, e: GeoSite)
    ensures var code := ToLower(e.countryCode);
            var buckets := CollectAttributes(e.domains);
            before[code := Uniq(ClassifyAll(e.domains))] + AttributeGroups(code, buckets, buckets.Keys)
            == before + EntryGroups(e)
  {
    var code := ToLower(e.countryCode);
    var buckets := CollectAttributes(e.domains);
    JoinAfterUpdate(before, code, Uniq(ClassifyAll(e.domains)), AttributeGroups(code, buckets, buckets.Keys));
  }

  /** With no keys done, there are no attribute groups. */
  lemma EmptyAttributeGroups(code: string, buckets: Buckets)
    ensures AttributeGroups(code, buckets, {}) == map[]
  {
  }

  /** Storing the group of one more attribute key extends the stored attribute groups by that key. */
  lemma StoreOneGroup(domainMap: DomainMap, code: string, buckets: Buckets, done: set<string>, k: string)
    requires k in buckets && k !in done
    ensures (domainMap + AttributeGroups(code, buckets, done))[GroupName(code, k) := Uniq(ClassifyAll(buckets[k]))]
         == domainMap + AttributeGroups(code, buckets, done + {k})
  {
    AttributeGroupsInsert(code, buckets, done, k);
    UpdateAfterJoin(domainMap, AttributeGroups(code, buckets, done), GroupName(code, k), Uniq(ClassifyAll(buckets[k])));
  }

  /** Adding one attribute key to the done set adds exactly its group. */
  lemma AttributeGroupsInsert(code: string, buckets: Buckets, done: set<string>, k: string)
    requires k in buckets && k !in done
    ensures AttributeGroups(code, buckets, done + {k})
         == AttributeGroups(code, buckets, done)[GroupName(code, k) := Uniq(ClassifyAll(buckets[k]))]
  {
    GroupNameInjective(code);
    var v := Uniq(ClassifyAll(buckets[k]));
    assert AttributeLists(buckets, done + {k}) == AttributeLists(buckets, done)[k := v];
    RekeyInsert(GroupNamer(code), AttributeLists(buckets, done), k, v);
  }
}
