/**
 What the regrouping promises about the groups it produces: the base group of
 an entry holds each recognised record's item once, an attribute group holds
 the items of the records carrying its key, group names come from codes and
 attribute keys, and a later entry's group replaces an earlier one of the
 same name.
 */
module Groups {
  import opened Common
  import opened Geosite
  import opened Parse

  /** Some record of `ds` classifies to `x`. */
  ghost predicate ClassifiedFrom(ds: seq<Domain>, x: DomainItem) {
    exists i :: 0 <= i < |ds| && Classify(ds[i]) == Some(x)
  }

  /** Some record of `ds` carries attribute `key`. */
  ghost predicate KeyCarried(ds: seq<Domain>, key: string) {
    exists i :: 0 <= i < |ds| && key in KeysOf(ds[i])
  }

  /** Some record of `ds` carries attribute `key` and classifies to `x`. */
  ghost predicate ClassifiedWithKey(ds: seq<Domain>, key: string, x: DomainItem) {
    exists i :: 0 <= i < |ds| && key in KeysOf(ds[i]) && Classify(ds[i]) == Some(x)
  }

  // ---------------------------------------------------------------------------
  // Buckets
  // ---------------------------------------------------------------------------

  /** Appending a record once per attribute adds a bucket per key and the record to each of them. */
  lemma {:induction false} AddAttributesMember(m: Buckets, d: Domain, attrs: seq<Attribute>, k: string, x: Domain)
    ensures k in AddAttributes(m, d, attrs) <==> k in m || k in KeySet(attrs)
    ensures k in AddAttributes(m, d, attrs) ==>
              (x in AddAttributes(m, d, attrs)[k] <==> (k in m && x in m[k]) || (x == d && k in KeySet(attrs)))
    decreases |attrs|
  {
    if attrs != [] {
      var prefix := attrs[..|attrs| - 1];
      assert attrs == prefix + [attrs[|attrs| - 1]];
      assert KeySet(attrs) == KeySet(prefix) + {attrs[|attrs| - 1].key};
      AddAttributesMember(m, d, prefix, k, x);
    }
  }

  /** A bucket exists exactly for each key some record carries. */
  lemma {:induction false} CollectAttributesKeys(ds: seq<Domain>, k: string)
    ensures k in CollectAttributes(ds) <==> KeyCarried(ds, k)
    decreases |ds|
  {
    if ds != [] {
      var prefix := ds[..|ds| - 1];
      var d := ds[|ds| - 1];
      CollectAttributesKeys(prefix, k);
      AddAttributesMember(CollectAttributes(prefix), d, d.attributes, k, d);
      if KeyCarried(prefix, k) {
        var i :| 0 <= i < |prefix| && k in KeysOf(prefix[i]);
        assert ds[i] == prefix[i];
      }
      if KeyCarried(ds, k) && k !in KeysOf(d) {
        var i :| 0 <= i < |ds| && k in KeysOf(ds[i]);
        assert prefix[i] == ds[i];
      }
    }
  }

  /** The bucket of `k` holds exactly the records that carry `k`. */
  lemma {:induction false} CollectAttributesMember(ds: seq<Domain>, k: string, x: Domain)
    requires k in CollectAttributes(ds)
    ensures x in CollectAttributes(ds)[k] <==> x in ds && k in KeysOf(x)
    decreases |ds|
  {
    var prefix := ds[..|ds| - 1];
    var d := ds[|ds| - 1];
    assert ds == prefix + [d];
    AddAttributesMember(CollectAttributes(prefix), d, d.attributes, k, x);
    if k in CollectAttributes(prefix) {
      CollectAttributesMember(prefix, k, x);
    } else if x in prefix && k in KeysOf(x) {
      var i :| 0 <= i < |prefix| && prefix[i] == x;
      CollectAttributesKeys(prefix, k);
    }
  }

  /** The classified bucket of `k` holds exactly the items of records carrying `k`. */
  lemma BucketItems(ds: seq<Domain>, k: string, x: DomainItem)
    requires k in CollectAttributes(ds)
    ensures x in ClassifyAll(CollectAttributes(ds)[k]) <==> ClassifiedWithKey(ds, k, x)
  {
    var bucket := CollectAttributes(ds)[k];
    ClassifyAllMembers(bucket, x);
    if x in ClassifyAll(bucket) {
      var j :| 0 <= j < |bucket| && Classify(bucket[j]) == Some(x);
      CollectAttributesMember(ds, k, bucket[j]);
      var i :| 0 <= i < |ds| && ds[i] == bucket[j];
    }
    if ClassifiedWithKey(ds, k, x) {
      var i :| 0 <= i < |ds| && k in KeysOf(ds[i]) && Classify(ds[i]) == Some(x);
      CollectAttributesMember(ds, k, ds[i]);
      var j :| 0 <= j < |bucket| && bucket[j] == ds[i];
    }
  }

  // ---------------------------------------------------------------------------
  // The groups of one entry
  // ---------------------------------------------------------------------------

  /** The attribute groups of `code` are exactly the names `code@k` of the given keys with a bucket. */
  lemma AttributeGroupsAt(code: string, buckets: Buckets, keys: set<string>, name: string)
    ensures name in AttributeGroups(code, buckets, keys) <==>
              exists k :: k in keys && k in buckets && name == GroupName(code, k)
    ensures forall k :: k in keys && k in buckets && name == GroupName(code, k) ==>
              AttributeGroups(code, buckets, keys)[name] == Uniq(ClassifyAll(buckets[k]))
  {
    GroupNameInjective(code);
    var lists := AttributeLists(buckets, keys);
    RekeyAt(GroupNamer(code), lists, name);
    if name in AttributeGroups(code, buckets, keys) {
      var k :| k in lists && name == GroupNamer(code)(k);
      assert k in keys && k in buckets && name == GroupName(code, k);
    }
    if exists k :: k in keys && k in buckets && name == GroupName(code, k) {
      var k :| k in keys && k in buckets && name == GroupName(code, k);
      assert k in lists && name == GroupNamer(code)(k);
    }
    forall k | k in keys && k in buckets && name == GroupName(code, k)
      ensures AttributeGroups(code, buckets, keys)[name] == Uniq(ClassifyAll(buckets[k]))
    {
      assert k in lists && name == GroupNamer(code)(k);
    }
  }

  /** A base group name is never an attribute group name of the same code. */
  lemma BaseNameNotAttribute(code: string, key: string)
    ensures GroupName(code, key) != code
  {
    assert |GroupName(code, key)| > |code|;
  }

  /**
   The base group of an entry is stored under its lower-cased code; it has no
   duplicates and holds exactly the items of the entry's recognised records.
   */
  lemma BaseGroup(e: GeoSite, x: DomainItem)
    ensures ToLower(e.countryCode) in EntryGroups(e)
    ensures EntryGroups(e)[ToLower(e.countryCode)] == Uniq(ClassifyAll(e.domains))
    ensures NoDuplicates(EntryGroups(e)[ToLower(e.countryCode)])
    ensures x in EntryGroups(e)[ToLower(e.countryCode)] <==> ClassifiedFrom(e.domains, x)
  {
    var code := ToLower(e.countryCode);
    var buckets := CollectAttributes(e.domains);
    AttributeGroupsAt(code, buckets, buckets.Keys, code);
    assert code !in AttributeGroups(code, buckets, buckets.Keys) by {
      forall k ensures code != GroupName(code, k) {
        BaseNameNotAttribute(code, k);
      }
    }
    ClassifyAllMembers(e.domains, x);
    UniqMembers(ClassifyAll(e.domains), x);
  }

  /**
   Every attribute key some record of the entry carries yields the group
   `code@key`, even when none of those records has a recognised type. It has
   no duplicates and holds exactly the items of the recognised records that
   carry the key.
   */
  lemma AttributeGroup(e: GeoSite, key: string, x: DomainItem)
    requires KeyCarried(e.domains, key)
    ensures key in CollectAttributes(e.domains)
    ensures GroupName(ToLower(e.countryCode), key) in EntryGroups(e)
    ensures EntryGroups(e)[GroupName(ToLower(e.countryCode), key)]
         == Uniq(ClassifyAll(CollectAttributes(e.domains)[key]))
    ensures NoDuplicates(EntryGroups(e)[GroupName(ToLower(e.countryCode), key)])
    ensures x in EntryGroups(e)[GroupName(ToLower(e.countryCode), key)] <==> ClassifiedWithKey(e.domains, key, x)
  {
    var code := ToLower(e.countryCode);
    var buckets := CollectAttributes(e.domains);
    CollectAttributesKeys(e.domains, key);
    AttributeGroupsAt(code, buckets, buckets.Keys, GroupName(code, key));
    BaseNameNotAttribute(code, key);
    BucketItems(e.domains, key, x);
    UniqMembers(ClassifyAll(buckets[key]), x);
  }

  /**
   An attribute group is empty exactly when no record carrying its key has a
   recognised type.
   */
  lemma AttributeGroupEmpty(e: GeoSite, key: string)
    requires KeyCarried(e.domains, key)
    ensures GroupName(ToLower(e.countryCode), key) in EntryGroups(e)
    ensures EntryGroups(e)[GroupName(ToLower(e.countryCode), key)] == [] <==>
              forall i :: 0 <= i < |e.domains| && key in KeysOf(e.domains[i]) ==> Classify(e.domains[i]).None?
  {
    AttributeGroup(e, key, DomainItem(0, ""));
    var g := EntryGroups(e)[GroupName(ToLower(e.countryCode), key)];
    if g != [] {
      AttributeGroup(e, key, g[0]);
    } else {
      forall i | 0 <= i < |e.domains| && key in KeysOf(e.domains[i])
        ensures Classify(e.domains[i]).None?
      {
        if Classify(e.domains[i]).Some? {
          AttributeGroup(e, key, Classify(e.domains[i]).value);
        }
      }
    }
  }

  /**
   Fan-out: the item of a recognised record is in the entry's base group and
   in the group `code@key` of every attribute key it carries.
   */
  lemma FanOut(e: GeoSite, i: nat, a: Attribute)
    requires i < |e.domains| && a in e.domains[i].attributes && Classify(e.domains[i]).Some?
    ensures Classify(e.domains[i]).value in EntryGroups(e)[ToLower(e.countryCode)]
    ensures GroupName(ToLower(e.countryCode), a.key) in EntryGroups(e)
    ensures Classify(e.domains[i]).value in EntryGroups(e)[GroupName(ToLower(e.countryCode), a.key)]
  {
    var x := Classify(e.domains[i]).value;
    assert a.key in KeysOf(e.domains[i]);
    BaseGroup(e, x);
    AttributeGroup(e, a.key, x);
  }

  /** Every item of an attribute group is also in the same entry's base group. */
  lemma AttributeGroupInBase(e: GeoSite, key: string, x: DomainItem)
    ensures ToLower(e.countryCode) in EntryGroups(e)
    ensures GroupName(ToLower(e.countryCode), key) in EntryGroups(e) &&
            x in EntryGroups(e)[GroupName(ToLower(e.countryCode), key)]
            ==> x in EntryGroups(e)[ToLower(e.countryCode)]
  {
    var code := ToLower(e.countryCode);
    BaseGroup(e, x);
    if GroupName(code, key) in EntryGroups(e) && x in EntryGroups(e)[GroupName(code, key)] {
      EntryGroupNames(e, GroupName(code, key));
      BaseNameNotAttribute(code, key);
      var key' :| KeyCarried(e.domains, key') && GroupName(code, key) == GroupName(code, key');
      GroupNameInjective(code);
      assert KeyCarried(e.domains, key);
      AttributeGroup(e, key, x);
      var i :| 0 <= i < |e.domains| && key in KeysOf(e.domains[i]) && Classify(e.domains[i]) == Some(x);
      assert ClassifiedFrom(e.domains, x);
    }
  }

  /**
   The group names of an entry are its lower-cased code and `code@key` for
   each attribute key its records carry, verbatim.
   */
  lemma EntryGroupNames(e: GeoSite, name: string)
    ensures name in EntryGroups(e) <==>
              name == ToLower(e.countryCode) ||
              exists key :: KeyCarried(e.domains, key) && name == GroupName(ToLower(e.countryCode), key)
  {
    var code := ToLower(e.countryCode);
    var buckets := CollectAttributes(e.domains);
    AttributeGroupsAt(code, buckets, buckets.Keys, name);
    if exists key :: KeyCarried(e.domains, key) && name == GroupName(code, key) {
      var key :| KeyCarried(e.domains, key) && name == GroupName(code, key);
      CollectAttributesKeys(e.domains, key);
    }
    if name in AttributeGroups(code, buckets, buckets.Keys) {
      var key :| key in buckets && name == GroupName(code, key);
      CollectAttributesKeys(e.domains, key);
    }
  }

  /** Classification ignores a record of unrecognised type wherever it sits. */
  lemma UnrecognizedClassifiesToNothing(before: seq<Domain>, d: Domain, after: seq<Domain>)
    requires Classify(d).None?
    ensures ClassifyAll(before + [d] + after) == ClassifyAll(before + after)
  {
    ClassifyAllAppend(before + [d], after);
    ClassifyAllAppend(before, [d]);
    ClassifyAllAppend(before, after);
    assert [d][..0] == [];
  }

  /** A record of unrecognised type adds no item to its entry's base group. */
  lemma UnrecognizedBase(code: string, before: seq<Domain>, d: Domain, after: seq<Domain>)
    requires Classify(d).None?
    ensures EntryGroups(GeoSite(code, before + [d] + after))[ToLower(code)]
         == EntryGroups(GeoSite(code, before + after))[ToLower(code)]
  {
    BaseGroup(GeoSite(code, before + [d] + after), DomainItem(0, ""));
    BaseGroup(GeoSite(code, before + after), DomainItem(0, ""));
    UnrecognizedClassifiesToNothing(before, d, after);
  }

  /** The records of `before + after` are those of `before + [d] + after` other than `d` itself. */
  lemma {:induction false} WithoutRecord(before: seq<Domain>, d: Domain, after: seq<Domain>, key: string, x: DomainItem)
    requires Classify(d).None?
    ensures ClassifiedWithKey(before + [d] + after, key, x) <==> ClassifiedWithKey(before + after, key, x)
    ensures KeyCarried(before + after, key) ==> KeyCarried(before + [d] + after, key)
  {
    var with, without := before + [d] + after, before + after;
    if ClassifiedWithKey(with, key, x) {
      var i :| 0 <= i < |with| && key in KeysOf(with[i]) && Classify(with[i]) == Some(x);
      var i' := if i < |before| then i else i - 1;
      assert with[i] == without[i'];
    }
    if ClassifiedWithKey(without, key, x) {
      var i :| 0 <= i < |without| && key in KeysOf(without[i]) && Classify(without[i]) == Some(x);
      var i' := if i < |before| then i else i + 1;
      assert with[i'] == without[i];
    }
    if KeyCarried(without, key) {
      var i :| 0 <= i < |without| && key in KeysOf(without[i]);
      var i' := if i < |before| then i else i + 1;
      assert with[i'] == without[i];
    }
  }

  /**
   A record of unrecognised type adds no item to any attribute group: each
   group `code@key` holds the same items with or without it. If it is the
   only record carrying `key`, the group still exists, and is empty.
   */
  lemma UnrecognizedAttribute(code: string, before: seq<Domain>, d: Domain, after: seq<Domain>,
                              key: string, x: DomainItem)
    requires Classify(d).None? && KeyCarried(before + [d] + after, key)
    ensures GroupName(ToLower(code), key) in EntryGroups(GeoSite(code, before + [d] + after))
    ensures x in EntryGroups(GeoSite(code, before + [d] + after))[GroupName(ToLower(code), key)]
        <==> ClassifiedWithKey(before + after, key, x)
    ensures KeyCarried(before + after, key) ==>
              GroupName(ToLower(code), key) in EntryGroups(GeoSite(code, before + after)) &&
              (x in EntryGroups(GeoSite(code, before + [d] + after))[GroupName(ToLower(code), key)]
               <==> x in EntryGroups(GeoSite(code, before + after))[GroupName(ToLower(code), key)])
  {
    AttributeGroup(GeoSite(code, before + [d] + after), key, x);
    WithoutRecord(before, d, after, key, x);
    if KeyCarried(before + after, key) {
      AttributeGroup(GeoSite(code, before + after), key, x);
    }
  }

  // ---------------------------------------------------------------------------
  // The whole map
  // ---------------------------------------------------------------------------

  /** A name is in the result iff some entry produces it. */
  lemma ParseNames(entries: seq<GeoSite>, name: string)
    ensures name in ParseSpec(entries) <==> exists j :: 0 <= j < |entries| && name in EntryGroups(entries[j])
  {
    var ms := AllEntryGroups(entries);
    OverlayKeys(ms, name);
    if exists j :: 0 <= j < |entries| && name in EntryGroups(entries[j]) {
      var j :| 0 <= j < |entries| && name in EntryGroups(entries[j]);
      assert name in ms[j];
    }
  }

  /**
   The last writer wins: a name holds the group of the last entry that
   produces it, whatever earlier entries stored under the same name.
   */
  lemma LastEntryWins(entries: seq<GeoSite>, j: nat, name: string)
    requires j < |entries| && name in EntryGroups(entries[j])
    requires forall j' :: j < j' < |entries| ==> name !in EntryGroups(entries[j'])
    ensures name in ParseSpec(entries)
    ensures ParseSpec(entries)[name] == EntryGroups(entries[j])[name]
  {
    var ms := AllEntryGroups(entries);
    forall j' | j < j' < |ms| ensures name !in ms[j'] {
      assert ms[j'] == EntryGroups(entries[j']);
    }
    OverlayLastWins(ms, j, name);
  }

  /**
   Two entries whose codes differ only in ASCII case share one base group
   name, and the later entry's group replaces the earlier one.
   */
  lemma CaseCollision(first: GeoSite, second: GeoSite, x: DomainItem)
    requires ToLower(first.countryCode) == ToLower(second.countryCode)
    ensures ToLower(first.countryCode) in ParseSpec([first, second])
    ensures ParseSpec([first, second])[ToLower(first.countryCode)] == Uniq(ClassifyAll(second.domains))
  {
    BaseGroup(second, x);
    LastEntryWins([first, second], 1, ToLower(second.countryCode));
  }

  /** Every list an entry produces has only the four routed types, and no duplicates. */
  lemma EntryListsWellFormed(e: GeoSite, name: string)
    requires name in EntryGroups(e)
    ensures KnownTypes(EntryGroups(e)[name])
    ensures NoDuplicates(EntryGroups(e)[name])
  {
    var code := ToLower(e.countryCode);
    EntryGroupNames(e, name);
    if name == code {
      BaseGroup(e, DomainItem(0, ""));
      UniqKnownTypes(ClassifyAll(e.domains));
    } else {
      var key :| KeyCarried(e.domains, key) && name == GroupName(code, key);
      AttributeGroup(e, key, DomainItem(0, ""));
      UniqKnownTypes(ClassifyAll(CollectAttributes(e.domains)[key]));
    }
  }

  /** Every list the regrouping produces has only the four routed types, and no duplicates. */
  lemma ParseListsWellFormed(entries: seq<GeoSite>, name: string)
    requires name in ParseSpec(entries)
    ensures KnownTypes(ParseSpec(entries)[name])
    ensures NoDuplicates(ParseSpec(entries)[name])
  {
    var ms := AllEntryGroups(entries);
    OverlaySource(ms, name);
    var j :| 0 <= j < |ms| && name in ms[j] && Overlay(ms)[name] == ms[j][name];
    EntryListsWellFormed(entries[j], name);
  }
}
