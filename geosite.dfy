/**
 The decoded geosite database and the classification of its domain records.

 A `GeoSite` is one category entry of the database (a country or service code
 with its domain records). Each `Domain` record has a match type, a value and
 attribute tags. Classification turns a record into a `DomainItem`, whose
 integer type selects the rule-set list that will hold its value.
 */
module Geosite {
  import opened Common

  /**
   The match type of a domain record as the binary schema encodes it. The
   schema's enumeration has four values, with tags 0 (Plain), 1 (Regex),
   2 (RootDomain) and 3 (Full); `Other` stands for any other tag value the
   decoder lets through.
   */
  datatype DomainType = Plain | Regex | RootDomain | Full | Other(tag: UnknownTag)

  /** A wire tag of the match type that is none of the four enumerated ones. */
  type UnknownTag = t: int | t < 0 || 3 < t witness 4

  /** An attribute tag. Its typed value is not used by the transcoder, so only the key is kept. */
  datatype Attribute = Attribute(key: string)

  /** One domain record of a category entry. */
  datatype Domain = Domain(kind: DomainType, value: string, attributes: seq<Attribute>)

  /** One category entry of the database. */
  datatype GeoSite = GeoSite(countryCode: string, domains: seq<Domain>)

  /**
   A classified item: type 0 is an exact domain, 1 a keyword, 2 a regular
   expression and 3 a domain suffix.
   */
  datatype DomainItem = DomainItem(itemType: int, value: string)

  /** True iff every item has one of the four types the compiler routes. */
  predicate KnownTypes(items: seq<DomainItem>) {
    forall i :: 0 <= i < |items| ==> 0 <= items[i].itemType <= 3
  }

  /**
   The classification of one record: Full becomes type 0, Plain type 1,
   Regex type 2 and RootDomain type 3; any other type yields no item.
   */
  function Classify(d: Domain): (r: Option<DomainItem>)
    ensures r.Some? <==> !d.kind.Other?
    ensures r.Some? ==> r.value.value == d.value && 0 <= r.value.itemType <= 3
  {
    match d.kind
    case Plain => Some(DomainItem(1, d.value))
    case Regex => Some(DomainItem(2, d.value))
    case RootDomain => Some(DomainItem(3, d.value))
    case Full => Some(DomainItem(0, d.value))
    case Other(_) => None
  }

  /** Distinct recognised match types are classified into distinct item types. */
  lemma ClassifyInjective(d1: Domain, d2: Domain)
    requires Classify(d1).Some? && Classify(d2).Some?
    ensures Classify(d1).value.itemType == Classify(d2).value.itemType <==> d1.kind == d2.kind
  {
  }

  /** The items of the recognised records of `ds`, in record order. */
  function ClassifyAll(ds: seq<Domain>): (r: seq<DomainItem>)
    ensures KnownTypes(r)
    ensures |r| <= |ds|
    decreases |ds|
  {
    if ds == [] then []
    else
      var prefix := ClassifyAll(ds[..|ds| - 1]);
      match Classify(ds[|ds| - 1])
      case Some(x) => prefix + [x]
      case None => prefix
  }

  /** Deduplication keeps only items that were there, so it keeps the types known. */
  lemma UniqKnownTypes(items: seq<DomainItem>)
    requires KnownTypes(items)
    ensures KnownTypes(Uniq(items))
  {
    var r := Uniq(items);
    forall i | 0 <= i < |r| ensures 0 <= r[i].itemType <= 3 {
      UniqMembers(items, r[i]);
      var j :| 0 <= j < |items| && items[j] == r[i];
    }
  }

  /** An item is classified from `ds` iff some record of `ds` classifies to it. */
  lemma {:induction false} ClassifyAllMembers(ds: seq<Domain>, x: DomainItem)
    ensures x in ClassifyAll(ds) <==> exists i :: 0 <= i < |ds| && Classify(ds[i]) == Some(x)
    decreases |ds|
  {
    if ds != [] {
      var prefix := ds[..|ds| - 1];
      ClassifyAllMembers(prefix, x);
      if x in ClassifyAll(ds) && x !in ClassifyAll(prefix) {
        assert Classify(ds[|ds| - 1]) == Some(x);
      }
      if exists i :: 0 <= i < |ds| && Classify(ds[i]) == Some(x) {
        var i :| 0 <= i < |ds| && Classify(ds[i]) == Some(x);
        if i < |ds| - 1 {
          assert prefix[i] == ds[i];
        }
      }
    }
  }

  /** Classification distributes over concatenation: it filters record by record. */
  lemma {:induction false} ClassifyAllAppend(a: seq<Domain>, b: seq<Domain>)
    ensures ClassifyAll(a + b) == ClassifyAll(a) + ClassifyAll(b)
    decreases |b|
  {
    if b != [] {
      var b' := b[..|b| - 1];
      assert (a + b)[..|a + b| - 1] == a + b';
      ClassifyAllAppend(a, b');
    } else {
      assert a + b == a;
    }
  }

  /** The ASCII lower-case form of one character. */
  function LowerChar(c: char): char {
    if 'A' <= c <= 'Z' then (c as int - 'A' as int + 'a' as int) as char else c
  }

  /**
   The code normalisation applied to every country code: ASCII capitals
   become small letters, every other character is kept.
   */
  function ToLower(s: string): (r: string)
    ensures |r| == |s|
    ensures forall i :: 0 <= i < |s| ==> !('A' <= r[i] <= 'Z')
    ensures forall i :: 0 <= i < |s| && !('A' <= s[i] <= 'Z') ==> r[i] == s[i]
    ensures forall i :: 0 <= i < |s| && 'A' <= s[i] <= 'Z' ==> r[i] == (s[i] as int + 32) as char
  {
    seq(|s|, i requires 0 <= i < |s| => LowerChar(s[i]))
  }
}
