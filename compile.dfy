/**
 Compilation of one group's item list into the four string lists of a
 rule: exact domains (type 0), keywords (type 1), regular expressions
 (type 2) and domain suffixes (type 3). Each list keeps the input order;
 items of any other type go to no list.
 */
module Compile {
  import opened Geosite

  /** The values of the items of type `t`, in input order. */
  function Values(items: seq<DomainItem>, t: int): (r: seq<string>)
    ensures |r| <= |items|
    decreases |items|
  {
    if items == [] then []
    else
      var last := items[|items| - 1];
      Values(items[..|items| - 1], t) + (if last.itemType == t then [last.value] else [])
  }

  /**
   `compile`: one pass over the items appends each value to the list of its
   type. The out-parameters follow the source's result order.
   */
  method Compile(items: seq<DomainItem>)
    returns (domain: seq<string>, domainSuffix: seq<string>, domainKeyword: seq<string>, domainRegex: seq<string>)
    ensures domain == Values(items, 0)
    ensures domainKeyword == Values(items, 1)
    ensures domainRegex == Values(items, 2)
    ensures domainSuffix == Values(items, 3)
  {
    domain, domainSuffix, domainKeyword, domainRegex := [], [], [], [];
    for i := 0 to |items|
      invariant domain == Values(items[..i], 0)
      invariant domainKeyword == Values(items[..i], 1)
      invariant domainRegex == Values(items[..i], 2)
      invariant domainSuffix == Values(items[..i], 3)
    {
      var item := items[i];
      assert items[..i + 1][..i] == items[..i];
      if item.itemType == 0 {
        domain := domain + [item.value];
      } else if item.itemType == 1 {
        domainKeyword := domainKeyword + [item.value];
      } else if item.itemType == 2 {
        domainRegex := domainRegex + [item.value];
      } else if item.itemType == 3 {
        domainSuffix := domainSuffix + [item.value];
      }
    }
    assert items[..|items|] == items;
  }

  /** Filtering by type works item by item: the list of a concatenation is the concatenation of the lists. */
  lemma {:induction false} ValuesAppend(a: seq<DomainItem>, b: seq<DomainItem>, t: int)
    ensures Values(a + b, t) == Values(a, t) + Values(b, t)
    decreases |b|
  {
    if b == [] {
      assert a + b == a;
    } else {
      var b' := b[..|b| - 1];
      assert (a + b)[..|a + b| - 1] == a + b';
      ValuesAppend(a, b', t);
    }
  }

  /** A value is in the list of type `t` iff the item `(t, value)` is in the input. */
  lemma {:induction false} ValuesMembers(items: seq<DomainItem>, t: int, v: string)
    ensures v in Values(items, t) <==> DomainItem(t, v) in items
    decreases |items|
  {
    if items != [] {
      var prefix := items[..|items| - 1];
      ValuesMembers(prefix, t, v);
      assert items == prefix + [items[|items| - 1]];
    }
  }

  /** An item of a type outside 0..3 adds nothing to any of the four lists. */
  lemma UnknownTypeIgnored(items: seq<DomainItem>, x: DomainItem, t: int)
    requires !(0 <= x.itemType <= 3) && 0 <= t <= 3
    ensures Values(items + [x], t) == Values(items, t)
  {
    ValuesSnoc(items, x, t);
    assert Values(items, t) + [] == Values(items, t);
  }

  /** The lists of `items + [x]`: `x`'s value is appended to the list of its own type only. */
  lemma ValuesSnoc(items: seq<DomainItem>, x: DomainItem, t: int)
    ensures Values(items + [x], t) == Values(items, t) + (if x.itemType == t then [x.value] else [])
  {
    assert (items + [x])[..|items|] == items;
  }

  /**
   Compiling preserves the multiset of items: a value occurs in the list of
   type `t` exactly as often as the item `(t, value)` occurs in the input.
   */
  lemma {:induction false} CompileCounts(items: seq<DomainItem>, t: int, v: string)
    ensures multiset(Values(items, t))[v] == multiset(items)[DomainItem(t, v)]
    decreases |items|
  {
    if items != [] {
      var prefix := items[..|items| - 1];
      var x := items[|items| - 1];
      assert items == prefix + [x];
      CompileCounts(prefix, t, v);
      ValuesSnoc(prefix, x, t);
    }
  }

  /**
   When every item has one of the four types, the four lists' lengths add up
   to the input length: no item is lost or duplicated.
   */
  lemma {:induction false} CompileLengths(items: seq<DomainItem>)
    requires KnownTypes(items)
    ensures |Values(items, 0)| + |Values(items, 1)| + |Values(items, 2)| + |Values(items, 3)| == |items|
    decreases |items|
  {
    if items != [] {
      var prefix := items[..|items| - 1];
      var x := items[|items| - 1];
      assert items == prefix + [x];
      assert KnownTypes(prefix) by {
        forall i | 0 <= i < |prefix| ensures 0 <= prefix[i].itemType <= 3 {
          assert prefix[i] == items[i];
        }
      }
      assert 0 <= x.itemType <= 3;
      CompileLengths(prefix);
      ValuesSnoc(prefix, x, 0);
      ValuesSnoc(prefix, x, 1);
      ValuesSnoc(prefix, x, 2);
      ValuesSnoc(prefix, x, 3);
    }
  }
}
