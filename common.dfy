/**
 Small helpers shared by the transcoder model: the Option and Result wrappers
 used for the source's `nil`/`error` returns, and `Uniq`, the first-occurrence
 deduplication that the program takes from its utility library.
 */
module Common {

  datatype Option<T> = None | Some(value: T)

  datatype Result<T, E> = Ok(value: T) | Err(error: E)

  /** True iff no element occurs twice in `s`. */
  ghost predicate NoDuplicates<T>(s: seq<T>) {
    forall i, j :: 0 <= i < j < |s| ==> s[i] != s[j]
  }

  /**
   Keeps the first occurrence of every element of `s`, in order, and drops
   the later copies. The result holds exactly the elements of `s`, each once.
   */
  function Uniq<T(==)>(s: seq<T>): (r: seq<T>)
    ensures NoDuplicates(r)
    ensures |r| <= |s|
    decreases |s|
  {
    if s == [] then []
    else
      var prefix := Uniq(s[..|s| - 1]);
      var last := s[|s| - 1];
      assert s == s[..|s| - 1] + [last];
      if last in prefix then prefix else prefix + [last]
  }

  /** Deduplication keeps exactly the elements that were there. */
  lemma {:induction false} UniqMembers<T>(s: seq<T>, x: T)
    ensures x in Uniq(s) <==> x in s
    decreases |s|
  {
    if s != [] {
      var prefix := s[..|s| - 1];
      UniqMembers(prefix, x);
      assert s == prefix + [s[|s| - 1]];
    }
  }

  /** A sequence that already has no duplicates is left as it is. */
  lemma {:induction false} UniqOfDistinct<T>(s: seq<T>)
    requires NoDuplicates(s)
    ensures Uniq(s) == s
    decreases |s|
  {
    if s != [] {
      var prefix := s[..|s| - 1];
      assert NoDuplicates(prefix);
      UniqOfDistinct(prefix);
      assert s == prefix + [s[|s| - 1]];
    }
  }

  /** Deduplicating twice changes nothing. */
  lemma UniqIdempotent<T>(s: seq<T>)
    ensures Uniq(Uniq(s)) == Uniq(s)
  {
    UniqOfDistinct(Uniq(s));
  }

  /**
   The maps of `ms` joined left to right: a key holds the value of the last
   map that has it.
   */
  function Overlay<K, V>(ms: seq<map<K, V>>): map<K, V>
    decreases |ms|
  {
    if ms == [] then map[] else Overlay(ms[..|ms| - 1]) + ms[|ms| - 1]
  }

  /** A key is in the overlay iff some map has it. */
  lemma {:induction false} OverlayKeys<K, V>(ms: seq<map<K, V>>, k: K)
    ensures k in Overlay(ms) <==> exists j :: 0 <= j < |ms| && k in ms[j]
    decreases |ms|
  {
    if ms != [] {
      var prefix := ms[..|ms| - 1];
      OverlayKeys(prefix, k);
      if exists j :: 0 <= j < |ms| && k in ms[j] {
        var j :| 0 <= j < |ms| && k in ms[j];
        if j < |prefix| {
          assert prefix[j] == ms[j];
        }
      }
      if k in Overlay(prefix) {
        var j :| 0 <= j < |prefix| && k in prefix[j];
        assert ms[j] == prefix[j];
      }
    }
  }

  /** A key holds the value of the last map that has it. */
  lemma {:induction false} OverlayLastWins<K, V>(ms: seq<map<K, V>>, j: nat, k: K)
    requires j < |ms| && k in ms[j]
    requires forall j' :: j < j' < |ms| ==> k !in ms[j']
    ensures k in Overlay(ms) && Overlay(ms)[k] == ms[j][k]
    decreases |ms|
  {
    if j < |ms| - 1 {
      var prefix := ms[..|ms| - 1];
      assert k !in ms[|ms| - 1];
      forall j' | j < j' < |prefix| ensures k !in prefix[j'] {
        assert prefix[j'] == ms[j'];
      }
      OverlayLastWins(prefix, j, k);
    }
  }

  /** Every key of the overlay takes its value from one of the maps. */
  lemma {:induction false} OverlaySource<K, V>(ms: seq<map<K, V>>, k: K)
    requires k in Overlay(ms)
    ensures exists j :: 0 <= j < |ms| && k in ms[j] && Overlay(ms)[k] == ms[j][k]
    decreases |ms|
  {
    var prefix := ms[..|ms| - 1];
    if k !in ms[|ms| - 1] {
      OverlaySource(prefix, k);
      var j :| 0 <= j < |prefix| && k in prefix[j] && Overlay(prefix)[k] == prefix[j][k];
      assert ms[j] == prefix[j];
    }
  }

  /** `f` applied to every element of `xs`, in order. */
  function MapSeq<A, B>(f: A -> B, xs: seq<A>): (r: seq<B>)
    ensures |r| == |xs|
    ensures forall j :: 0 <= j < |xs| ==> r[j] == f(xs[j])
    decreases |xs|
  {
    if xs == [] then [] else MapSeq(f, xs[..|xs| - 1]) + [f(xs[|xs| - 1])]
  }

  /** Mapping one more element appends its image. */
  lemma MapSeqSnoc<A, B>(f: A -> B, xs: seq<A>, n: nat)
    requires n < |xs|
    ensures MapSeq(f, xs[..n + 1]) == MapSeq(f, xs[..n]) + [f(xs[n])]
  {
    assert xs[..n + 1][..n] == xs[..n];
  }

  /** Overlaying one more map joins it on top. */
  lemma OverlaySnoc<K, V>(ms: seq<map<K, V>>, m: map<K, V>)
    ensures Overlay(ms + [m]) == Overlay(ms) + m
  {
    assert (ms + [m])[..|ms|] == ms;
  }

  /** `f` maps distinct arguments to distinct results. */
  ghost predicate Injective<K(!new), L>(f: K -> L) {
    forall k1, k2 :: f(k1) == f(k2) ==> k1 == k2
  }

  /** The map `m` with every key `k` renamed to `f(k)`. */
  function Rekey<K(==, !new), L(==), V>(f: K -> L, m: map<K, V>): map<L, V>
    requires Injective(f)
  {
    map k | k in m :: f(k) := m[k]
  }

  /** The renamed map has exactly the renamed keys, each with its old value. */
  lemma RekeyAt<K(!new), L, V>(f: K -> L, m: map<K, V>, name: L)
    requires Injective(f)
    ensures name in Rekey(f, m) <==> exists k :: k in m && name == f(k)
    ensures forall k :: k in m && name == f(k) ==> Rekey(f, m)[name] == m[k]
  {
  }

  /** Renaming commutes with adding one key. */
  lemma RekeyInsert<K(!new), L, V>(f: K -> L, m: map<K, V>, k: K, v: V)
    requires Injective(f)
    ensures Rekey(f, m[k := v]) == Rekey(f, m)[f(k) := v]
  {
    var lhs, rhs := Rekey(f, m[k := v]), Rekey(f, m)[f(k) := v];
    forall name | name in lhs ensures name in rhs && lhs[name] == rhs[name] {
      var k' :| k' in m[k := v] && name == f(k');
    }
    forall name | name in rhs ensures name in lhs {
      if name != f(k) {
        var k' :| k' in m && name == f(k');
      }
    }
  }

  /** Renaming the key of a one-key map. */
  lemma RekeySingleton<K(!new), L, V>(f: K -> L, k: K, v: V)
    requires Injective(f)
    ensures Rekey(f, map[k := v]) == map[f(k) := v]
  {
    var none: map<K, V> := map[];
    assert none[k := v] == map[k := v];
    RekeyInsert(f, none, k, v);
    assert Rekey(f, none) == map[];
  }

  /** Mapping over a one-element sequence. */
  lemma MapSeqSingle<A, B>(f: A -> B, x: A)
    ensures MapSeq(f, [x]) == [f(x)]
  {
  }

  /** Joining a single map gives that map. */
  lemma OverlaySingle<K, V>(m: map<K, V>)
    ensures Overlay([m]) == m
  {
    assert [m][..0] == [];
  }

  /** Joining a one-key map is an update at that key. */
  lemma JoinSingletonIsUpdate<K, V>(m: map<K, V>, k: K, v: V)
    ensures m + map[k := v] == m[k := v]
  {
  }

  /** Updating a join at one key updates its right operand. */
  lemma UpdateAfterJoin<K, V>(a: map<K, V>, b: map<K, V>, k: K, v: V)
    ensures (a + b)[k := v] == a + b[k := v]
  {
  }

  /** Updating a map at one key and then joining another map is one join of the two. */
  lemma JoinAfterUpdate<K, V>(a: map<K, V>, k: K, v: V, b: map<K, V>)
    ensures a[k := v] + b == a + (map[k := v] + b)
  {
  }
}
