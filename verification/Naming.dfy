/**
 Keys under their names: the order they are published in, and which listings an issuer
 takes. The naming is a parameter here; it is the thumbprint wherever it is used.
 */
module Naming {
  import opened Prelude

  type Key = seq<Byte>
  type Namer = Key -> string

  const PUBLIC_KEY_SIZE := 32

  // The order of the published document

  /** The order of Go strings. */
  predicate Before(a: string, b: string) {
    if |a| == 0 then |b| > 0
    else if |b| == 0 then false
    else if a[0] != b[0] then a[0] < b[0]
    else Before(a[1..], b[1..])
  }

  /** One text comes before another where they first differ, or by ending there. */
  predicate PartsAt(a: string, b: string, k: nat) {
    k <= |a| && k < |b| && a[..k] == b[..k] && (k == |a| || a[k] < b[k])
  }

  lemma {:induction false} BeforeIsLexicographic(a: string, b: string)
    ensures Before(a, b) <==> exists k: nat :: PartsAt(a, b, k)
  {
    if |a| == 0 && |b| > 0 {
      assert PartsAt(a, b, 0);
    } else if |a| > 0 && |b| > 0 {
      if a[0] < b[0] {
        assert PartsAt(a, b, 0);
      } else if a[0] == b[0] {
        BeforeIsLexicographic(a[1..], b[1..]);
        if k: nat :| PartsAt(a[1..], b[1..], k) {
          assert a[..k + 1] == [a[0]] + a[1..][..k] && b[..k + 1] == [b[0]] + b[1..][..k];
          assert PartsAt(a, b, k + 1);
        }
        if k: nat :| PartsAt(a, b, k) {
          assert k > 0 && a[1..][..k - 1] == a[..k][1..] && b[1..][..k - 1] == b[..k][1..];
          assert PartsAt(a[1..], b[1..], k - 1);
        }
      } else {
        forall k: nat | 0 < k <= |a| && k <= |b|
          ensures a[..k] != b[..k]
        {
          assert a[..k][0] == a[0] && b[..k][0] == b[0];
        }
      }
    }
  }

  lemma {:induction false} BeforeIsTotal(a: string, b: string)
    ensures a == b || Before(a, b) || Before(b, a)
    ensures Before(a, b) ==> a != b && !Before(b, a)
  {
    if |a| > 0 && |b| > 0 && a[0] == b[0] {
      BeforeIsTotal(a[1..], b[1..]);
      assert a == [a[0]] + a[1..] && b == [b[0]] + b[1..];
    }
  }

  lemma {:induction false} BeforeIsTransitive(a: string, b: string, c: string)
    requires !Before(b, a) && !Before(c, b)
    ensures !Before(c, a)
  {
    if |a| > 0 && |b| > 0 && |c| > 0 && a[0] == b[0] == c[0] {
      BeforeIsTransitive(a[1..], b[1..], c[1..]);
    }
  }

  predicate Sorted(name: Namer, keys: seq<Key>) {
    forall i, j :: 0 <= i < j < |keys| ==> !Before(name(keys[j]), name(keys[i]))
  }

  function Insert(name: Namer, k: Key, keys: seq<Key>): seq<Key> {
    if |keys| == 0 || !Before(name(keys[0]), name(k)) then [k] + keys
    else [keys[0]] + Insert(name, k, keys[1..])
  }

  function SortByName(name: Namer, keys: seq<Key>): seq<Key> {
    if |keys| == 0 then [] else Insert(name, keys[0], SortByName(name, keys[1..]))
  }

  lemma {:induction false} InsertPermutes(name: Namer, k: Key, keys: seq<Key>)
    ensures multiset(Insert(name, k, keys)) == multiset(keys) + multiset{k}
  {
    if |keys| > 0 {
      assert keys == [keys[0]] + keys[1..];
      InsertPermutes(name, k, keys[1..]);
    }
  }

  lemma {:induction false} InsertSorts(name: Namer, k: Key, keys: seq<Key>)
    requires Sorted(name, keys)
    ensures Sorted(name, Insert(name, k, keys))
  {
    var r := Insert(name, k, keys);
    if |keys| > 0 && Before(name(keys[0]), name(k)) {
      var rest := Insert(name, k, keys[1..]);
      InsertSorts(name, k, keys[1..]);
      InsertPermutes(name, k, keys[1..]);
      BeforeIsTotal(name(keys[0]), name(k));
      forall j | 0 <= j < |rest|
        ensures !Before(name(rest[j]), name(keys[0]))
      {
        assert rest[j] in multiset(rest);
      }
    } else if |keys| > 0 {
      forall j | 0 <= j < |keys|
        ensures !Before(name(keys[j]), name(k))
      {
        if j > 0 {
          BeforeIsTransitive(name(k), name(keys[0]), name(keys[j]));
        }
      }
    }
  }

  lemma {:induction false} SortByNameSorts(name: Namer, keys: seq<Key>)
    ensures Sorted(name, SortByName(name, keys)) && multiset(SortByName(name, keys)) == multiset(keys)
  {
    if |keys| > 0 {
      SortByNameSorts(name, keys[1..]);
      InsertSorts(name, keys[0], SortByName(name, keys[1..]));
      InsertPermutes(name, keys[0], SortByName(name, keys[1..]));
      assert keys == [keys[0]] + keys[1..];
    }
  }

  predicate DistinctNames(name: Namer, keys: seq<Key>) {
    forall i, j :: 0 <= i < j < |keys| ==> name(keys[i]) != name(keys[j])
  }

  function Names(name: Namer, keys: seq<Key>): set<string> {
    set k <- keys :: name(k)
  }

  lemma DistinctSplit(name: Namer, k: Key, rest: seq<Key>)
    ensures DistinctNames(name, [k] + rest) <==> DistinctNames(name, rest) && name(k) !in Names(name, rest)
  {
    var keys := [k] + rest;
    assert forall i :: 0 <= i < |rest| ==> keys[i + 1] == rest[i];
    if DistinctNames(name, keys) {
      forall i, j | 0 <= i < j < |rest|
        ensures name(rest[i]) != name(rest[j])
      {
        assert name(keys[i + 1]) != name(keys[j + 1]);
      }
    }
    if name(k) in Names(name, rest) {
      var i :| 0 <= i < |rest| && name(rest[i]) == name(k);
      assert name(keys[0]) == name(keys[i + 1]);
    }
  }

  /** Distinctness counted: it depends on which keys there are and not on their order. */
  lemma {:induction false} DistinctIsCounted(name: Namer, keys: seq<Key>)
    ensures |Names(name, keys)| <= |keys|
    ensures DistinctNames(name, keys) <==> |Names(name, keys)| == |keys|
  {
    if |keys| > 0 {
      var rest := keys[1..];
      DistinctIsCounted(name, rest);
      assert keys == [keys[0]] + rest;
      DistinctSplit(name, keys[0], rest);
      assert Names(name, keys) == Names(name, rest) + {name(keys[0])};
    }
  }

  lemma SameKeysSameDistinctness(name: Namer, a: seq<Key>, b: seq<Key>)
    requires multiset(a) == multiset(b)
    ensures Names(name, a) == Names(name, b) && |a| == |b|
    ensures DistinctNames(name, a) <==> DistinctNames(name, b)
  {
    assert |a| == |multiset(a)| == |b|;
    forall k
      ensures k in a <==> k in b
    {
      assert k in multiset(a) <==> k in multiset(b);
    }
    DistinctIsCounted(name, a);
    DistinctIsCounted(name, b);
  }

  lemma LeastIsFirst(name: Namer, a: seq<Key>, k: Key)
    requires Sorted(name, a) && k in a
    ensures !Before(name(k), name(a[0]))
  {
    var i :| 0 <= i < |a| && a[i] == k;
    BeforeIsTotal(name(k), name(a[0]));
  }

  /** Among these keys a name belongs to one key, however often that key is there. */
  predicate Telling(name: Namer, keys: seq<Key>) {
    forall i, j :: 0 <= i < |keys| && 0 <= j < |keys| && name(keys[i]) == name(keys[j]) ==> keys[i] == keys[j]
  }

  lemma HeadsAgree(name: Namer, a: seq<Key>, b: seq<Key>)
    requires |a| > 0 && |b| > 0 && Sorted(name, a) && Sorted(name, b) && Telling(name, a)
    requires b[0] in a && a[0] in b
    ensures a[0] == b[0]
  {
    LeastIsFirst(name, a, b[0]);
    LeastIsFirst(name, b, a[0]);
    BeforeIsTotal(name(a[0]), name(b[0]));
    var i :| 0 <= i < |a| && a[i] == b[0];
  }

  lemma TailOf(a: seq<Key>)
    requires |a| > 0
    ensures multiset(a[1..]) == multiset(a) - multiset{a[0]}
  {
    assert a == [a[0]] + a[1..];
  }

  lemma TailMultiset(a: seq<Key>, b: seq<Key>)
    requires |a| > 0 && |b| > 0 && multiset(a) == multiset(b)
    ensures b[0] in a && a[0] in b
    ensures a[0] == b[0] ==> multiset(a[1..]) == multiset(b[1..])
  {
    assert b[0] in multiset(a) && a[0] in multiset(b);
    TailOf(a);
    TailOf(b);
  }

  lemma TailKeeps(name: Namer, a: seq<Key>)
    requires |a| > 0 && Sorted(name, a)
    ensures Sorted(name, a[1..]) && (Telling(name, a) ==> Telling(name, a[1..]))
  {
  }

  /** Sorting keys has one result, whatever sort is used, when no two different keys share an identifier. */
  lemma {:induction false} SortIsUnique(name: Namer, a: seq<Key>, b: seq<Key>)
    requires Sorted(name, a) && Sorted(name, b) && multiset(a) == multiset(b) && Telling(name, a)
    ensures a == b
    decreases |a|
  {
    assert |a| == |multiset(a)| == |b|;
    if |a| > 0 {
      TailMultiset(a, b);
      HeadsAgree(name, a, b);
      TailKeeps(name, a);
      TailKeeps(name, b);
      SortIsUnique(name, a[1..], b[1..]);
      assert a == [a[0]] + a[1..] && b == [b[0]] + b[1..];
    }
  }

  /** What one listing of retired keys has to be for an issuer to take it. */
  predicate Listable(name: Namer, kid: string, keys: seq<Key>) {
    (forall k <- keys :: |k| == PUBLIC_KEY_SIZE) && DistinctNames(name, keys) && kid !in Names(name, keys)
  }

  function Flatten(listings: seq<seq<Key>>): seq<Key> {
    if |listings| == 0 then [] else Flatten(listings[..|listings| - 1]) + listings[|listings| - 1]
  }

  predicate AllListable(name: Namer, kid: string, listings: seq<seq<Key>>) {
    forall i :: 0 <= i < |listings| ==> Listable(name, kid, listings[i])
  }

  /** No key identifier is in two listings. */
  predicate ListingsDisjoint(name: Namer, listings: seq<seq<Key>>) {
    forall i, j :: 0 <= i < j < |listings| ==> Names(name, listings[i]) !! Names(name, listings[j])
  }

  lemma DistinctConcat(name: Namer, a: seq<Key>, b: seq<Key>)
    ensures Names(name, a + b) == Names(name, a) + Names(name, b)
    ensures DistinctNames(name, a + b) <==> DistinctNames(name, a) && DistinctNames(name, b) && Names(name, a) !! Names(name, b)
  {
    var u, v := Names(name, a), Names(name, b);
    assert Names(name, a + b) == u + v;
    DistinctIsCounted(name, a);
    DistinctIsCounted(name, b);
    DistinctIsCounted(name, a + b);
    assert |u + v| == |u| + |v| - |u * v|;
    assert u !! v <==> |u * v| == 0;
  }

  lemma {:induction false} NamesOfFlatten(name: Namer, listings: seq<seq<Key>>, kid: string)
    ensures kid in Names(name, Flatten(listings)) <==> exists i :: 0 <= i < |listings| && kid in Names(name, listings[i])
  {
    if |listings| > 0 {
      var n := |listings| - 1;
      NamesOfFlatten(name, listings[..n], kid);
      DistinctConcat(name, Flatten(listings[..n]), listings[n]);
      if i: int :| 0 <= i < |listings| && kid in Names(name, listings[i]) {
        assert i < n ==> listings[..n][i] == listings[i];
      }
    }
  }

  lemma {:induction false} FlattenDistinct(name: Namer, kid: string, listings: seq<seq<Key>>)
    requires AllListable(name, kid, listings)
    ensures DistinctNames(name, Flatten(listings)) <==> ListingsDisjoint(name, listings)
    ensures kid !in Names(name, Flatten(listings))
  {
    NamesOfFlatten(name, listings, kid);
    if |listings| > 0 {
      var n := |listings| - 1;
      var init := listings[..n];
      assert forall i :: 0 <= i < n ==> init[i] == listings[i];
      FlattenDistinct(name, kid, init);
      DistinctConcat(name, Flatten(init), listings[n]);
      LastListingApart(name, listings);
    }
  }

  lemma LastListingApart(name: Namer, listings: seq<seq<Key>>)
    requires |listings| > 0
    ensures var n := |listings| - 1;
            ListingsDisjoint(name, listings) <==>
            ListingsDisjoint(name, listings[..n]) && Names(name, Flatten(listings[..n])) !! Names(name, listings[n])
  {
    var n := |listings| - 1;
    var init := listings[..n];
    assert forall i :: 0 <= i < n ==> init[i] == listings[i];
    forall kid
      ensures kid in Names(name, Flatten(init)) <==> exists i :: 0 <= i < n && kid in Names(name, init[i])
    {
      NamesOfFlatten(name, init, kid);
    }
    if ListingsDisjoint(name, init) && Names(name, Flatten(init)) !! Names(name, listings[n]) {
      forall i, j | 0 <= i < j < |listings|
        ensures Names(name, listings[i]) !! Names(name, listings[j])
      {
        if j == n {
          assert Names(name, init[i]) <= Names(name, Flatten(init));
        } else {
          assert Names(name, init[i]) !! Names(name, init[j]);
        }
      }
    }
    if ListingsDisjoint(name, listings) {
      assert forall i :: 0 <= i < n ==> Names(name, init[i]) !! Names(name, listings[n]);
    }
  }

  /** The identifiers met before key n, the signing key's included. */
  function Seen(name: Namer, kid: string, keys: seq<Key>, n: nat): set<string>
    requires n <= |keys|
  {
    {kid} + Names(name, keys[..n])
  }

  lemma ListableSplit(name: Namer, kid: string, a: seq<Key>, b: seq<Key>)
    ensures Names(name, a + b) == Names(name, a) + Names(name, b)
    ensures Listable(name, kid, a + b) <==> Listable(name, kid, a) && Listable(name, kid, b) && Names(name, a) !! Names(name, b)
  {
    DistinctConcat(name, a, b);
    assert forall k :: k in a + b <==> k in a || k in b;
  }

  lemma OneListed(name: Namer, kid: string, k: Key)
    ensures Names(name, [k]) == {name(k)}
    ensures Listable(name, kid, [k]) <==> |k| == PUBLIC_KEY_SIZE && name(k) != kid
  {
    assert Names(name, [k]) == {name(k)} && k in [k];
  }

  lemma ListedStep(name: Namer, kid: string, a: seq<Key>, k: Key, rest: seq<Key>)
    requires Listable(name, kid, a)
    ensures var isNew := |k| == PUBLIC_KEY_SIZE && name(k) !in {kid} + Names(name, a);
            if isNew then Listable(name, kid, a + [k]) else !Listable(name, kid, a + [k] + rest)
    ensures Names(name, a + [k]) == Names(name, a) + {name(k)}
  {
    ListableSplit(name, kid, a, [k]);
    ListableSplit(name, kid, a + [k], rest);
    OneListed(name, kid, k);
  }

  lemma NextListed(name: Namer, kid: string, keys: seq<Key>, n: nat)
    requires n < |keys| && Listable(name, kid, keys[..n])
    ensures var isNew := |keys[n]| == PUBLIC_KEY_SIZE && name(keys[n]) !in Seen(name, kid, keys, n);
            if isNew then Listable(name, kid, keys[..n + 1]) else !Listable(name, kid, keys)
    ensures Seen(name, kid, keys, n + 1) == Seen(name, kid, keys, n) + {name(keys[n])}
  {
    ListedStep(name, kid, keys[..n], keys[n], keys[n + 1..]);
    assert keys[..n + 1] == keys[..n] + [keys[n]];
    assert keys == keys[..n] + [keys[n]] + keys[n + 1..];
  }

  /** Two listings that are each in order stay publishable when put together and sorted. */
  lemma SortKeepsListing(name: Namer, kid: string, before: seq<Key>, keys: seq<Key>)
    requires (forall k <- before :: |k| == PUBLIC_KEY_SIZE) && kid !in Names(name, before) && Listable(name, kid, keys)
    ensures var r := SortByName(name, before + keys);
            Sorted(name, r) && multiset(r) == multiset(before + keys) && kid !in Names(name, r) &&
            forall k <- r :: |k| == PUBLIC_KEY_SIZE
  {
    var r := SortByName(name, before + keys);
    SortByNameSorts(name, before + keys);
    forall k | k in r
      ensures |k| == PUBLIC_KEY_SIZE && name(k) != kid
    {
      assert k in multiset(r);
      assert k in before || k in keys;
      assert k in before ==> name(k) in Names(name, before);
      assert k in keys ==> name(k) in Names(name, keys);
    }
  }

  lemma NextListing(name: Namer, kid: string, listings: seq<seq<Key>>, n: nat)
    requires n < |listings|
    ensures AllListable(name, kid, listings[..n]) && Listable(name, kid, listings[n]) ==> AllListable(name, kid, listings[..n + 1])
    ensures AllListable(name, kid, listings) ==> Listable(name, kid, listings[n])
    ensures Flatten(listings[..n + 1]) == Flatten(listings[..n]) + listings[n]
  {
    assert listings[..n + 1][..n] == listings[..n];
  }

  lemma AddedKeys(a: seq<Key>, b: seq<Key>, more: seq<Key>)
    requires multiset(a) == multiset(b)
    ensures multiset(a + more) == multiset(b + more)
  {
  }

  /** The key set has a key for every name among the given keys, one of those that go by it. */
  predicate Keeps(name: Namer, keys: map<string, Key>, published: seq<Key>) {
    keys.Keys == Names(name, published) && forall kid <- keys :: keys[kid] in published && name(keys[kid]) == kid
  }

  lemma KeepsOneMore(name: Namer, keys: map<string, Key>, published: seq<Key>, k: Key)
    requires Keeps(name, keys, published)
    ensures Keeps(name, keys[name(k) := k], published + [k])
  {
    DistinctConcat(name, published, [k]);
    assert Names(name, [k]) == {name(k)};
  }

  /**
   Published identifiers are distinct exactly when no two listings share a key: each
   listing is checked against itself and the signing key, and not against the others.
   */
  lemma PublishedKidsDistinct(name: Namer, pub: Key, listings: seq<seq<Key>>, retired: seq<Key>)
    requires AllListable(name, name(pub), listings) && multiset(retired) == multiset(Flatten(listings))
    ensures DistinctNames(name, [pub] + retired) <==> ListingsDisjoint(name, listings)
    ensures |listings| <= 1 ==> DistinctNames(name, [pub] + retired)
  {
    FlattenDistinct(name, name(pub), listings);
    SameKeysSameDistinctness(name, retired, Flatten(listings));
    DistinctSplit(name, pub, retired);
  }

  /** The check does miss one: the same key in two listings is accepted, and published twice. */
  lemma ListedTwiceIsPublishedTwice(name: Namer, pub: Key, k: Key)
    requires |k| == PUBLIC_KEY_SIZE && name(k) != name(pub)
    ensures AllListable(name, name(pub), [[k], [k]])
    ensures !DistinctNames(name, [pub] + SortByName(name, Flatten([[k], [k]])))
  {
    var listings := [[k], [k]];
    assert forall i :: 0 <= i < 2 ==> listings[i] == [k];
    OneListed(name, name(pub), k);
    assert name(k) in Names(name, listings[0]) && name(k) in Names(name, listings[1]);
    SortByNameSorts(name, Flatten(listings));
    PublishedKidsDistinct(name, pub, listings, SortByName(name, Flatten(listings)));
  }
}
