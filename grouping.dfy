/**
 * Grouping episodes by season and chapters by volume, as the content detail
 * screen and the episode/chapter picker do: items are pushed into a plain
 * object keyed by `season || 1` (or `volume || 1`), and the groups are then
 * listed in `Object.keys` order.
 */
module Grouping {
  import opened Wrappers
  import opened Seqs

  /** An episode or a chapter, with the fields the grouping and the picker use. */
  datatype Installment = Installment(
    id: string,
    number: int,
    title: string,
    season: Option<int>,
    volume: Option<int>)

  datatype GroupBy = BySeason | ByVolume

  /** `ep.season || 1` or `ch.volume || 1`: a missing or zero number counts as 1. */
  function KeyOf(field: GroupBy, x: Installment): (k: int)
    ensures k != 0
    ensures var n := if field.BySeason? then x.season else x.volume;
            (n.Some? && n.value != 0 ==> k == n.value) && (n.None? || n.value == 0 ==> k == 1)
  {
    var n := if field.BySeason? then x.season else x.volume;
    if n.Some? && n.value != 0 then n.value else 1
  }

  predicate HasKey(items: seq<Installment>, field: GroupBy, k: int) {
    exists x :: x in items && KeyOf(field, x) == k
  }

  predicate Distinct(s: seq<int>) {
    forall i, j :: 0 <= i < j < |s| ==> s[i] != s[j]
  }

  /** The keys in the order they are first met, which is the order the properties are created in. */
  function FirstSeen(items: seq<Installment>, field: GroupBy): (r: seq<int>)
    ensures Distinct(r)
    ensures forall k :: k in r <==> HasKey(items, field, k)
    decreases |items|
  {
    if items == [] then []
    else
      var n := |items| - 1;
      var p := FirstSeen(items[..n], field);
      var k := KeyOf(field, items[n]);
      assert items == items[..n] + [items[n]];
      if k in p then p else p + [k]
  }

  /** Property names that are array indices: the integers 0 to 2^32 - 2. */
  predicate IsArrayIndex(k: int) {
    0 <= k < 0xFFFF_FFFF
  }

  predicate OtherKey(k: int) {
    !IsArrayIndex(k)
  }

  predicate StrictlyAscending(s: seq<int>) {
    forall i, j :: 0 <= i < j < |s| ==> s[i] < s[j]
  }

  function InsertAscending(x: int, s: seq<int>): (r: seq<int>)
    requires StrictlyAscending(s) && x !in s
    ensures StrictlyAscending(r) && |r| == |s| + 1
    ensures forall k :: k in r <==> k == x || k in s
  {
    if s == [] then [x]
    else if x < s[0] then [x] + s
    else
      assert x != s[0] && s[0] < x;
      forall k | k in s[1..] ensures s[0] < k {
        var i :| 0 <= i < |s[1..]| && s[1..][i] == k;
        assert s[i + 1] == k;
      }
      var rest := InsertAscending(x, s[1..]);
      var r := [s[0]] + rest;
      forall i, j | 0 <= i < j < |r| ensures r[i] < r[j] {
        assert r[j] == rest[j - 1] && rest[j - 1] in rest;
        if i > 0 {
          assert r[i] == rest[i - 1];
        }
      }
      assert s == [s[0]] + s[1..];
      r
  }

  function SortAscending(s: seq<int>): (r: seq<int>)
    requires Distinct(s)
    ensures StrictlyAscending(r) && |r| == |s|
    ensures forall k :: k in r <==> k in s
  {
    if s == [] then []
    else
      assert Distinct(s[1..]) by {
        forall i, j | 0 <= i < j < |s[1..]| ensures s[1..][i] != s[1..][j] {
          assert s[1..][i] == s[i + 1] && s[1..][j] == s[j + 1];
        }
      }
      assert s[0] !in s[1..];
      assert s == [s[0]] + s[1..];
      InsertAscending(s[0], SortAscending(s[1..]))
  }

  lemma FilterNone<T(!new)>(s: seq<T>, p: T -> bool)
    requires forall x :: x in s ==> !p(x)
    ensures Filter(s, p) == []
  {
  }

  lemma {:induction false} FilterDistinct(s: seq<int>, p: int -> bool)
    requires Distinct(s)
    ensures Distinct(Filter(s, p))
    decreases |s|
  {
    if s != [] {
      assert Distinct(s[1..]) by {
        forall i, j | 0 <= i < j < |s[1..]| ensures s[1..][i] != s[1..][j] {
          assert s[1..][i] == s[i + 1] && s[1..][j] == s[j + 1];
        }
      }
      FilterDistinct(s[1..], p);
      assert s[0] !in s[1..];
      assert s == [s[0]] + s[1..];
    }
  }

  /**
   * `Object.keys` order for integer-named properties: the array-index names in
   * ascending numeric order, then every other name in creation order.
   */
  function ObjectKeyOrder(seen: seq<int>): (r: seq<int>)
    requires Distinct(seen)
    ensures |r| == |seen| && Distinct(r)
    ensures forall k :: k in r <==> k in seen
    ensures forall i, j :: 0 <= i < j < |r| && IsArrayIndex(r[j]) ==> IsArrayIndex(r[i]) && r[i] < r[j]
    ensures IsSubsequence(Filter(r, OtherKey), seen)
  {
    var indices := Filter(seen, IsArrayIndex);
    var others := Filter(seen, OtherKey);
    FilterDistinct(seen, OtherKey);
    FilterDistinct(seen, IsArrayIndex);
    PartitionLength(seen);
    var sorted := SortAscending(indices);
    IndicesThenOthers(sorted, others);
    OthersOfConcat(sorted, others);
    sorted + others
  }

  /** Ascending index names followed by distinct other names form a distinct, correctly ordered list. */
  lemma IndicesThenOthers(sorted: seq<int>, others: seq<int>)
    requires StrictlyAscending(sorted) && Distinct(others)
    requires forall k :: k in sorted ==> IsArrayIndex(k)
    requires forall k :: k in others ==> OtherKey(k)
    ensures Distinct(sorted + others)
    ensures var r := sorted + others;
            forall i, j :: 0 <= i < j < |r| && IsArrayIndex(r[j]) ==> IsArrayIndex(r[i]) && r[i] < r[j]
  {
    var r := sorted + others;
    assert forall i :: 0 <= i < |sorted| ==> r[i] == sorted[i] && sorted[i] in sorted;
    assert forall i :: |sorted| <= i < |r| ==> r[i] == others[i - |sorted|] && others[i - |sorted|] in others;
  }

  lemma OthersOfConcat(sorted: seq<int>, others: seq<int>)
    requires forall k :: k in sorted ==> IsArrayIndex(k)
    requires forall k :: k in others ==> OtherKey(k)
    ensures Filter(sorted + others, OtherKey) == others
  {
    FilterAppend(sorted, others, OtherKey);
    FilterNone(sorted, OtherKey);
    FilterAll(others, OtherKey);
  }

  /** Every name is either an array index or not, so the two filters split the list. */
  lemma {:induction false} PartitionLength(s: seq<int>)
    ensures |Filter(s, IsArrayIndex)| + |Filter(s, OtherKey)| == |s|
  {
    if s != [] {
      PartitionLength(s[1..]);
      assert s == [s[0]] + s[1..];
    }
  }

  /** The items pushed into the group named `k`, in push order. */
  function Members(items: seq<Installment>, field: GroupBy, k: int): (r: seq<Installment>)
    ensures IsSubsequence(r, items)
    ensures forall x :: x in r <==> x in items && KeyOf(field, x) == k
  {
    Filter(items, (x: Installment) => KeyOf(field, x) == k)
  }

  lemma MembersSnoc(items: seq<Installment>, field: GroupBy, k: int, i: nat)
    requires i < |items|
    ensures Members(items[..i + 1], field, k) ==
            Members(items[..i], field, k) + if KeyOf(field, items[i]) == k then [items[i]] else []
  {
    assert items[..i + 1] == items[..i] + [items[i]];
    FilterAppend(items[..i], [items[i]], (x: Installment) => KeyOf(field, x) == k);
  }

  /** One listed group: its property name and the items pushed into it. */
  datatype Section = Section(key: int, items: seq<Installment>)

  /**
   * The groups as listed: one per distinct key, in `Object.keys` order, each
   * holding exactly the items with that key, in their original order.
   */
  function GroupSpec(items: seq<Installment>, field: GroupBy): (r: seq<Section>)
    ensures forall k :: (exists j :: 0 <= j < |r| && r[j].key == k) <==> HasKey(items, field, k)
    ensures forall i, j :: 0 <= i < j < |r| ==> r[i].key != r[j].key
    ensures forall i, j :: 0 <= i < j < |r| && IsArrayIndex(r[j].key) ==>
              IsArrayIndex(r[i].key) && r[i].key < r[j].key
    ensures forall j :: 0 <= j < |r| ==> IsSubsequence(r[j].items, items) && r[j].items != []
    ensures forall j, x :: 0 <= j < |r| ==> (x in r[j].items <==> x in items && KeyOf(field, x) == r[j].key)
  {
    var keys := ObjectKeyOrder(FirstSeen(items, field));
    var r := SectionsFor(items, field, keys);
    SectionKeys(r, keys);
    forall j | 0 <= j < |r| ensures r[j].items != [] {
      assert keys[j] in keys;
      MembersNonEmpty(items, field, keys[j]);
    }
    r
  }

  /** One section per listed key, holding that key's members. */
  function SectionsFor(items: seq<Installment>, field: GroupBy, keys: seq<int>): (r: seq<Section>)
    ensures |r| == |keys|
    ensures forall j :: 0 <= j < |r| ==> r[j] == Section(keys[j], Members(items, field, keys[j]))
  {
    seq(|keys|, j requires 0 <= j < |keys| => Section(keys[j], Members(items, field, keys[j])))
  }

  lemma SectionKeys(r: seq<Section>, keys: seq<int>)
    requires |r| == |keys| && forall j :: 0 <= j < |r| ==> r[j].key == keys[j]
    ensures forall k :: (exists j :: 0 <= j < |r| && r[j].key == k) <==> k in keys
  {
    forall k | k in keys ensures exists j :: 0 <= j < |r| && r[j].key == k {
      var j :| 0 <= j < |keys| && keys[j] == k;
      assert r[j].key == k;
    }
  }

  lemma MembersNonEmpty(items: seq<Installment>, field: GroupBy, k: int)
    requires HasKey(items, field, k)
    ensures Members(items, field, k) != []
  {
    var x :| x in items && KeyOf(field, x) == k;
    assert x in Members(items, field, k);
  }

  /** Each copy of an item lands in the group of its own key, and in no other. */
  lemma GroupCounts(items: seq<Installment>, field: GroupBy, j: nat, x: Installment)
    requires j < |GroupSpec(items, field)|
    ensures var s := GroupSpec(items, field)[j];
            multiset(s.items)[x] == if KeyOf(field, x) == s.key then multiset(items)[x] else 0
  {
    var s := GroupSpec(items, field)[j];
    FilterCounts(items, (y: Installment) => KeyOf(field, y) == s.key, x);
  }

  /** Each item belongs to exactly one group. */
  lemma ExactlyOneGroup(items: seq<Installment>, field: GroupBy, x: Installment)
    requires x in items
    ensures var r := GroupSpec(items, field);
            exists j :: 0 <= j < |r| && x in r[j].items &&
              forall j' :: 0 <= j' < |r| && x in r[j'].items ==> j' == j
  {
    var r := GroupSpec(items, field);
    assert HasKey(items, field, KeyOf(field, x));
    var j :| 0 <= j < |r| && r[j].key == KeyOf(field, x);
    assert x in r[j].items;
  }

  lemma FirstSeenSnoc(items: seq<Installment>, field: GroupBy, i: nat)
    requires i < |items|
    ensures var p := FirstSeen(items[..i], field);
            var k := KeyOf(field, items[i]);
            FirstSeen(items[..i + 1], field) == if k in p then p else p + [k]
  {
    assert items[..i + 1][..i] == items[..i];
  }

  lemma MembersOfNewKey(items: seq<Installment>, field: GroupBy, k: int)
    requires !HasKey(items, field, k)
    ensures Members(items, field, k) == []
  {
    FilterNone(items, (x: Installment) => KeyOf(field, x) == k);
  }

  /** One pass of the object-building loop keeps the loop's invariant. */
  lemma GroupStep(items: seq<Installment>, field: GroupBy, i: nat,
                  grouped: map<int, seq<Installment>>, order: seq<int>)
    requires i < |items|
    requires order == FirstSeen(items[..i], field)
    requires forall k :: k in grouped <==> k in order
    requires forall k :: k in grouped ==> grouped[k] == Members(items[..i], field, k)
    ensures var k := KeyOf(field, items[i]);
            var g1 := if k in grouped then grouped else grouped[k := []];
            var g2 := g1[k := g1[k] + [items[i]]];
            var order2 := if k in grouped then order else order + [k];
            order2 == FirstSeen(items[..i + 1], field) &&
            (forall k' :: k' in g2 <==> k' in order2) &&
            (forall k' :: k' in g2 ==> g2[k'] == Members(items[..i + 1], field, k'))
  {
    var k := KeyOf(field, items[i]);
    FirstSeenSnoc(items, field, i);
    var g1 := if k in grouped then grouped else grouped[k := []];
    if k !in grouped {
      MembersOfNewKey(items[..i], field, k);
    }
    assert forall k' :: k' in g1 ==> g1[k'] == Members(items[..i], field, k');
    var g2 := g1[k := g1[k] + [items[i]]];
    forall k' | k' in g2 ensures g2[k'] == Members(items[..i + 1], field, k') {
      MembersSnoc(items, field, k', i);
    }
  }

  /**
   * The object-building loop: push each item onto the array under its key,
   * creating the array the first time the key is met, then list the arrays
   * by `Object.keys`.
   */
  method GroupItems(items: seq<Installment>, field: GroupBy) returns (sections: seq<Section>)
    ensures sections == GroupSpec(items, field)
  {
    var grouped: map<int, seq<Installment>> := map[];
    var order: seq<int> := [];
    for i := 0 to |items|
      invariant order == FirstSeen(items[..i], field)
      invariant forall k :: k in grouped <==> k in order
      invariant forall k :: k in grouped ==> grouped[k] == Members(items[..i], field, k)
    {
      GroupStep(items, field, i, grouped, order);
      var k := KeyOf(field, items[i]);
      if k !in grouped {
        grouped := grouped[k := []];
        order := order + [k];
      }
      grouped := grouped[k := grouped[k] + [items[i]]];
    }
    assert items[..|items|] == items;
    sections := ListGroups(items, field, grouped, order);
  }

  /** `Object.keys(grouped).map(...)`: the filled arrays in property order. */
  method ListGroups(items: seq<Installment>, field: GroupBy,
                    grouped: map<int, seq<Installment>>, order: seq<int>) returns (sections: seq<Section>)
    requires order == FirstSeen(items, field)
    requires forall k :: k in grouped <==> k in order
    requires forall k :: k in grouped ==> grouped[k] == Members(items, field, k)
    ensures sections == GroupSpec(items, field)
  {
    var keys := ObjectKeyOrder(order);
    assert forall j :: 0 <= j < |keys| ==> keys[j] in keys;
    ListedAreSpec(items, field, grouped, keys);
    sections := ListedSections(grouped, keys);
    GroupSpecUnfold(items, field);
  }

  /** `Object.keys(grouped).map((k) => ({ key: k, items: grouped[k] }))` for given keys. */
  function ListedSections(grouped: map<int, seq<Installment>>, keys: seq<int>): (r: seq<Section>)
    requires forall j :: 0 <= j < |keys| ==> keys[j] in grouped
    ensures |r| == |keys|
    ensures forall j :: 0 <= j < |r| ==> r[j] == Section(keys[j], grouped[keys[j]])
  {
    seq(|keys|, j requires 0 <= j < |keys| => Section(keys[j], grouped[keys[j]]))
  }

  /** Listing a dictionary that holds each key's members gives the sections of those keys. */
  lemma ListedAreSpec(items: seq<Installment>, field: GroupBy, grouped: map<int, seq<Installment>>, keys: seq<int>)
    requires forall j :: 0 <= j < |keys| ==> keys[j] in grouped && grouped[keys[j]] == Members(items, field, keys[j])
    ensures ListedSections(grouped, keys) == SectionsFor(items, field, keys)
  {
    var l := ListedSections(grouped, keys);
    var s := SectionsFor(items, field, keys);
    assert forall j | 0 <= j < |keys| :: l[j] == s[j];
  }

  /** The definition of GroupSpec, as one equation. */
  lemma GroupSpecUnfold(items: seq<Installment>, field: GroupBy)
    ensures GroupSpec(items, field) == SectionsFor(items, field, ObjectKeyOrder(FirstSeen(items, field)))
  {
  }
}
