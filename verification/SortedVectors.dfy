/** A map kept as a vector of entries sorted by key: the same map whatever was done to it. */
module SortedVectors {
  import opened Documents

  /** `less` is a strict total order. */
  ghost predicate TotalOrder<K(!new)>(less: (K, K) -> bool) {
    && (forall a, b :: Once(less, a, b))
    && forall a, b, c :: less(a, b) && less(b, c) ==> less(a, c)
  }

  /** Exactly one of less, equal and greater. */
  ghost predicate Once<K>(less: (K, K) -> bool, a: K, b: K) {
    if a == b then !less(a, b) && !less(b, a) else less(a, b) != less(b, a)
  }

  ghost predicate Increasing<K(!new), V>(less: (K, K) -> bool, entries: seq<(K, V)>) {
    forall i, j :: 0 <= i < j < |entries| ==> less(entries[i].0, entries[j].0)
  }

  ghost predicate NonDecreasing<K(!new), V>(less: (K, K) -> bool, entries: seq<(K, V)>) {
    forall i, j :: 0 <= i < j < |entries| ==> !less(entries[j].0, entries[i].0)
  }

  /** The map entries stand for, a later entry for a key replacing an earlier one. */
  function MapOf<K(==), V>(entries: seq<(K, V)>): map<K, V> {
    if entries == [] then map[] else MapOf(entries[..|entries| - 1])[entries[|entries| - 1].0 := entries[|entries| - 1].1]
  }

  lemma {:induction false} InMap<K, V>(entries: seq<(K, V)>, i: nat)
    requires i < |entries| && forall j :: i < j < |entries| ==> entries[j].0 != entries[i].0
    ensures entries[i].0 in MapOf(entries) && MapOf(entries)[entries[i].0] == entries[i].1
  {
    var n := |entries| - 1;
    if i < n {
      InMap(entries[..n], i);
    }
  }

  lemma {:induction false} FromEntry<K, V>(entries: seq<(K, V)>, key: K)
    ensures key in MapOf(entries) <==> exists i :: 0 <= i < |entries| && entries[i].0 == key
  {
    if entries != [] {
      FromEntry(entries[..|entries| - 1], key);
    }
  }

  lemma {:induction false} MapOfTwo<K, V>(a: seq<(K, V)>, b: seq<(K, V)>)
    ensures MapOf(a + b) == MapOf(a) + MapOf(b)
  {
    if b == [] {
      assert a + b == a;
    } else {
      var before, last := b[..|b| - 1], b[|b| - 1];
      assert (a + b)[..|a + b| - 1] == a + before;
      MapOfTwo(a, before);
      assert (MapOf(a) + MapOf(before))[last.0 := last.1] == MapOf(a) + MapOf(before)[last.0 := last.1];
    }
  }

  lemma MapOfOne<K, V>(entry: (K, V))
    ensures MapOf([entry]) == map[entry.0 := entry.1]
  {
    assert [entry][..0] == [];
  }

  // ---------- sorting and dropping duplicates ----------

  /** A stable sort puts an entry after those that are not greater. */
  function Place<K, V>(less: (K, K) -> bool, entries: seq<(K, V)>, entry: (K, V)): seq<(K, V)> {
    if entries == [] || !less(entry.0, entries[|entries| - 1].0) then entries + [entry]
    else Place(less, entries[..|entries| - 1], entry) + [entries[|entries| - 1]]
  }

  function StableSort<K, V>(less: (K, K) -> bool, entries: seq<(K, V)>): seq<(K, V)> {
    if entries == [] then [] else Place(less, StableSort(less, entries[..|entries| - 1]), entries[|entries| - 1])
  }

  lemma {:induction false} PlaceKeepsMap<K(!new), V>(less: (K, K) -> bool, entries: seq<(K, V)>, entry: (K, V))
    requires TotalOrder(less)
    ensures MapOf(Place(less, entries, entry)) == MapOf(entries)[entry.0 := entry.1]
  {
    var placed := Place(less, entries, entry);
    if entries == [] || !less(entry.0, entries[|entries| - 1].0) {
      assert placed[..|placed| - 1] == entries;
    } else {
      var last, before := entries[|entries| - 1], entries[..|entries| - 1];
      assert Once(less, entry.0, last.0);
      PlaceKeepsMap(less, before, entry);
      assert placed[..|placed| - 1] == Place(less, before, entry);
      assert MapOf(before)[entry.0 := entry.1][last.0 := last.1] == MapOf(before)[last.0 := last.1][entry.0 := entry.1];
    }
  }

  lemma {:induction false} PlaceSorted<K(!new), V>(less: (K, K) -> bool, entries: seq<(K, V)>, entry: (K, V))
    requires TotalOrder(less) && NonDecreasing(less, entries)
    ensures NonDecreasing(less, Place(less, entries, entry))
    ensures forall bound: K :: (forall i :: 0 <= i < |entries| ==> !less(bound, entries[i].0)) && !less(bound, entry.0)
              ==> NoneAbove(less, Place(less, entries, entry), bound)
  {
    var placed := Place(less, entries, entry);
    if entries == [] || !less(entry.0, entries[|entries| - 1].0) {
      forall i | 0 <= i < |entries|
        ensures !less(entry.0, entries[i].0)
      {
        var last := entries[|entries| - 1].0;
        assert Once(less, entry.0, entries[i].0) && Once(less, last, entries[i].0) && Once(less, entry.0, last);
      }
    } else {
      var last, before := entries[|entries| - 1], entries[..|entries| - 1];
      PlaceSorted(less, before, entry);
      assert Once(less, entry.0, last.0);
      assert NoneAbove(less, Place(less, before, entry), last.0);
    }
  }

  ghost predicate NoneAbove<K(!new), V>(less: (K, K) -> bool, entries: seq<(K, V)>, bound: K) {
    forall i :: 0 <= i < |entries| ==> !less(bound, entries[i].0)
  }

  lemma {:induction false} StableSortIs<K(!new), V>(less: (K, K) -> bool, entries: seq<(K, V)>)
    requires TotalOrder(less)
    ensures NonDecreasing(less, StableSort(less, entries)) && MapOf(StableSort(less, entries)) == MapOf(entries)
  {
    if entries != [] {
      var before, last := entries[..|entries| - 1], entries[|entries| - 1];
      StableSortIs(less, before);
      PlaceSorted(less, StableSort(less, before), last);
      PlaceKeepsMap(less, StableSort(less, before), last);
    }
  }

  class VecMap<K(==,!new), V> {
    const less: (K, K) -> bool
    var entries: seq<(K, V)>

    ghost predicate Valid()
      reads this
    {
      TotalOrder(less) && Increasing(less, entries)
    }

    ghost function Contents(): map<K, V>
      reads this
    {
      MapOf(entries)
    }

    constructor (less: (K, K) -> bool)
      requires TotalOrder(less)
      ensures Valid() && Contents() == map[] && this.less == less
    {
      this.less, entries := less, [];
    }

    /** Entries in any order, the last for each key kept. */
    constructor FromIter(less: (K, K) -> bool, pairs: seq<(K, V)>)
      requires TotalOrder(less)
      ensures Valid() && Contents() == MapOf(pairs) && this.less == less
    {
      this.less, entries := less, [];
      new;
      StableSortIs(less, pairs);
      entries := Deduplicated(less, StableSort(less, pairs));
    }

    static method Deduplicated(less: (K, K) -> bool, sorted: seq<(K, V)>) returns (out: seq<(K, V)>)
      requires TotalOrder(less) && NonDecreasing(less, sorted)
      ensures Increasing(less, out) && MapOf(out) == MapOf(sorted)
    {
      hide MapOf;
      out := [];
      var i := 0;
      assert sorted[..0] == [] == out;
      while i < |sorted|
        invariant 0 <= i <= |sorted| && Increasing(less, out) && MapOf(out) == MapOf(sorted[..i])
        invariant out == [] <==> i == 0
        invariant i > 0 ==> out[|out| - 1].0 == sorted[i - 1].0
      {
        var entry := sorted[i];
        MapOfNext(sorted, i);
        if out != [] && out[|out| - 1].0 == entry.0 {
          ReplaceLast(out, entry);
          out := out[..|out| - 1] + [entry];
        } else {
          AppendLarger(less, out, entry, i, sorted);
          MapOfLast(out, entry);
          out := out + [entry];
        }
        i := i + 1;
      }
      assert sorted[..i] == sorted;
    }

    /** Binary search: where the key is, or where it would go. */
    method Find(key: K) returns (found: bool, at: nat)
      requires Valid()
      ensures at <= |entries| && (found ==> at < |entries| && entries[at].0 == key)
      ensures !found ==> Gap(less, entries, key, at)
    {
      var low, high := 0, |entries|;
      while low < high
        invariant 0 <= low <= high <= |entries|
        invariant forall i :: 0 <= i < low ==> less(entries[i].0, key)
        invariant forall i :: high <= i < |entries| ==> less(key, entries[i].0)
      {
        var middle := (low + high) / 2;
        assert Once(less, entries[middle].0, key);
        if entries[middle].0 == key {
          return true, middle;
        } else if less(entries[middle].0, key) {
          forall i | 0 <= i < middle ensures less(entries[i].0, key) { assert less(entries[i].0, entries[middle].0); }
          low := middle + 1;
        } else {
          forall i | middle < i < |entries| ensures less(key, entries[i].0) { assert less(entries[middle].0, entries[i].0); }
          high := middle;
        }
      }
      return false, low;
    }

    method Lookup(key: K) returns (value: Option<V>)
      requires Valid()
      ensures value == Documents.Get(Contents(), key)
    {
      var found, at := Find(key);
      if found {
        UniqueEntry(less, entries, at);
        return Some(entries[at].1);
      }
      AbsentKey(less, entries, key, at);
      return None;
    }

    method Insert(key: K, value: V) returns (previous: Option<V>)
      requires Valid()
      modifies this`entries
      ensures Valid() && Contents() == old(Contents())[key := value] && previous == Documents.Get(old(Contents()), key)
    {
      if entries == [] || less(entries[|entries| - 1].0, key) {
        var end := |entries|;
        AfterLast(less, entries, key);
        AbsentKey(less, entries, key, end);
        InsertedAt(less, entries, key, value, end);
        assert entries[..end] + [(key, value)] + entries[end..] == entries + [(key, value)];
        entries := entries + [(key, value)];
        return None;
      }
      var found, at := Find(key);
      if found {
        UniqueEntry(less, entries, at);
        previous := Some(entries[at].1);
        ReplacedAt(less, entries, value, at);
        entries := entries[at := (key, value)];
      } else {
        AbsentKey(less, entries, key, at);
        InsertedAt(less, entries, key, value, at);
        previous := None;
        entries := entries[..at] + [(key, value)] + entries[at..];
      }
    }

    method Remove(key: K) returns (previous: Option<V>)
      requires Valid()
      modifies this`entries
      ensures Valid() && Contents() == old(Contents()) - {key} && previous == Documents.Get(old(Contents()), key)
    {
      var found, at := Find(key);
      if found {
        UniqueEntry(less, entries, at);
        previous := Some(entries[at].1);
        RemovedAt(less, entries, at);
        entries := entries[..at] + entries[at + 1..];
      } else {
        AbsentKey(less, entries, key, at);
        previous := None;
      }
    }
  }

  /** Where a key that is not there would go. */
  ghost predicate Gap<K(!new), V>(less: (K, K) -> bool, entries: seq<(K, V)>, key: K, at: nat) {
    && at <= |entries| && (forall i :: 0 <= i < at ==> less(entries[i].0, key))
    && forall i :: at <= i < |entries| ==> less(key, entries[i].0)
  }

  lemma ReplaceLast<K, V>(out: seq<(K, V)>, entry: (K, V))
    requires out != [] && out[|out| - 1].0 == entry.0
    ensures MapOf(out[..|out| - 1] + [entry]) == MapOf(out)[entry.0 := entry.1]
  {
    var more := out[..|out| - 1] + [entry];
    assert more[..|more| - 1] == out[..|out| - 1];
  }

  lemma AppendLarger<K(!new), V>(less: (K, K) -> bool, out: seq<(K, V)>, entry: (K, V), i: nat, sorted: seq<(K, V)>)
    requires TotalOrder(less) && Increasing(less, out) && NonDecreasing(less, sorted) && i < |sorted| && sorted[i] == entry
    requires out != [] ==> i > 0 && out[|out| - 1].0 == sorted[i - 1].0 && out[|out| - 1].0 != entry.0
    ensures Increasing(less, out + [entry])
  {
    if out != [] {
      var last := out[|out| - 1].0;
      assert !less(sorted[i].0, sorted[i - 1].0);
      assert Once(less, last, entry.0);
      assert less(last, entry.0);
      forall k | 0 <= k < |out| ensures less(out[k].0, entry.0) { if k < |out| - 1 { assert less(out[k].0, last); } }
    }
  }

  lemma UniqueEntry<K(!new), V>(less: (K, K) -> bool, entries: seq<(K, V)>, at: nat)
    requires TotalOrder(less) && Increasing(less, entries) && at < |entries|
    ensures entries[at].0 in MapOf(entries) && MapOf(entries)[entries[at].0] == entries[at].1
  {
    forall j | at < j < |entries| ensures entries[j].0 != entries[at].0 { assert Once(less, entries[at].0, entries[j].0); }
    InMap(entries, at);
  }

  lemma AbsentKey<K(!new), V>(less: (K, K) -> bool, entries: seq<(K, V)>, key: K, at: nat)
    requires TotalOrder(less) && Gap(less, entries, key, at)
    ensures key !in MapOf(entries)
  {
    FromEntry(entries, key);
    forall i | 0 <= i < |entries| ensures entries[i].0 != key { assert Once(less, entries[i].0, key); }
  }

  lemma AfterLast<K(!new), V>(less: (K, K) -> bool, entries: seq<(K, V)>, key: K)
    requires TotalOrder(less) && Increasing(less, entries) && (entries == [] || less(entries[|entries| - 1].0, key))
    ensures Gap(less, entries, key, |entries|)
  {
  }

  ghost predicate NoneIs<K, V>(entries: seq<(K, V)>, key: K) { forall i :: 0 <= i < |entries| ==> entries[i].0 != key }

  lemma MapOfLast<K, V>(entries: seq<(K, V)>, entry: (K, V))
    ensures MapOf(entries + [entry]) == MapOf(entries)[entry.0 := entry.1]
  {
    assert (entries + [entry])[..|entries|] == entries;
  }

  lemma MapOfNext<K, V>(entries: seq<(K, V)>, i: nat)
    requires i < |entries|
    ensures MapOf(entries[..i + 1]) == MapOf(entries[..i])[entries[i].0 := entries[i].1]
  {
    assert entries[..i + 1][..i] == entries[..i];
  }

  /** An entry between two others whose key is not in the later ones. */
  lemma MapOfMiddle<K, V>(a: seq<(K, V)>, entry: (K, V), b: seq<(K, V)>)
    requires NoneIs(b, entry.0)
    ensures MapOf(a + [entry] + b) == (MapOf(a) + MapOf(b))[entry.0 := entry.1]
  {
    MapOfTwo(a + [entry], b);
    MapOfTwo(a, [entry]);
    MapOfOne(entry);
    FromEntry(b, entry.0);
    Swapped(MapOf(a), MapOf(b), entry.0, entry.1);
  }

  lemma Swapped<K, V>(a: map<K, V>, b: map<K, V>, key: K, value: V)
    requires key !in b
    ensures a + map[key := value] + b == (a + b)[key := value]
  {
  }

  lemma KeysAfter<K(!new), V>(less: (K, K) -> bool, entries: seq<(K, V)>, at: nat)
    requires TotalOrder(less) && Increasing(less, entries) && at < |entries|
    ensures NoneIs(entries[at + 1..], entries[at].0) && NoneIs(entries[..at], entries[at].0)
  {
    var b := entries[at + 1..];
    forall i | 0 <= i < |b| ensures b[i].0 != entries[at].0 { assert Once(less, entries[at].0, entries[at + 1 + i].0); }
    forall i | 0 <= i < at ensures entries[i].0 != entries[at].0 { assert Once(less, entries[i].0, entries[at].0); }
  }

  lemma InsertedAt<K(!new), V>(less: (K, K) -> bool, entries: seq<(K, V)>, key: K, value: V, at: nat)
    requires TotalOrder(less) && Increasing(less, entries) && Gap(less, entries, key, at)
    ensures Increasing(less, entries[..at] + [(key, value)] + entries[at..])
    ensures MapOf(entries[..at] + [(key, value)] + entries[at..]) == MapOf(entries)[key := value]
  {
    hide MapOf;
    var a, b := entries[..at], entries[at..];
    assert entries == a + b;
    MapOfTwo(a, b);
    forall i | 0 <= i < |b| ensures b[i].0 != key { assert b[i] == entries[at + i]; assert Once(less, key, b[i].0); }
    MapOfMiddle(a, (key, value), b);
    InsertedIncreasing(less, entries, key, value, at);
  }

  lemma InsertedIncreasing<K(!new), V>(less: (K, K) -> bool, entries: seq<(K, V)>, key: K, value: V, at: nat)
    requires Increasing(less, entries) && Gap(less, entries, key, at)
    ensures Increasing(less, entries[..at] + [(key, value)] + entries[at..])
  {
    var more := entries[..at] + [(key, value)] + entries[at..];
    forall i, j | 0 <= i < j < |more|
      ensures less(more[i].0, more[j].0)
    {
      assert i < at ==> more[i] == entries[i];
      assert i > at ==> more[i] == entries[i - 1];
      assert j < at ==> more[j] == entries[j];
      assert j > at ==> more[j] == entries[j - 1];
    }
  }

  lemma ReplacedAt<K(!new), V>(less: (K, K) -> bool, entries: seq<(K, V)>, value: V, at: nat)
    requires TotalOrder(less) && Increasing(less, entries) && at < |entries|
    ensures Increasing(less, entries[at := (entries[at].0, value)])
    ensures MapOf(entries[at := (entries[at].0, value)]) == MapOf(entries)[entries[at].0 := value]
  {
    hide MapOf;
    var key := entries[at].0;
    var a, b := entries[..at], entries[at + 1..];
    assert entries == a + [entries[at]] + b && entries[at := (key, value)] == a + [(key, value)] + b;
    KeysAfter(less, entries, at);
    MapOfMiddle(a, entries[at], b);
    MapOfMiddle(a, (key, value), b);
  }

  lemma RemovedAt<K(!new), V>(less: (K, K) -> bool, entries: seq<(K, V)>, at: nat)
    requires TotalOrder(less) && Increasing(less, entries) && at < |entries|
    ensures Increasing(less, entries[..at] + entries[at + 1..])
    ensures MapOf(entries[..at] + entries[at + 1..]) == MapOf(entries) - {entries[at].0}
  {
    hide MapOf;
    var key := entries[at].0;
    var a, b := entries[..at], entries[at + 1..];
    assert entries == a + [entries[at]] + b;
    KeysAfter(less, entries, at);
    MapOfMiddle(a, entries[at], b);
    MapOfTwo(a, b);
    FromEntry(a, key);
    FromEntry(b, key);
    Without(MapOf(a) + MapOf(b), key, entries[at].1);
    RemovedIncreasing(less, entries, at);
  }

  lemma Without<K, V>(m: map<K, V>, key: K, value: V)
    requires key !in m
    ensures m[key := value] - {key} == m
  {
  }

  lemma RemovedIncreasing<K(!new), V>(less: (K, K) -> bool, entries: seq<(K, V)>, at: nat)
    requires Increasing(less, entries) && at < |entries|
    ensures Increasing(less, entries[..at] + entries[at + 1..])
  {
    var rest := entries[..at] + entries[at + 1..];
    forall i, j | 0 <= i < j < |rest|
      ensures less(rest[i].0, rest[j].0)
    {
      assert rest[i] == entries[if i < at then i else i + 1] && rest[j] == entries[if j < at then j else j + 1];
    }
  }
}
