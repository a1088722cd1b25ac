/** A JavaScript `Map` as the sequence of its values, in insertion order; each value knows its key. */
module Keyed {
  import opened Ordering

  /** The place of the value with the key, or the number of values. */
  function Slot<T>(entries: seq<T>, key: T -> string, id: string): (i: nat)
    ensures i <= |entries|
    ensures i < |entries| ==> key(entries[i]) == id
    ensures forall j | 0 <= j < i :: key(entries[j]) != id
  {
    if entries == [] || key(entries[0]) == id then 0 else 1 + Slot(entries[1..], key, id)
  }

  /** `Map.set`: overwrites in place or appends. */
  function SetEntry<T>(entries: seq<T>, key: T -> string, value: T): seq<T> {
    var i := Slot(entries, key, key(value));
    if i == |entries| then entries + [value] else entries[i := value]
  }

  ghost predicate DistinctKeys<T>(entries: seq<T>, key: T -> string) {
    forall i, j | 0 <= i < j < |entries| :: key(entries[i]) != key(entries[j])
  }

  lemma SetEntryHolds<T>(entries: seq<T>, key: T -> string, value: T)
    requires DistinctKeys(entries, key)
    ensures DistinctKeys(SetEntry(entries, key, value), key)
    ensures forall e :: e in SetEntry(entries, key, value) <==> e == value || (e in entries && key(e) != key(value))
  {
    var after := SetEntry(entries, key, value);
    var i := Slot(entries, key, key(value));
    assert after[i] == value;
    forall e ensures e in after <==> e == value || (e in entries && key(e) != key(value)) {
      if e in entries && key(e) != key(value) {
        var k :| 0 <= k < |entries| && entries[k] == e;
        assert after[k] == e;
      }
      hide Slot;
    }
    hide Slot;
  }

  lemma SortKeepsKeys<T>(entries: seq<T>, key: T -> string, le: (T, T) -> bool)
    requires DistinctKeys(entries, key)
    ensures DistinctKeys(Sort(entries, le), key)
    ensures forall e :: e in Sort(entries, le) <==> e in entries
  {
    SortKeeps(entries, le);
    assert Distinct(entries);
    DistinctByMultiset(entries, Sort(entries, le));
    hide Sort;
    OtherOrder(entries, Sort(entries, le), key);
  }

  lemma OtherOrder<T>(a: seq<T>, b: seq<T>, key: T -> string)
    requires DistinctKeys(a, key) && Distinct(b) && forall e :: e in b <==> e in a
    ensures DistinctKeys(b, key)
  {
    forall i, j | 0 <= i < j < |b| ensures key(b[i]) != key(b[j]) {
      var x, y := b[i], b[j];
      assert x in b && y in b;
      assert x in a && y in a && x != y;
    }
  }
}
