/** A model of a constant `std::unordered_map` written as a braced list of
    `{ key, value }` entries, and of its `at` lookup.

    Building such a map inserts the entries in order.  Which of several entries
    with the same key ends up in the map is left open by the C++ standard;
    this model keeps the FIRST one, as common implementations do.  For a list
    whose keys are distinct the choice is irrelevant: every entry's value is
    found under its key (`FromEntriesOfDistinct`).  `at` throws `std::out_of_range` for a key that is absent, which is why the
    adapters' tables must be total over their key type.  The list is read by
    position, from entry `i` to its end. */
module UnorderedMaps {

  datatype Option<T> = None | Some(value: T)

  /** The keys of the entries from position `i` on. */
  ghost function KeysFrom<K, V>(entries: seq<(K, V)>, i: nat): set<K>
  {
    set j | i <= j < |entries| :: entries[j].0
  }

  /** The value of the first entry at or after position `i` whose key is `k`,
      if there is one: a plain linear reading of the entry list. */
  function FirstValueFrom<K(==), V>(entries: seq<(K, V)>, k: K, i: nat): Option<V>
    decreases |entries| - i
  {
    if i >= |entries| then None
    else if entries[i].0 == k then Some(entries[i].1)
    else FirstValueFrom(entries, k, i + 1)
  }

  /** The map built from the entries at or after position `i`.  The later
      entries are inserted first and entry `i` last, so that it wins over any
      later entry with the same key, as an ignored duplicate insert does. */
  function FromEntriesFrom<K(==), V>(entries: seq<(K, V)>, i: nat): (m: map<K, V>)
    ensures m.Keys == KeysFrom(entries, i)
    decreases |entries| - i
  {
    if i >= |entries| then map[]
    else
      assert KeysFrom(entries, i) == KeysFrom(entries, i + 1) + {entries[i].0};
      FromEntriesFrom(entries, i + 1)[entries[i].0 := entries[i].1]
  }

  /** The map an initializer list builds. */
  function FromEntries<K(==), V>(entries: seq<(K, V)>): map<K, V>
  {
    FromEntriesFrom(entries, 0)
  }

  /** `at` on the built map finds exactly what a linear search of the entry list
      finds: it succeeds iff some entry has the key, and then yields the value of
      the first such entry. */
  lemma {:induction false} FromEntriesAt<K, V>(entries: seq<(K, V)>, k: K, i: nat)
    ensures k in FromEntriesFrom(entries, i) <==> FirstValueFrom(entries, k, i).Some?
    ensures k in FromEntriesFrom(entries, i) ==> FromEntriesFrom(entries, i)[k] == FirstValueFrom(entries, k, i).value
    decreases |entries| - i
  {
    if i < |entries| && entries[i].0 != k {
      FromEntriesAt(entries, k, i + 1);
    }
  }

  /** When every entry's value is `f` of its key, a lookup from position `i`
      of the key held at position `j` yields `f` of that key, whatever entries
      lie between. */
  lemma {:induction false} FirstValueOfConsistent<K, V>(entries: seq<(K, V)>, f: K -> V, i: nat, j: nat)
    requires forall n | 0 <= n < |entries| :: entries[n].1 == f(entries[n].0)
    requires i <= j < |entries|
    ensures FirstValueFrom(entries, entries[j].0, i) == Some(f(entries[j].0))
    decreases j - i
  {
    if entries[i].0 != entries[j].0 {
      FirstValueOfConsistent(entries, f, i + 1, j);
    }
  }

  /** No key occurs in two entries. */
  predicate KeysDistinct<K(==), V>(entries: seq<(K, V)>)
  {
    forall i, j | 0 <= i < j < |entries| :: entries[i].0 != entries[j].0
  }

  /** A lookup from position `i` of the key held at position `j` finds entry
      `j` when no entry in between has the same key. */
  lemma {:induction false} FirstValueOfUnshadowed<K, V>(entries: seq<(K, V)>, i: nat, j: nat)
    requires i <= j < |entries|
    requires forall n | i <= n < j :: entries[n].0 != entries[j].0
    ensures FirstValueFrom(entries, entries[j].0, i) == Some(entries[j].1)
    decreases j - i
  {
    if i < j {
      FirstValueOfUnshadowed(entries, i + 1, j);
    }
  }

  /** With distinct keys, the built map holds every entry as it is written,
      whichever policy for repeated keys the library follows. */
  lemma FromEntriesOfDistinct<K, V>(entries: seq<(K, V)>, j: nat)
    requires KeysDistinct(entries)
    requires j < |entries|
    ensures entries[j].0 in FromEntries(entries)
    ensures FromEntries(entries)[entries[j].0] == entries[j].1
  {
    FirstValueOfUnshadowed(entries, 0, j);
    FromEntriesAt(entries, entries[j].0, 0);
  }
}
