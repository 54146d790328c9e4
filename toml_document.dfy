/**
 * The parts of an editable `wally.toml` document (a `toml_edit::Document`)
 * that the manifest-editing commands read and change. A table is an
 * ordered list of key/item pairs: `toml_edit` keeps keys in insertion
 * order, appends new keys at the end and keeps a replaced key in place.
 */
module TomlDocuments {
  import opened Wrappers

  /** A value held under a key of a dependency table; only strings are looked into. */
  datatype Value = Str(text: string) | OtherValue(typeName: string)

  /** An item of the document's root table. */
  datatype Item =
    | ValueItem(value: Value)
    | TableItem(entries: seq<(string, Value)>)
    | ArrayOfTables

  /** The root table, in document order. */
  type Document = seq<(string, Item)>

  /** `Item::type_name`, used in the "Found unexpectedly" errors. */
  function TypeName(item: Item): string
  {
    match item
    case ValueItem(Str(_)) => "string"
    case ValueItem(OtherValue(t)) => t
    case TableItem(_) => "table"
    case ArrayOfTables => "array of tables"
  }

  predicate HasKey<V>(entries: seq<(string, V)>, key: string)
  {
    exists i :: 0 <= i < |entries| && entries[i].0 == key
  }

  lemma HasKeySnoc<V>(entries: seq<(string, V)>, e: (string, V), key: string)
    ensures HasKey(entries + [e], key) <==> HasKey(entries, key) || e.0 == key
  {
    if HasKey(entries, key) {
      var i :| 0 <= i < |entries| && entries[i].0 == key;
      assert (entries + [e])[i] == entries[i];
    }
    assert (entries + [e])[|entries|] == e;
  }

  /** A TOML table never holds a key twice. */
  predicate UniqueKeys<V>(entries: seq<(string, V)>)
  {
    forall i, j :: 0 <= i < j < |entries| ==> entries[i].0 != entries[j].0
  }

  /** `Table::get`: the item under `key`, if any. */
  function Lookup<V>(entries: seq<(string, V)>, key: string): (r: Option<V>)
    ensures r.None? <==> !HasKey(entries, key)
    ensures r.Some? ==> exists i :: 0 <= i < |entries| && entries[i] == (key, r.value)
  {
    if entries == [] then None
    else if entries[0].0 == key then Some(entries[0].1)
    else
      var rest := Lookup(entries[1..], key);
      assert forall i :: 1 <= i < |entries| ==> entries[i] == entries[1..][i - 1];
      rest
  }

  /** Under unique keys, the entry at `i` is what `Lookup` finds for its key. */
  lemma {:induction false} LookupAt<V>(entries: seq<(string, V)>, i: nat)
    requires UniqueKeys(entries) && i < |entries|
    ensures Lookup(entries, entries[i].0) == Some(entries[i].1)
  {
    if i > 0 {
      assert entries[1..][i - 1] == entries[i];
      LookupAt(entries[1..], i - 1);
    }
  }

  /**
   * `Table::remove`: the item under `key`, and the table without it; every
   * other entry keeps its place.
   */
  function Remove<V>(entries: seq<(string, V)>, key: string): (r: (seq<(string, V)>, Option<V>))
    ensures r.1 == Lookup(entries, key)
    ensures !HasKey(r.0, key)
    ensures |r.0| <= |entries|
    ensures forall k :: k != key ==> Lookup(r.0, k) == Lookup(entries, k)
    ensures !HasKey(entries, key) ==> r.0 == entries
    ensures UniqueKeys(entries) ==> UniqueKeys(r.0)
  {
    if entries == [] then ([], None)
    else
      var rest := Remove(entries[1..], key);
      assert forall i :: 1 <= i < |entries| ==> entries[i] == entries[1..][i - 1];
      if entries[0].0 == key then (rest.0, Some(entries[0].1))
      else
        var kept := [entries[0]] + rest.0;
        assert kept[1..] == rest.0;
        assert forall i :: 1 <= i < |kept| ==> kept[i] == rest.0[i - 1];
        assert !HasKey(entries, key) ==> kept == entries by {
          if !HasKey(entries, key) {
            assert !HasKey(entries[1..], key);
            assert entries == [entries[0]] + entries[1..];
          }
        }
        assert UniqueKeys(entries) ==> UniqueKeys(kept) by {
          if UniqueKeys(entries) {
            assert !HasKey(entries[1..], entries[0].0);
            assert !HasKey(rest.0, entries[0].0) by {
              assert Lookup(rest.0, entries[0].0) == Lookup(entries[1..], entries[0].0);
            }
          }
        }
        (kept, rest.1)
  }

  /**
   * `Table::insert` of a whole item: an existing key keeps its place and
   * takes the new item; a new key goes at the end.
   */
  function Set<V>(entries: seq<(string, V)>, key: string, value: V): (r: seq<(string, V)>)
    ensures Lookup(r, key) == Some(value)
    ensures HasKey(entries, key) ==> |r| == |entries|
    ensures !HasKey(entries, key) ==> r == entries + [(key, value)]
    ensures UniqueKeys(entries) ==> UniqueKeys(r)
    decreases |entries|, 0
  {
    if entries == [] then [(key, value)]
    else
      assert entries == [entries[0]] + entries[1..];
      ConsKeys(entries[0], entries[1..]);
      if entries[0].0 == key then
        ConsKeys((key, value), entries[1..]);
        [(key, value)] + entries[1..]
      else
        var rest := Set(entries[1..], key, value);
        ConsKeys(entries[0], rest);
        assert HasKey(entries, key) <==> HasKey(entries[1..], key);
        assert !HasKey(entries, key) ==> [entries[0]] + rest == entries + [(key, value)] by {
          if !HasKey(entries, key) {
            assert rest == entries[1..] + [(key, value)];
            ConsSnoc(entries[0], entries[1..], (key, value));
          }
        }
        if UniqueKeys(entries) then
          SetOther(entries[1..], key, value, entries[0].0);
          [entries[0]] + rest
        else
          [entries[0]] + rest
  }

  lemma ConsSnoc<T>(e: T, middle: seq<T>, last: T)
    ensures [e] + (middle + [last]) == ([e] + middle) + [last]
  {
  }

  /** How the keys of a table with a first entry relate to those of the rest. */
  lemma ConsKeys<V>(e: (string, V), rest: seq<(string, V)>)
    ensures [e] + rest != [] && ([e] + rest)[0] == e && ([e] + rest)[1..] == rest
    ensures forall k :: HasKey([e] + rest, k) <==> e.0 == k || HasKey(rest, k)
    ensures UniqueKeys([e] + rest) <==> UniqueKeys(rest) && !HasKey(rest, e.0)
  {
    var c := [e] + rest;
    assert forall i :: 1 <= i < |c| ==> c[i] == rest[i - 1];
    forall k | HasKey(rest, k) ensures HasKey(c, k) {
      var i :| 0 <= i < |rest| && rest[i].0 == k;
      assert c[i + 1] == rest[i];
    }
    if UniqueKeys(rest) && !HasKey(rest, e.0) {
      forall i, j | 0 <= i < j < |c| ensures c[i].0 != c[j].0 {
        if i > 0 { assert c[i] == rest[i - 1]; }
      }
    }
    if UniqueKeys(c) {
      forall i, j | 0 <= i < j < |rest| ensures rest[i].0 != rest[j].0 {
        assert c[i + 1] == rest[i] && c[j + 1] == rest[j];
      }
      forall i | 0 <= i < |rest| ensures rest[i].0 != e.0 {
        assert c[i + 1] == rest[i];
      }
    }
  }

  /** `Set` leaves every other key's item as it was. */
  lemma {:induction false} SetOther<V>(entries: seq<(string, V)>, key: string, value: V, k: string)
    requires k != key
    ensures Lookup(Set(entries, key, value), k) == Lookup(entries, k)
    decreases |entries|, 1
  {
    if entries != [] && entries[0].0 != key {
      SetOther(entries[1..], key, value, k);
    }
  }

  /** Putting back the item a key already holds changes nothing. */
  lemma {:induction false} SetSame<V>(entries: seq<(string, V)>, key: string, value: V)
    requires Lookup(entries, key) == Some(value)
    ensures Set(entries, key, value) == entries
  {
    if entries != [] && entries[0].0 != key {
      SetSame(entries[1..], key, value);
      assert entries == [entries[0]] + entries[1..];
    }
  }

  /** `wally.toml` on disk, as the document it parses to; a command writes it back only when it succeeds. */
  class ManifestFile {
    var document: Document

    constructor(document: Document)
      ensures this.document == document
    {
      this.document := document;
    }
  }
}
