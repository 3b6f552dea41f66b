/**
 Parsed TOML values, and the two type-strict equalities the switch commands and the merge gate judge them by:
 a structural recursion, and a canonical form with sorted keys.
 */
module TomlValues {
  import opened Order
  import opened Text

  /**
   A parsed value. A string is its text, whose `repr` determines it; any other scalar is its exact type's name
   and its `repr`, which is all either equality reads of it.
   */
  datatype Value =
    | Table(entries: map<string, Value>)
    | Array(items: seq<Value>)
    | Str(text: string)
    | Scalar(kind: string, repr: string)

  /** What a table holds under a key. */
  function Get(v: Value, key: string): Option<Value> {
    if v.Table? && key in v.entries then Some(v.entries[key]) else None
  }

  /** The value under a key of a table. */
  predicate Holds(table: Value, key: string, value: Value) {
    table.Table? && key in table.entries && table.entries[key] == value
  }

  /** `toml_values_equal`: tables key by key, arrays item by item, scalars by exact type and `repr`. */
  predicate ValuesEqual(left: Value, right: Value)
    decreases left
  {
    match left
    case Table(entries) =>
      && right.Table? && entries.Keys == right.entries.Keys
      && forall k :: k in entries ==> ValuesEqual(entries[k], right.entries[k])
    case Array(items) =>
      && right.Array? && |items| == |right.items|
      && forall i :: 0 <= i < |items| ==> ValuesEqual(items[i], right.items[i])
    case Str(text) => right.Str? && text == right.text
    case Scalar(kind, repr) => right.Scalar? && kind == right.kind && repr == right.repr
  }

  /** The canonical form: a type tag and a normalised payload. */
  datatype Canon = Canon(tag: string, payload: Payload)

  datatype Payload = Items(items: seq<(string,
    Canon)>) | List(elements: seq<Canon>) | StringRepr(text: string) | Repr(text: string)

  /** `_toml_canonical`: a table to its items sorted by key, a list to its items in order, a scalar to its `repr`. */
  ghost function Canonical(v: Value): Canon
    decreases v, 2, 0
  {
    match v
    case Table(entries) => Canon("dict", Items(CanonItems(v, Sorted(entries.Keys))))
    case Array(items) => Canon("list", List(CanonList(v, items)))
    case Str(text) => Canon("str", StringRepr(text))
    case Scalar(kind, repr) => Canon(kind, Repr(repr))
  }

  ghost function CanonItems(v: Value, keys: seq<string>): (out: seq<(string, Canon)>)
    requires v.Table? && forall k :: k in keys ==> k in v.entries
    ensures |out| == |keys| && forall i :: 0 <= i < |keys| ==> out[i] == (keys[i], Canonical(v.entries[keys[i]]))
    decreases v, 1, |keys|
  {
    if keys == [] then []
    else
      assert keys[0] in keys;
      [(keys[0], Canonical(v.entries[keys[0]]))] + CanonItems(v, keys[1..])
  }

  ghost function CanonList(v: Value, items: seq<Value>): (out: seq<Canon>)
    requires forall i :: 0 <= i < |items| ==> items[i] < v
    ensures |out| == |items| && forall i :: 0 <= i < |items| ==> out[i] == Canonical(items[i])
    decreases v, 1, |items|
  {
    if items == [] then []
    else
      assert forall i :: 0 <= i < |items| - 1 ==> items[1..][i] == items[i + 1];
      [Canonical(items[0])] + CanonList(v, items[1..])
  }

  /** The recursion accepts exactly a value and itself. */
  lemma {:induction false} EqualIsIdentity(left: Value, right: Value)
    ensures ValuesEqual(left, right) <==> left == right
    decreases left
  {
    match left
    case Table(entries) =>
      if right.Table? && entries.Keys == right.entries.Keys {
        forall k | k in entries
          ensures ValuesEqual(entries[k], right.entries[k]) <==> entries[k] == right.entries[k]
        {
          EqualIsIdentity(entries[k], right.entries[k]);
        }
      }
    case Array(items) =>
      if right.Array? && |items| == |right.items| {
        forall i | 0 <= i < |items|
          ensures ValuesEqual(items[i], right.items[i]) <==> items[i] == right.items[i]
        {
          EqualIsIdentity(items[i], right.items[i]);
        }
      }
    case Str(_) =>
    case Scalar(_, _) =>
  }

  lemma CanonicalTable(v: Value)
    requires v.Table?
    ensures Canonical(v) == Canon("dict", Items(CanonItems(v, Sorted(v.entries.Keys))))
  {
  }

  lemma ItemsDetermine(left: Value, keys: seq<string>, right: Value, others: seq<string>)
    requires left.Table? && (forall k :: k in keys ==> k in left.entries)
    requires right.Table? && (forall k :: k in others ==> k in right.entries)
    requires CanonItems(left, keys) == CanonItems(right, others)
    ensures keys == others
    ensures forall k :: k in keys ==> Canonical(left.entries[k]) == Canonical(right.entries[k])
  {
    hide Canonical, CanonItems;
    var items := CanonItems(left, keys);
    forall i | 0 <= i < |keys|
      ensures keys[i] == others[i] && Canonical(left.entries[keys[i]]) == Canonical(right.entries[keys[i]])
    {
      assert items[i] == (keys[i], Canonical(left.entries[keys[i]]));
      assert items[i] == (others[i], Canonical(right.entries[others[i]]));
    }
  }

  /** Tables of one canonical form have the same keys, and values of the same canonical forms. */
  lemma SameItems(left: Value, right: Value)
    requires left.Table? && right.Table? && Canonical(left) == Canonical(right)
    ensures left.entries.Keys == right.entries.Keys
    ensures forall k :: k in left.entries && k in right.entries ==>
      Canonical(left.entries[k]) == Canonical(right.entries[k])
  {
    CanonicalTable(left);
    CanonicalTable(right);
    hide Canonical, CanonItems, Sorted, Increasing;
    ItemsDetermine(left, Sorted(left.entries.Keys), right, Sorted(right.entries.Keys));
    forall k
      ensures k in left.entries <==> k in right.entries
    {
      assert k in Sorted(left.entries.Keys) <==> k in left.entries.Keys;
      assert k in Sorted(right.entries.Keys) <==> k in right.entries.Keys;
    }
  }

  lemma SameShape(left: Value, right: Value)
    requires Canonical(left) == Canonical(right)
    ensures left.Table? == right.Table? && left.Array? == right.Array?
    ensures (left.Str? || left.Scalar?) ==> left == right
    ensures left.Array? && right.Array? ==>
      && |left.items| == |right.items|
      && forall i :: 0 <= i < |left.items| ==> Canonical(left.items[i]) == Canonical(right.items[i])
  {
    hide CanonItems, CanonList, Sorted;
    if left.Array? && right.Array? {
      assert CanonList(left, left.items) == CanonList(right, right.items);
      forall i | 0 <= i < |left.items|
        ensures Canonical(left.items[i]) == Canonical(right.items[i])
      {
        assert CanonList(left, left.items)[i] == CanonList(right, right.items)[i];
      }
    }
  }

  lemma {:induction false} CanonicalInjective(left: Value, right: Value)
    requires Canonical(left) == Canonical(right)
    ensures left == right
    decreases left
  {
    hide Canonical;
    SameShape(left, right);
    if left.Table? {
      SameItems(left, right);
      forall k | k in left.entries
        ensures left.entries[k] == right.entries[k]
      {
        CanonicalInjective(left.entries[k], right.entries[k]);
      }
      assert left.entries == right.entries;
    } else if left.Array? {
      forall i | 0 <= i < |left.items|
        ensures left.items[i] == right.items[i]
      {
        CanonicalInjective(left.items[i], right.items[i]);
      }
      assert left.items == right.items;
    }
  }

  /** Main result: the rewrites' equality and the gate's canonical comparison agree on every pair of values. */
  lemma EqualitiesAgree(left: Value, right: Value)
    ensures ValuesEqual(left, right) <==> Canonical(left) == Canonical(right)
  {
    EqualIsIdentity(left, right);
    if Canonical(left) == Canonical(right) {
      CanonicalInjective(left, right);
    }
  }
}
