/** The shared store, as the in-memory `FakeLocalStorage` of the test suite
    defines it: a list of keys in insertion order (`__keys__`), a dictionary
    from key to value (`__items__`) and a `length` field. */
module FakeStorage {
  import opened Options
  import opened Seqs

  /** The store's contents: keys in insertion order and the dictionary. */
  datatype Entries = Entries(keys: seq<string>, items: map<string, string>) {

    /** Keys are distinct and are exactly the dictionary's keys. */
    ghost predicate Valid() {
      Distinct(keys) && forall k :: k in items <==> k in keys
    }

    /** `getItem`: `undefined` (here `None`) for a key that is not stored. */
    function Get(key: string): Option<string> {
      if key in items then Some(items[key]) else None
    }

    /** `setItem`: a new key goes to the end of the list, an existing one
        keeps its place; the dictionary maps the key to the new value. */
    function Set(key: string, value: string): Entries {
      Entries(if key in items then keys else keys + [key], items[key := value])
    }

    /** `removeItem`: the key leaves the dictionary and the list. */
    function Remove(key: string): Entries {
      Entries(Filter(keys, Other(key)), items - {key})
    }
  }

  /** `setItem` keeps the store well formed, gives the key its new value and
      leaves every other key's value alone. */
  lemma SetItemEffect(e: Entries, key: string, value: string)
    requires e.Valid()
    ensures e.Set(key, value).Valid()
    ensures e.Set(key, value).Get(key) == Some(value)
    ensures forall k :: k != key ==> e.Set(key, value).Get(k) == e.Get(k)
    ensures key in e.keys ==> e.Set(key, value).keys == e.keys
    ensures key !in e.keys ==> e.Set(key, value).keys == e.keys + [key]
  {
    var keys := e.Set(key, value).keys;
    if key !in e.keys {
      forall i, j | 0 <= i < j < |keys| ensures keys[i] != keys[j] {
        if j == |e.keys| { assert keys[i] == e.keys[i]; }
      }
    }
  }

  /** `removeItem` keeps the store well formed, makes the key absent and
      keeps the other keys and their values; `RemoveAtIndex` says where
      the remaining keys end up. */
  lemma RemoveItemEffect(e: Entries, key: string)
    requires e.Valid()
    ensures e.Remove(key).Valid()
    ensures e.Remove(key).Get(key) == None
    ensures forall k :: k != key ==> e.Remove(key).Get(k) == e.Get(k)
    ensures forall k :: k in e.Remove(key).keys <==> k in e.keys && k != key
  {
    FilterDistinct(e.keys, Other(key));
    FilterMembers(e.keys, Other(key));
  }

  /** Removing a key that is not stored changes nothing. */
  lemma RemoveAbsent(e: Entries, key: string)
    requires e.Valid() && key !in e.keys
    ensures e.Remove(key) == e
  {
    FilterKeepsAll(e.keys, Other(key));
    assert e.items - {key} == e.items;
  }

  /** Removing the key at index `i` leaves every key below `i` where it was
      and moves every key above it down by one: a scan that runs from the
      last index down can delete the entry it is looking at. */
  lemma RemoveAtIndex(e: Entries, i: nat)
    requires e.Valid() && i < |e.keys|
    ensures e.Remove(e.keys[i]).keys == e.keys[..i] + e.keys[i + 1..]
    ensures forall j :: 0 <= j < i ==> e.Remove(e.keys[i]).keys[j] == e.keys[j]
  {
    FilterOutAt(e.keys, i);
  }

  /** A call on the store. */
  datatype StoreOp = SetItem(key: string, value: string) | RemoveItem(key: string)

  /** The contents after a sequence of calls, first call first. */
  function Replay(e: Entries, ops: seq<StoreOp>): Entries
    decreases |ops|
  {
    if |ops| == 0 then e
    else
      var next := match ops[0]
        case SetItem(k, v) => e.Set(k, v)
        case RemoveItem(k) => e.Remove(k);
      Replay(next, ops[1..])
  }

  /** The effect on `key` of the last call in `ops` that names it:
      `Some(Some(v))` for a `setItem(key, v)`, `Some(None)` for a
      `removeItem(key)`, and `None` when no call names it. */
  function LastWrite(ops: seq<StoreOp>, key: string): Option<Option<string>>
    decreases |ops|
  {
    if |ops| == 0 then None
    else
      var last := ops[|ops| - 1];
      if last.key != key then LastWrite(ops[..|ops| - 1], key)
      else if last.SetItem? then Some(Some(last.value))
      else Some(None)
  }

  /** `getItem(k)` returns the value of the most recent `setItem(k, _)` not
      followed by a `removeItem(k)`, and the store stays well formed. */
  lemma {:induction false} ReplayGet(e: Entries, ops: seq<StoreOp>, key: string)
    requires e.Valid()
    ensures Replay(e, ops).Valid()
    ensures Replay(e, ops).Get(key) == match LastWrite(ops, key)
      case None => e.Get(key)
      case Some(v) => v
    decreases |ops|
  {
    if |ops| > 0 {
      var front, last := ops[..|ops| - 1], ops[|ops| - 1];
      ReplaySplit(e, front, last);
      assert ops == front + [last];
      ReplayGet(e, front, key);
      var mid := Replay(e, front);
      match last
      case SetItem(k, v) => SetItemEffect(mid, k, v);
      case RemoveItem(k) => RemoveItemEffect(mid, k);
    }
  }

  lemma {:induction false} ReplaySplit(e: Entries, ops: seq<StoreOp>, last: StoreOp)
    ensures Replay(e, ops + [last]) == Replay(Replay(e, ops), [last])
    decreases |ops|
  {
    if |ops| > 0 {
      assert (ops + [last])[1..] == ops[1..] + [last];
      var next := match ops[0]
        case SetItem(k, v) => e.Set(k, v)
        case RemoveItem(k) => e.Remove(k);
      ReplaySplit(next, ops[1..], last);
    }
  }

  /** `FakeLocalStorage`. */
  class Store {
    var keys: seq<string>
    var items: map<string, string>
    var length: nat

    ghost predicate Valid()
      reads this
    {
      length == |keys| && Entries(keys, items).Valid()
    }

    function Contents(): Entries
      reads this
    {
      Entries(keys, items)
    }

    /** `FakeLocalStorage.create(items)`: the keys are listed in the order of
        the given entries. */
    constructor Create(initial: seq<(string, string)>)
      requires forall i, j :: 0 <= i < j < |initial| ==> initial[i].0 != initial[j].0
      ensures Valid()
      ensures |keys| == |initial|
      ensures forall i :: 0 <= i < |initial| ==> keys[i] == initial[i].0 && items[keys[i]] == initial[i].1
    {
      var ks: seq<string> := [];
      var m: map<string, string> := map[];
      for n := 0 to |initial|
        invariant |ks| == n
        invariant forall i :: 0 <= i < n ==> ks[i] == initial[i].0 && ks[i] in m && m[ks[i]] == initial[i].1
        invariant Entries(ks, m).Valid()
      {
        assert forall i :: 0 <= i < n ==> ks[i] != initial[n].0;
        ks := ks + [initial[n].0];
        m := m[initial[n].0 := initial[n].1];
      }
      keys, items, length := ks, m, |ks|;
    }

    method SetItem(key: string, value: string)
      requires Valid()
      modifies this
      ensures Valid()
      ensures Contents() == old(Contents()).Set(key, value)
    {
      SetItemEffect(Contents(), key, value);
      if key !in items {
        keys := keys + [key];
      }
      items := items[key := value];
      length := |keys|;
    }

    /** `getItem`: the stored value, or `undefined` (here `None`) for a key
        that is not stored. */
    function GetItem(key: string): (r: Option<string>)
      requires Valid()
      reads this
      ensures r.Some? <==> key in keys
      ensures r.Some? ==> Contents().Get(key) == r
    {
      if key in items then Some(items[key]) else None
    }

    /** `key(index)`: `undefined` (here `None`) outside the list. */
    function Key(index: int): (r: Option<string>)
      requires Valid()
      reads this
      ensures r.Some? <==> 0 <= index < length
      ensures r.Some? ==> r.value == keys[index] && r.value in items
    {
      if 0 <= index < |keys| then Some(keys[index]) else None
    }

    /** Deletes the key from the dictionary, then splices every occurrence out
        of the key list in a loop that runs from the last index down. */
    method RemoveItem(key: string)
      requires Valid()
      modifies this
      ensures Valid()
      ensures Contents() == old(Contents()).Remove(key)
    {
      ghost var before := Contents();
      RemoveItemEffect(before, key);
      var original := keys;
      var remaining := items - {key};
      var ks := keys;
      var i := |ks|;
      while i > 0
        invariant 0 <= i <= |original|
        invariant ks == original[..i] + Filter(original[i..], Other(key))
      {
        i := i - 1;
        FilterStep(original, i, Other(key));
        if key == ks[i] {
          ks := ks[..i] + ks[i + 1..];
        }
      }
      assert original[0..] == original;
      keys, items, length := ks, remaining, |ks|;
    }
  }
}
