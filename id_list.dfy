/** The ordered, id-keyed list of trickster/collections.py, updated in place.

    The items are kept in a `seq` field that the methods reassign. `idOf` reads an item's id;
    in the source every item carries its own `id` attribute. */
module IdLists {
  import opened Wrappers

  /** The position of the first item whose id is `key`. */
  function IndexOf<T>(items: seq<T>, idOf: T -> string, key: string): (r: Option<nat>)
    ensures r.None? <==> forall j :: 0 <= j < |items| ==> idOf(items[j]) != key
    ensures r.Some? ==>
      r.value < |items| && idOf(items[r.value]) == key &&
      forall j :: 0 <= j < r.value ==> idOf(items[j]) != key
  {
    if items == [] then None
    else if idOf(items[0]) == key then Some(0)
    else
      assert forall j :: 1 <= j < |items| ==> items[j] == items[1..][j - 1];
      match IndexOf(items[1..], idOf, key)
      case None => None
      case Some(i) => Some(i + 1)
  }

  /** No two items share an id. */
  predicate UniqueKeys<T>(items: seq<T>, idOf: T -> string) {
    forall i, j :: 0 <= i < j < |items| ==> idOf(items[i]) != idOf(items[j])
  }

  /** Appending an item whose id is absent keeps the ids unique. */
  lemma AppendKeepsUnique<T>(items: seq<T>, idOf: T -> string, item: T)
    requires UniqueKeys(items, idOf) && IndexOf(items, idOf, idOf(item)).None?
    ensures UniqueKeys(items + [item], idOf)
  {
    var items' := items + [item];
    forall i, j | 0 <= i < j < |items'|
      ensures idOf(items'[i]) != idOf(items'[j])
    {
      if j == |items| {
        assert items'[i] == items[i];
      } else {
        assert items'[i] == items[i] && items'[j] == items[j];
      }
    }
  }

  /** Deleting one position keeps the ids unique. */
  lemma DeleteKeepsUnique<T>(items: seq<T>, idOf: T -> string, i: nat)
    requires UniqueKeys(items, idOf) && i < |items|
    ensures UniqueKeys(items[..i] + items[i + 1..], idOf)
  {
    var items' := items[..i] + items[i + 1..];
    forall a, b | 0 <= a < b < |items'|
      ensures idOf(items'[a]) != idOf(items'[b])
    {
      var a0 := if a < i then a else a + 1;
      var b0 := if b < i then b else b + 1;
      assert items'[a] == items[a0] && items'[b] == items[b0] && a0 < b0;
    }
  }

  /** Overwriting a position keeps the ids unique when the new item keeps the old id or brings
      one that is absent; `replace` itself does not check this, so it is the caller's duty. */
  lemma OverwriteKeepsUnique<T>(items: seq<T>, idOf: T -> string, i: nat, item: T)
    requires UniqueKeys(items, idOf) && i < |items|
    requires idOf(item) == idOf(items[i]) || IndexOf(items, idOf, idOf(item)).None?
    ensures UniqueKeys(items[i := item], idOf)
  {
    var items' := items[i := item];
    forall a, b | 0 <= a < b < |items'|
      ensures idOf(items'[a]) != idOf(items'[b])
    {
      if a == i {
        assert items'[b] == items[b];
      } else if b == i {
        assert items'[a] == items[a];
      } else {
        assert items'[a] == items[a] && items'[b] == items[b];
      }
    }
  }

  /** `KeyError`, raised by `add` for a present id and by `replace` for an absent one. */
  datatype KeyError = KeyError(key: string)

  class IdList<T> {
    const idOf: T -> string
    var items: seq<T>

    constructor(idOf: T -> string)
      ensures this.idOf == idOf && items == []
    {
      this.idOf := idOf;
      items := [];
    }

    /** `index`: the position of the first item with this id. */
    method Index(key: string) returns (r: Option<nat>)
      ensures r == IndexOf(items, idOf, key)
    {
      var i := 0;
      while i < |items|
        invariant 0 <= i <= |items|
        invariant forall j :: 0 <= j < i ==> idOf(items[j]) != key
      {
        if idOf(items[i]) == key {
          return Some(i);
        }
        i := i + 1;
      }
      return None;
    }

    /** `get`: the first item with this id, or `None`. */
    method Get(key: string) returns (r: Option<T>)
      ensures r.None? <==> forall j :: 0 <= j < |items| ==> idOf(items[j]) != key
      ensures r.Some? ==>
        exists k :: 0 <= k < |items| && items[k] == r.value && idOf(r.value) == key &&
          forall j :: 0 <= j < k ==> idOf(items[j]) != key
    {
      var i := 0;
      while i < |items|
        invariant 0 <= i <= |items|
        invariant forall j :: 0 <= j < i ==> idOf(items[j]) != key
      {
        if idOf(items[i]) == key {
          return Some(items[i]);
        }
        i := i + 1;
      }
      return None;
    }

    /** `key in list`: holds exactly when `index` finds the id. */
    method Contains(key: string) returns (b: bool)
      ensures b <==> IndexOf(items, idOf, key).Some?
      ensures b <==> exists j :: 0 <= j < |items| && idOf(items[j]) == key
    {
      var i := 0;
      while i < |items|
        invariant 0 <= i <= |items|
        invariant forall j :: 0 <= j < i ==> idOf(items[j]) != key
      {
        if idOf(items[i]) == key {
          return true;
        }
        i := i + 1;
      }
      return false;
    }

    /** `__len__`. */
    method Length() returns (n: nat)
      ensures n == |items|
    {
      n := |items|;
    }

    /** `serialize`: each item's serialization, in order. */
    method Serialize<U>(serializeItem: T -> U) returns (r: seq<U>)
      ensures |r| == |items|
      ensures forall j :: 0 <= j < |items| ==> r[j] == serializeItem(items[j])
    {
      r := [];
      var i := 0;
      while i < |items|
        invariant 0 <= i <= |items|
        invariant |r| == i
        invariant forall j :: 0 <= j < i ==> r[j] == serializeItem(items[j])
      {
        r := r + [serializeItem(items[i])];
        i := i + 1;
      }
    }

    /** `add`: a fresh id is appended; a present id raises `KeyError` and changes nothing. */
    method Add(item: T) returns (r: Outcome<KeyError>)
      modifies this
      ensures r.Fail? <==> IndexOf(old(items), idOf, idOf(item)).Some?
      ensures r.Fail? ==> r.error == KeyError(idOf(item)) && items == old(items)
      ensures r.Pass? ==> items == old(items) + [item]
      ensures UniqueKeys(old(items), idOf) ==> UniqueKeys(items, idOf)
    {
      var present := Contains(idOf(item));
      if present {
        return Fail(KeyError(idOf(item)));
      }
      if UniqueKeys(items, idOf) {
        AppendKeepsUnique(items, idOf, item);
      }
      items := items + [item];
      return Pass;
    }

    /** `remove`: deletes the first item with this id, keeping the others in order; an absent id
        is a no-op. */
    method Remove(key: string)
      modifies this
      ensures IndexOf(old(items), idOf, key).None? ==> items == old(items)
      ensures IndexOf(old(items), idOf, key).Some? ==>
        var i := IndexOf(old(items), idOf, key).value;
        items == old(items)[..i] + old(items)[i + 1..]
      ensures UniqueKeys(old(items), idOf) ==> UniqueKeys(items, idOf)
    {
      var index := Index(key);
      if index.Some? {
        if UniqueKeys(items, idOf) {
          DeleteKeepsUnique(items, idOf, index.value);
        }
        items := items[..index.value] + items[index.value + 1..];
      }
    }

    /** `replace`: the item with this id is overwritten at the same position; an absent id raises
        `KeyError` and changes nothing. The new item's id is not checked. */
    method Replace(key: string, item: T) returns (r: Outcome<KeyError>)
      modifies this
      ensures r.Fail? <==> IndexOf(old(items), idOf, key).None?
      ensures r.Fail? ==> r.error == KeyError(key) && items == old(items)
      ensures r.Pass? ==> items == old(items)[IndexOf(old(items), idOf, key).value := item]
    {
      var index := Index(key);
      if index.None? {
        return Fail(KeyError(key));
      }
      items := items[index.value := item];
      return Pass;
    }
  }
}
