/** The search operations of a GLib sorted sequence, which every index of the
    file system is built on. */
module GSequence {

  predicate Sorted(keys: seq<nat>) {
    forall i, j :: 0 <= i < j < |keys| ==> keys[i] < keys[j]
  }

  /** The position behind every element that is at most `key`. */
  function Search(keys: seq<nat>, key: nat): (i: nat)
    ensures i <= |keys|
    ensures forall k :: 0 <= k < i ==> keys[k] <= key
    ensures i < |keys| ==> key < keys[i]
  {
    if keys == [] || key < keys[0] then 0 else 1 + Search(keys[1..], key)
  }

  /** One step back; the first position has nothing before it and stays. */
  function Prev(i: nat): (j: nat) {
    if i == 0 then 0 else i - 1
  }

  function Next(i: nat, length: nat): (j: nat) {
    if i < length then i + 1 else i
  }

  /** In a sorted sequence everything from the found position on is larger. */
  lemma SearchSorted(keys: seq<nat>, key: nat)
    requires Sorted(keys)
    ensures forall k :: Search(keys, key) <= k < |keys| ==> key < keys[k]
  {
  }

  /** A key is present exactly when the element before the found position is it. */
  lemma FoundBefore(keys: seq<nat>, key: nat)
    requires Sorted(keys)
    ensures key in keys <==> keys != [] && keys[Prev(Search(keys, key))] == key
  {
    SearchSorted(keys, key);
    if key in keys {
      var k :| 0 <= k < |keys| && keys[k] == key;
      var u := Search(keys, key);
      assert k < u && forall m :: 0 <= m < u - 1 ==> keys[m] < keys[u - 1];
    }
  }

  function Insert(keys: seq<nat>, key: nat): (r: seq<nat>) {
    keys[..Search(keys, key)] + [key] + keys[Search(keys, key)..]
  }

  /** Sorted insertion keeps the sequence sorted when the key is new. */
  lemma InsertSorted(keys: seq<nat>, key: nat)
    requires Sorted(keys) && key !in keys
    ensures Sorted(Insert(keys, key))
  {
    SearchSorted(keys, key);
    var u := Search(keys, key);
    var r := Insert(keys, key);
    hide Search;
    assert forall k :: 0 <= k < u ==> keys[k] < key by {
      assert forall k :: 0 <= k < |keys| ==> keys[k] in keys;
    }
    forall i, j | 0 <= i < j < |r|
      ensures r[i] < r[j]
    {
      assert r[i] == if i < u then keys[i] else if i == u then key else keys[i - 1];
      assert r[j] == if j < u then keys[j] else if j == u then key else keys[j - 1];
    }
  }
}
