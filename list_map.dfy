/**
 * The host index the loaders share: an append-only interner that hands out
 * dense ids 0, 1, 2, ... to network endpoints, so block lists can store small
 * integers instead of repeated host names. An id, once given, keeps naming
 * the same endpoint for the life of the index.
 */
module ListMaps {
  import opened Wrappers

  class ListMap<T(==)> {
    /** The interned values; a value's id is its position. */
    var list: seq<T>
    /** The id of every interned value. */
    var index: map<T, nat>

    /** `list` and `index` are inverse to each other. */
    ghost predicate Valid()
      reads this
    {
      (forall i :: 0 <= i < |list| ==> list[i] in index && index[list[i]] == i)
      && (forall t :: t in index ==> index[t] < |list| && list[index[t]] == t)
    }

    constructor()
      ensures Valid()
      ensures list == [] && index == map[]
    {
      list := [];
      index := map[];
    }

    /** The value with id `id`. */
    function GetEntry(id: nat): (t: T)
      reads this
      requires Valid() && id < |list|
      ensures t in index && index[t] == id
    {
      list[id]
    }

    /** The id of `t`, if it has been interned. */
    function GetIndex(t: T): (r: Option<nat>)
      reads this
      requires Valid()
      ensures r.Some? <==> t in list
      ensures r.Some? ==> r.value < |list| && list[r.value] == t
    {
      if t in index then Some(index[t]) else None
    }

    /**
     * The id of `t`, interning it first when it is new: a new value gets the
     * next id and every id given before stays as it was.
     */
    method GetOrAddIndex(t: T) returns (id: nat)
      requires Valid()
      modifies this
      ensures Valid()
      ensures id < |list| && list[id] == t
      ensures t in old(index) ==> list == old(list) && id == old(index)[t]
      ensures t !in old(index) ==> list == old(list) + [t] && id == |old(list)|
      ensures index == old(index)[t := id]
    {
      if t in index {
        id := index[t];
      } else {
        id := |list|;
        list := list + [t];
        index := index[t := id];
      }
    }

    /** No value is interned twice. */
    lemma Distinct()
      requires Valid()
      ensures forall i, j :: 0 <= i < j < |list| ==> list[i] != list[j]
    {
    }
  }
}
