/** What a cache answers about some keys of one object. */
module Lookup {
  import opened Types
  import opened Layers

  /** cachev1.GetResponse */
  datatype Response = Response(found: map<Key, Bytes>, deleted: set<Key>)

  /** The loop of cache Get over a list of records. */
  function Answer(rs: seq<Record>, keys: set<Key>): Response {
    if rs == [] then Response(map[], {}) else
    var a, r := Answer(rs[..|rs| - 1], keys), rs[|rs| - 1];
    if r.key !in keys then a
    else if r.tombstone then a.(deleted := a.deleted + {r.key})
    else a.(found := a.found[r.key := r.value])
  }

  /** `a` is what `layer` says about `keys`: its values found, its tombstones deleted, nothing else. */
  ghost predicate Tells(a: Response, layer: Layer, keys: set<Key>) {
    && (forall k :: k in a.found <==> k in keys && k in layer && layer[k].Put?)
    && (forall k :: k in a.found ==> layer[k].value == a.found[k])
    && (forall k :: k in a.deleted <==> k in keys && k in layer && layer[k].Delete?)
  }

  /** On an object with distinct keys the two maps of the answer are the object's layer. */
  lemma {:induction false} AnswerTells(rs: seq<Record>, keys: set<Key>)
    requires StrictlySorted(rs)
    ensures Tells(Answer(rs, keys), EntriesOf(rs), keys)
  {
    if rs != [] {
      var init, last := rs[..|rs| - 1], rs[|rs| - 1];
      AnswerTells(init, keys);
      EntriesOfKeys(init, last.key);
      if last.key in EntriesOf(init) {
        var i :| 0 <= i < |init| && init[i].key == last.key;
        StrictlySortedDistinct(rs, i, |rs| - 1);
      }
    }
  }
}
