/** Turning a batch of writes into the records of one WAL: sort by key, keep the last of each group. */
module Dedup {
  import opened Types
  import opened Layers

  /** `rs` has the keys of `batch`, each once and in order, and every record of it is one of the batch. */
  ghost predicate Flattens(batch: seq<Record>, rs: seq<Record>) {
    && StrictlySorted(rs)
    && (forall r :: r in rs ==> r in batch)
    && (forall r :: r in batch ==> HasKey(rs, r.key))
  }

  predicate HasKey(rs: seq<Record>, k: Key) {
    exists i :: 0 <= i < |rs| && rs[i].key == k
  }

  predicate SortedByKey(rs: seq<Record>) {
    forall i, j :: 0 <= i < j < |rs| ==> !Less(rs[j].key, rs[i].key)
  }

  /** The two-index loop of writeBatch on what it has read so far. */
  function Deduped(rs: seq<Record>): (d: seq<Record>)
    ensures |d| <= |rs| && (rs != [] ==> d != [])
  {
    if rs == [] then [] else
    var d, last := Deduped(rs[..|rs| - 1]), rs[|rs| - 1];
    if d != [] && d[|d| - 1].key == last.key then d[..|d| - 1] + [last] else d + [last]
  }

  // ---- what the loop leaves behind ----

  lemma {:induction false} DedupedEnds(rs: seq<Record>)
    requires rs != []
    ensures Deduped(rs)[|Deduped(rs)| - 1] == rs[|rs| - 1]
  {
  }

  lemma {:induction false} DedupedMembers(rs: seq<Record>)
    ensures forall r :: r in Deduped(rs) ==> r in rs
  {
    if rs != [] {
      DedupedMembers(rs[..|rs| - 1]);
      assert rs == rs[..|rs| - 1] + [rs[|rs| - 1]];
    }
  }

  lemma HasKeyAppend(rs: seq<Record>, r: Record, k: Key)
    ensures HasKey(rs + [r], k) <==> HasKey(rs, k) || r.key == k
  {
    if HasKey(rs, k) {
      var i :| 0 <= i < |rs| && rs[i].key == k;
      assert (rs + [r])[i].key == k;
    }
    if r.key == k {
      assert (rs + [r])[|rs|].key == k;
    }
  }

  lemma {:induction false} DedupedKeepsKeys(rs: seq<Record>, k: Key)
    ensures HasKey(Deduped(rs), k) <==> HasKey(rs, k)
  {
    hide HasKey;
    if rs != [] {
      var init, last := rs[..|rs| - 1], rs[|rs| - 1];
      DedupedKeepsKeys(init, k);
      HasKeyAppend(init, last, k);
      assert rs == init + [last];
      var d := Deduped(init);
      if d != [] {
        assert d == d[..|d| - 1] + [d[|d| - 1]];
        HasKeyAppend(d[..|d| - 1], d[|d| - 1], k);
        HasKeyAppend(d[..|d| - 1], last, k);
      }
      HasKeyAppend(d, last, k);
    }
  }

  lemma {:induction false} DedupedStrict(rs: seq<Record>)
    requires SortedByKey(rs)
    ensures StrictlySorted(Deduped(rs))
  {
    hide Less, StrictlySorted;
    if rs == [] {
      NothingSorted();
    } else {
      var init, last := rs[..|rs| - 1], rs[|rs| - 1];
      DedupedStrict(init);
      var d := Deduped(init);
      if d == [] {
        OneSorted(last);
      } else {
        DedupedEnds(init);
        NextIsStrict(d, last);
      }
    }
  }

  lemma NothingSorted()
    ensures StrictlySorted([])
  {
  }

  lemma OneSorted(r: Record)
    ensures StrictlySorted([] + [r])
  {
  }

  /** A record that does not sort before the last one replaces it or comes after it. */
  lemma NextIsStrict(d: seq<Record>, r: Record)
    requires StrictlySorted(d) && d != [] && !Less(r.key, d[|d| - 1].key)
    ensures StrictlySorted(if d[|d| - 1].key == r.key then d[..|d| - 1] + [r] else d + [r])
  {
    hide Less;
    LessTrichotomy(d[|d| - 1].key, r.key);
    forall i | 0 <= i < |d| - 1
      ensures Less(d[i].key, r.key)
    {
      if d[|d| - 1].key != r.key {
        LessTransitive(d[i].key, d[|d| - 1].key, r.key);
      }
    }
  }

  /** For any key-sorted permutation of the batch: strictly increasing keys, the same keys, records of the batch. */
  lemma {:induction false} DedupedFlattens(batch: seq<Record>, sorted: seq<Record>)
    requires SortedByKey(sorted) && multiset(sorted) == multiset(batch)
    ensures Flattens(batch, Deduped(sorted))
  {
    DedupedStrict(sorted);
    DedupedMembers(sorted);
    forall r | r in Deduped(sorted)
      ensures r in batch
    {
      assert r in multiset(batch);
    }
    forall r | r in batch
      ensures HasKey(Deduped(sorted), r.key)
    {
      assert r in multiset(sorted);
      var i :| 0 <= i < |sorted| && sorted[i] == r;
      assert HasKey(sorted, r.key);
      DedupedKeepsKeys(sorted, r.key);
    }
  }

  lemma EntriesOfAppend(rs: seq<Record>, r: Record)
    ensures EntriesOf(rs + [r]) == EntriesOf(rs)[r.key := EntryOf(r)]
  {
    assert (rs + [r])[..|rs|] == rs;
  }

  /** Replacing a last record of the same key says the same as appending to it. */
  lemma ReplaceOrAppend(d: seq<Record>, r: Record)
    ensures EntriesOf(d + [r]) == EntriesOf(d)[r.key := EntryOf(r)]
    ensures d != [] && d[|d| - 1].key == r.key ==> EntriesOf(d[..|d| - 1] + [r]) == EntriesOf(d)[r.key := EntryOf(r)]
  {
    hide EntriesOf, EntryOf;
    EntriesOfAppend(d, r);
    if d != [] && d[|d| - 1].key == r.key {
      var init, last := d[..|d| - 1], d[|d| - 1];
      EntriesOfAppend(init, last);
      EntriesOfAppend(init, r);
      assert d == init + [last];
    }
  }

  /** The last record of every group of equal keys is the one that stays. */
  lemma {:induction false} DedupedIsLastOfGroup(rs: seq<Record>)
    ensures EntriesOf(Deduped(rs)) == EntriesOf(rs)
  {
    hide EntriesOf, EntryOf;
    if rs != [] {
      var init, last := rs[..|rs| - 1], rs[|rs| - 1];
      DedupedIsLastOfGroup(init);
      EntriesOfAppend(init, last);
      assert rs == init + [last];
      ReplaceOrAppend(Deduped(init), last);
    }
  }

  // ---- sorting ----

  function InsertByKey(rs: seq<Record>, r: Record): (s: seq<Record>)
    ensures multiset(s) == multiset(rs) + multiset{r} && |s| == |rs| + 1
  {
    if rs == [] || !Less(r.key, rs[|rs| - 1].key) then rs + [r] else
    assert rs == rs[..|rs| - 1] + [rs[|rs| - 1]];
    InsertByKey(rs[..|rs| - 1], r) + [rs[|rs| - 1]]
  }

  /** A stable sort. */
  function SortByKey(rs: seq<Record>): (s: seq<Record>)
    ensures multiset(s) == multiset(rs) && |s| == |rs|
  {
    if rs == [] then [] else
    assert rs == rs[..|rs| - 1] + [rs[|rs| - 1]];
    InsertByKey(SortByKey(rs[..|rs| - 1]), rs[|rs| - 1])
  }

  lemma {:induction false} InsertSorts(rs: seq<Record>, r: Record)
    requires SortedByKey(rs)
    ensures SortedByKey(InsertByKey(rs, r))
  {
    if rs == [] {
    } else if !Less(r.key, rs[|rs| - 1].key) {
      AppendSorts(rs, r);
    } else {
      var init, last := rs[..|rs| - 1], rs[|rs| - 1];
      InsertSorts(init, r);
      var s := InsertByKey(init, r);
      forall i | 0 <= i < |s|
        ensures !Less(last.key, s[i].key)
      {
        assert s[i] in multiset(s);
        assert s[i] in multiset(init) || s[i] == r;
        LessTrichotomy(r.key, last.key);
      }
    }
  }

  lemma AppendSorts(rs: seq<Record>, r: Record)
    requires SortedByKey(rs) && rs != [] && !Less(r.key, rs[|rs| - 1].key)
    ensures SortedByKey(rs + [r])
  {
    var last := rs[|rs| - 1];
    forall i | 0 <= i < |rs|
      ensures !Less(r.key, rs[i].key)
    {
      LessTrichotomy(last.key, r.key);
      LessTrichotomy(rs[i].key, last.key);
      if Less(r.key, rs[i].key) {
        if i < |rs| - 1 && rs[i].key != last.key {
          LessTransitive(r.key, rs[i].key, last.key);
        }
      }
    }
  }

  lemma {:induction false} SortSorts(rs: seq<Record>)
    ensures SortedByKey(SortByKey(rs))
  {
    if rs != [] {
      SortSorts(rs[..|rs| - 1]);
      InsertSorts(SortByKey(rs[..|rs| - 1]), rs[|rs| - 1]);
    }
  }

  /** The records for one key, in order. */
  function Only(rs: seq<Record>, k: Key): seq<Record> {
    if rs == [] then [] else
    Only(rs[..|rs| - 1], k) + if rs[|rs| - 1].key == k then [rs[|rs| - 1]] else []
  }

  /** A sorting that keeps the records of each key in their order. */
  ghost predicate StablySorted(batch: seq<Record>, sorted: seq<Record>) {
    && SortedByKey(sorted) && multiset(sorted) == multiset(batch)
    && forall k :: Only(sorted, k) == Only(batch, k)
  }

  lemma {:induction false} InsertIsStable(rs: seq<Record>, r: Record, k: Key)
    ensures Only(InsertByKey(rs, r), k) == Only(rs + [r], k)
  {
    if rs != [] && Less(r.key, rs[|rs| - 1].key) {
      var init, last := rs[..|rs| - 1], rs[|rs| - 1];
      InsertIsStable(init, r, k);
      assert (init + [r])[..|init|] == init && (rs + [r])[..|rs|] == rs;
      assert InsertByKey(rs, r)[..|rs|] == InsertByKey(init, r);
      LessTrichotomy(r.key, last.key);
    }
  }

  lemma {:induction false} SortIsStable(rs: seq<Record>, k: Key)
    ensures Only(SortByKey(rs), k) == Only(rs, k)
  {
    if rs != [] {
      var init, last := rs[..|rs| - 1], rs[|rs| - 1];
      SortIsStable(init, k);
      InsertIsStable(SortByKey(init), last, k);
      var s := SortByKey(init);
      assert (s + [last])[..|s|] == s;
    }
  }

  lemma StableSortExists(rs: seq<Record>)
    ensures StablySorted(rs, SortByKey(rs))
  {
    SortSorts(rs);
    forall k {
      SortIsStable(rs, k);
    }
  }

  // ---- which write of a key survives ----

  lemma {:induction false} EntryIsLastOfKey(rs: seq<Record>, k: Key)
    ensures Get(EntriesOf(rs), k) == var o := Only(rs, k); if o == [] then None else Some(EntryOf(o[|o| - 1]))
  {
    if rs != [] {
      EntryIsLastOfKey(rs[..|rs| - 1], k);
    }
  }

  /** Under a stable sort the WAL says what the last write of each key in the batch said. */
  lemma StableIsLastWriteWins(batch: seq<Record>, sorted: seq<Record>)
    requires StablySorted(batch, sorted)
    ensures EntriesOf(Deduped(sorted)) == EntriesOf(batch)
  {
    DedupedIsLastOfGroup(sorted);
    forall k
      ensures Get(EntriesOf(sorted), k) == Get(EntriesOf(batch), k)
    {
      EntryIsLastOfKey(sorted, k);
      EntryIsLastOfKey(batch, k);
    }
    SameLayer(EntriesOf(sorted), EntriesOf(batch));
  }

  /** No key is written twice with different outcomes. */
  predicate NoConflict(batch: seq<Record>) {
    forall i, j :: 0 <= i < j < |batch| && batch[i].key == batch[j].key ==> EntryOf(batch[i]) == EntryOf(batch[j])
  }

  lemma EntrySource(rs: seq<Record>, k: Key) returns (i: int)
    requires k in EntriesOf(rs)
    ensures 0 <= i < |rs| && rs[i].key == k && EntriesOf(rs)[k] == EntryOf(rs[i])
  {
    i := |rs| - 1;
    if rs[i].key != k {
      i := EntrySource(rs[..|rs| - 1], k);
    }
  }

  lemma SameKeys(a: seq<Record>, b: seq<Record>, k: Key)
    requires multiset(a) == multiset(b) && k in EntriesOf(a)
    ensures k in EntriesOf(b)
  {
    var i := EntrySource(a, k);
    assert a[i] in multiset(b);
    var j :| 0 <= j < |b| && b[j] == a[i];
    EntriesOfKeys(b, k);
  }

  lemma {:induction false} NoConflictSuffices(batch: seq<Record>, sorted: seq<Record>)
    requires NoConflict(batch) && SortedByKey(sorted) && multiset(sorted) == multiset(batch)
    ensures EntriesOf(Deduped(sorted)) == EntriesOf(batch)
  {
    hide EntriesOf, Deduped, SortedByKey, Less;
    DedupedIsLastOfGroup(sorted);
    forall k
      ensures Get(EntriesOf(sorted), k) == Get(EntriesOf(batch), k)
    {
      if k in EntriesOf(sorted) {
        SameKeys(sorted, batch, k);
        var i := EntrySource(sorted, k);
        var j := EntrySource(batch, k);
        assert sorted[i] in multiset(batch);
        var m :| 0 <= m < |batch| && batch[m] == sorted[i];
        assert batch[m].key == batch[j].key;
      } else if k in EntriesOf(batch) {
        SameKeys(batch, sorted, k);
      }
    }
    SameLayer(EntriesOf(sorted), EntriesOf(batch));
  }

  /** Some sort of the batch puts record `m` last in its group. */
  lemma SortThatPutsLast(batch: seq<Record>, m: nat) returns (sorted: seq<Record>)
    requires m < |batch|
    ensures SortedByKey(sorted) && multiset(sorted) == multiset(batch)
    ensures Get(EntriesOf(Deduped(sorted)), batch[m].key) == Some(EntryOf(batch[m]))
  {
    var moved := batch[..m] + batch[m + 1..] + [batch[m]];
    assert batch == batch[..m] + [batch[m]] + batch[m + 1..];
    sorted := SortByKey(moved);
    StableSortExists(moved);
    StableIsLastWriteWins(moved, sorted);
  }

  /**
   The code sorts with an algorithm that promises no order among equal keys. The WAL keeps the
   last write of every key under every such sort if and only if no key was written twice with
   different outcomes in the batch.
   */
  lemma {:induction false} LastWriteWinsExactlyWithoutConflicts(batch: seq<Record>)
    ensures NoConflict(batch) <==>
            forall sorted :: SortedByKey(sorted) && multiset(sorted) == multiset(batch) ==>
                EntriesOf(Deduped(sorted)) == EntriesOf(batch)
  {
    if NoConflict(batch) {
      forall sorted | SortedByKey(sorted) && multiset(sorted) == multiset(batch) {
        NoConflictSuffices(batch, sorted);
      }
    } else {
      var i, j :| 0 <= i < j < |batch| && batch[i].key == batch[j].key && EntryOf(batch[i]) != EntryOf(batch[j]);
      var m := if Get(EntriesOf(batch), batch[i].key) == Some(EntryOf(batch[i])) then j else i;
      var sorted := SortThatPutsLast(batch, m);
    }
  }

  // ---- the code ----

  /** sort.Slice by key: callers may count on the order of keys and on nothing else. */
  method SortSlice(a: array<Record>)
    modifies a
    ensures SortedByKey(a[..]) && multiset(a[..]) == multiset(old(a[..]))
  {
    hide SortByKey, SortedByKey;
    var s := SortByKey(a[..]);
    SortSorts(a[..]);
    for i := 0 to a.Length
      invariant a[..i] == s[..i]
    {
      a[i] := s[i];
    }
    assert a[..] == s;
  }

  /** The two-index loop: what stays of the slice is `a[..n]`. */
  method DedupInPlace(a: array<Record>) returns (n: nat)
    modifies a
    ensures n <= a.Length && a[..n] == Deduped(old(a[..]))
  {
    hide Deduped;
    ghost var sorted := a[..];
    if a.Length <= 1 {
      OneIsDeduped(sorted);
      assert a[..a.Length] == sorted;
      return a.Length;
    }
    var j := 0;
    OneIsDeduped(sorted[..1]);
    for i := 1 to a.Length
      invariant j < i
      invariant a[..j + 1] == Deduped(sorted[..i])
      invariant a[i..] == sorted[i..]
    {
      ghost var before := a[..j + 1];
      DedupedStep(sorted, i);
      assert a[i] == sorted[i..][0] && a[j] == before[j];
      TailStep(sorted, i);
      if a[i].key != a[j].key {
        j := j + 1;
        if i != j {
          a[j] := a[i];
        }
        assert a[..j + 1] == before + [sorted[i]];
      } else {
        a[j] := a[i];
        assert a[..j + 1] == before[..j] + [sorted[i]];
      }
      assert a[i + 1..] == sorted[i + 1..];
    }
    assert sorted[..a.Length] == sorted;
    n := j + 1;
  }

  lemma {:induction false} OneIsDeduped(rs: seq<Record>)
    requires |rs| <= 1
    ensures Deduped(rs) == rs
  {
    if rs != [] {
      var init, last := rs[..|rs| - 1], rs[|rs| - 1];
      assert init == [];
      assert Deduped(init) == [];
      assert [] + [last] == rs;
    }
  }

  lemma TailStep(rs: seq<Record>, i: nat)
    requires i < |rs|
    ensures rs[i..][0] == rs[i] && rs[i..][1..] == rs[i + 1..]
  {
  }

  lemma DedupedStep(rs: seq<Record>, i: nat)
    requires 0 < i < |rs|
    ensures var d := Deduped(rs[..i]);
            && d != []
            && Deduped(rs[..i + 1]) == if d[|d| - 1].key == rs[i].key then d[..|d| - 1] + [rs[i]] else d + [rs[i]]
  {
    assert rs[..i + 1][..i] == rs[..i];
  }

  /** The first half of writeBatch: sort, then deduplicate; what stays is `a[..n]`. */
  method SortAndDedup(a: array<Record>) returns (n: nat)
    modifies a
    ensures n <= a.Length && Flattens(old(a[..]), a[..n]) && (a.Length > 0 ==> n > 0)
    ensures NoConflict(old(a[..])) ==> EntriesOf(a[..n]) == EntriesOf(old(a[..]))
  {
    hide Deduped, SortedByKey, NoConflict, EntriesOf, Flattens;
    ghost var batch := a[..];
    SortSlice(a);
    ghost var sorted := a[..];
    n := DedupInPlace(a);
    DedupedFlattens(batch, sorted);
    if NoConflict(batch) {
      NoConflictSuffices(batch, sorted);
    }
    if n == 0 {
      NotEmptied(sorted);
    }
  }

  lemma NotEmptied(rs: seq<Record>)
    ensures Deduped(rs) == [] ==> rs == []
  {
  }
}
