/** Byte strings, the order Go puts on them, and the records the store is made of. */
module Types {

  datatype Option<+T> = None | Some(value: T)

  type Byte = x: int | 0 <= x < 0x100

  type Bytes = seq<Byte>

  /** A Go string is a byte string, so a key is one. */
  type Key = Bytes

  type Path = string

  /** The largest Go int; a slice or string is never longer. */
  const MAX_INT := 0x7FFF_FFFF_FFFF_FFFF

  const TWO64 := 0x1_0000_0000_0000_0000

  /** An object as the bucket holds it: a Go byte slice. */
  type Object = b: Bytes | |b| <= MAX_INT

  datatype Record = Record(key: Key, value: Bytes, tombstone: bool)

  /** What one object says about one key. */
  datatype Entry = Put(value: Bytes) | Delete

  function EntryOf(r: Record): Entry {
    if r.tombstone then Delete else Put(r.value)
  }

  /** Go's `a < b` on strings: lexicographic on bytes. */
  predicate Less(a: Key, b: Key) {
    b != [] && (a == [] || a[0] < b[0] || (a[0] == b[0] && Less(a[1..], b[1..])))
  }

  lemma {:induction false} LessTransitive(a: Key, b: Key, c: Key)
    requires Less(a, b) && Less(b, c)
    ensures Less(a, c)
  {
    if a != [] && a[0] == b[0] == c[0] {
      LessTransitive(a[1..], b[1..], c[1..]);
    }
  }

  /** Exactly one of `a < b`, `a == b` and `b < a` holds. */
  lemma {:induction false} LessTrichotomy(a: Key, b: Key)
    ensures a == b <==> !Less(a, b) && !Less(b, a)
    ensures !(Less(a, b) && Less(b, a))
  {
    if a != [] && b != [] && a[0] == b[0] {
      LessTrichotomy(a[1..], b[1..]);
      assert a == [a[0]] + a[1..] && b == [b[0]] + b[1..];
    }
  }

  /** From position `n` on `a` is below `b`: it ends there and `b` does not, or it has the smaller byte there. */
  predicate FirstDifference(a: Key, b: Key, n: nat) {
    && n <= |a| && n < |b| && a[..n] == b[..n]
    && (n == |a| || a[n] < b[n])
  }

  /** What the order is: a proper prefix comes first, and otherwise the first byte that differs decides. */
  lemma {:induction false} LessMeans(a: Key, b: Key)
    ensures Less(a, b) <==> exists n :: FirstDifference(a, b, n)
  {
    if n :| FirstDifference(a, b, n) {
      DifferenceIsLess(a, b, n);
    }
    if Less(a, b) {
      var n := WhereLess(a, b);
    }
  }

  lemma {:induction false} DifferenceIsLess(a: Key, b: Key, n: nat)
    requires FirstDifference(a, b, n)
    ensures Less(a, b)
  {
    if n > 0 {
      assert a[..n][0] == b[..n][0];
      assert a[1..][..n - 1] == a[..n][1..] == b[..n][1..] == b[1..][..n - 1];
      DifferenceIsLess(a[1..], b[1..], n - 1);
    }
  }

  lemma {:induction false} WhereLess(a: Key, b: Key) returns (n: nat)
    requires Less(a, b)
    ensures FirstDifference(a, b, n)
  {
    if a == [] || a[0] < b[0] {
      n := 0;
    } else {
      var m := WhereLess(a[1..], b[1..]);
      n := m + 1;
      assert a[..n] == [a[0]] + a[1..][..m] == [b[0]] + b[1..][..m] == b[..n];
    }
  }

  /** Keys strictly increase, which is what sorting plus deduplication leaves behind. */
  predicate StrictlySorted(rs: seq<Record>) {
    forall i, j :: 0 <= i < j < |rs| ==> Less(rs[i].key, rs[j].key)
  }

  lemma StrictlySortedDistinct(rs: seq<Record>, i: nat, j: nat)
    requires StrictlySorted(rs) && i < |rs| && j < |rs| && rs[i].key == rs[j].key
    ensures i == j
  {
    LessTrichotomy(rs[i].key, rs[j].key);
  }
}
