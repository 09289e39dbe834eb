/**
 The object format: a version varint, then per record a varint holding the key length
 shifted left once with the tombstone flag in the lowest bit, the key, and, unless the
 record is a tombstone, a varint length and the value.
 */
module SSTable {
  import opened Types
  import Varint

  const CURRENT_VERSION := 1

  // ---- what the bytes of a file are ----

  /** A Go int after an addition or a conversion that may have wrapped around. */
  function Int64(x: int): (r: int)
    ensures -MAX_INT - 1 <= r <= MAX_INT
    ensures -MAX_INT - 1 <= x <= MAX_INT ==> r == x
  {
    if x > MAX_INT then (x + MAX_INT + 1) % TWO64 - MAX_INT - 1
    else if x < -MAX_INT - 1 then (x + MAX_INT + 1) % TWO64 - MAX_INT - 1
    else x
  }

  /** `uint64(n << 1)`: the shift may leave Go's int, the conversion back to 64 bits undoes that. */
  function ShiftedLength(n: nat): (r: nat)
    requires n <= MAX_INT
    ensures r == 2 * n
  {
    Int64(2 * n) % TWO64
  }

  function Header(r: Record): nat {
    2 * |r.key| + if r.tombstone then 1 else 0
  }

  /** The bytes of a record after its key. */
  function Body(r: Record): Bytes {
    if r.tombstone then [] else Varint.Encode(|r.value|) + r.value
  }

  function EncodeRecord(r: Record): (b: Bytes)
    ensures |b| >= |r.key| + 1
    ensures !r.tombstone ==> |b| >= |r.key| + |r.value| + 2
  {
    Varint.Encode(Header(r)) + r.key + Body(r)
  }

  function EncodeRecords(rs: seq<Record>): Bytes {
    if rs == [] then [] else EncodeRecord(rs[0]) + EncodeRecords(rs[1..])
  }

  function Encode(rs: seq<Record>): Bytes {
    Varint.Encode(CURRENT_VERSION) + EncodeRecords(rs)
  }

  lemma {:induction false} EncodeRecordsAppend(a: seq<Record>, b: seq<Record>)
    ensures EncodeRecords(a + b) == EncodeRecords(a) + EncodeRecords(b)
  {
    if a == [] {
      assert a + b == b;
    } else {
      assert (a + b)[1..] == a[1..] + b;
      EncodeRecordsAppend(a[1..], b);
    }
  }

  lemma EncodeRecordsStep(rs: seq<Record>, i: nat)
    requires i < |rs|
    ensures EncodeRecords(rs[..i + 1]) == EncodeRecords(rs[..i]) + EncodeRecord(rs[i])
    ensures |EncodeRecords(rs[..i + 1])| <= |EncodeRecords(rs)|
    ensures |rs[i].key| < |EncodeRecords(rs)|
    ensures !rs[i].tombstone ==> |rs[i].value| < |EncodeRecords(rs)|
  {
    assert rs[..i + 1] == rs[..i] + [rs[i]];
    EncodeRecordsAppend(rs[..i], [rs[i]]);
    assert rs == rs[..i + 1] + rs[i + 1..];
    EncodeRecordsAppend(rs[..i + 1], rs[i + 1..]);
  }

  // ---- the format, byte by byte ----

  /** Twice the key's length, plus one for a tombstone, the key, and a put's length and value. */
  predicate Pieces(b: Bytes, r: Record, h: Bytes, l: Bytes) {
    && Varint.Leb128(h, 2 * |r.key| + if r.tombstone then 1 else 0)
    && Varint.Leb128(l, |r.value|)
    && b == h + r.key + if r.tombstone then [] else l + r.value
  }

  ghost predicate IsRecord(b: Bytes, r: Record) {
    exists h, l :: Pieces(b, r, h, l)
  }

  ghost predicate RecordBetween(file: Bytes, rs: seq<Record>, at: seq<nat>, i: nat)
    requires i < |rs| && |at| == |rs| + 1
  {
    at[i] < at[i + 1] <= |file| && IsRecord(file[at[i]..at[i + 1]], rs[i])
  }

  /** `file` is a byte 1 and then, between the positions `at`, one record after the other. */
  ghost predicate LaidOut(file: Bytes, rs: seq<Record>, at: seq<nat>) {
    && file != [] && file[0] == 1
    && |at| == |rs| + 1 && at[0] == 1 && at[|rs|] == |file|
    && forall i :: 0 <= i < |rs| ==> RecordBetween(file, rs, at, i)
  }

  ghost predicate Layout(file: Bytes, rs: seq<Record>) {
    exists at :: LaidOut(file, rs, at)
  }

  /** The files of the format are the encodings. */
  lemma LayoutExactly(file: Bytes, rs: seq<Record>)
    ensures Layout(file, rs) <==> file == Encode(rs)
  {
    hide LaidOut, Encode;
    if file == Encode(rs) {
      var at := EncodedIsLaidOut(rs);
    }
    if at :| LaidOut(file, rs, at) {
      LaidOutIsEncoded(file, rs, at);
    }
  }

  lemma IsRecordExactly(b: Bytes, r: Record)
    ensures IsRecord(b, r) <==> b == EncodeRecord(r)
  {
    hide Varint.Encode, Varint.Leb128;
    var head, length := Varint.Encode(Header(r)), Varint.Encode(|r.value|);
    Varint.EncodeIsLeb128(Header(r), head);
    Varint.EncodeIsLeb128(|r.value|, length);
    assert head + r.key + (length + r.value) == head + r.key + length + r.value;
    assert b == EncodeRecord(r) ==> Pieces(b, r, head, length);
    if h, l :| Pieces(b, r, h, l) {
      Varint.EncodeIsLeb128(Header(r), h);
      Varint.EncodeIsLeb128(|r.value|, l);
    }
  }

  lemma EncodedIsLaidOut(rs: seq<Record>) returns (at: seq<nat>)
    ensures LaidOut(Encode(rs), rs, at)
  {
    hide Varint.Encode, EncodeRecords, EncodeRecord, IsRecord;
    var file := Encode(rs);
    at := seq(|rs| + 1, i requires 0 <= i <= |rs| => |Encode(rs[..i])|);
    assert rs[..|rs|] == rs;
    FirstByte(rs);
    forall i | 0 <= i < |rs|
      ensures RecordBetween(file, rs, at, i)
    {
      RecordAt(rs, i);
      IsRecordExactly(EncodeRecord(rs[i]), rs[i]);
    }
  }

  lemma FirstByte(rs: seq<Record>)
    ensures Encode(rs)[0] == 1 && |Encode(rs[..0])| == 1
  {
    hide EncodeRecord;
    assert Varint.Encode(CURRENT_VERSION) == [1];
  }

  lemma RecordAt(rs: seq<Record>, i: nat)
    requires i < |rs|
    ensures |Encode(rs[..i])| < |Encode(rs[..i + 1])| <= |Encode(rs)|
    ensures Encode(rs)[|Encode(rs[..i])|..|Encode(rs[..i + 1])|] == EncodeRecord(rs[i])
    ensures Encode(rs[..i + 1]) == Encode(rs[..i]) + EncodeRecord(rs[i])
  {
    hide Varint.Encode, EncodeRecords, EncodeRecord;
    var version, before, record := Varint.Encode(CURRENT_VERSION), EncodeRecords(rs[..i]), EncodeRecord(rs[i]);
    EncodeRecordsStep(rs, i);
    assert rs == rs[..i + 1] + rs[i + 1..];
    EncodeRecordsAppend(rs[..i + 1], rs[i + 1..]);
    Regroup(version, before, record, [], []);
    assert Encode(rs) == version + before + record + EncodeRecords(rs[i + 1..]);
  }

  lemma LaidOutIsEncoded(file: Bytes, rs: seq<Record>, at: seq<nat>)
    requires LaidOut(file, rs, at)
    ensures file == Encode(rs)
  {
    hide Encode, LaidOut;
    PrefixIsEncoded(file, rs, at, |rs|);
    assert rs[..|rs|] == rs;
    assert at[|rs|] == |file| by {
      LaidOutEnds(file, rs, at);
    }
    assert file[..|file|] == file;
  }

  lemma LaidOutEnds(file: Bytes, rs: seq<Record>, at: seq<nat>)
    requires LaidOut(file, rs, at)
    ensures |at| == |rs| + 1 && at[|rs|] == |file|
  {
  }

  lemma {:induction false} PrefixIsEncoded(file: Bytes, rs: seq<Record>, at: seq<nat>, n: nat)
    requires LaidOut(file, rs, at) && n <= |rs|
    ensures at[n] <= |file| && file[..at[n]] == Encode(rs[..n])
  {
    hide Varint.Encode, EncodeRecords, EncodeRecord, Encode, IsRecord;
    if n == 0 {
      EncodeNone(rs);
      Varint.EncodeLast(1);
      assert file[..1] == [1];
    } else {
      assert RecordBetween(file, rs, at, n - 1);
      PrefixIsEncoded(file, rs, at, n - 1);
      IsRecordExactly(file[at[n - 1]..at[n]], rs[n - 1]);
      RecordAt(rs, n - 1);
      assert file[..at[n]] == file[..at[n - 1]] + file[at[n - 1]..at[n]];
    }
  }

  /** A record's first byte tells whether it is a tombstone. */
  lemma FirstByteTells(b: Bytes, r: Record)
    requires IsRecord(b, r)
    ensures b != [] && (b[0] % 2 == 1 <==> r.tombstone)
  {
    var h, l :| Pieces(b, r, h, l);
    Varint.GroupsHead(h);
    hide Varint.Groups, Varint.Terminated;
    assert b[0] == h[0];
    LowestBit(b[0], Varint.Groups(h[1..]), |r.key|, if r.tombstone then 1 else 0);
  }

  lemma LowestBit(low: nat, high: nat, length: nat, bit: nat)
    requires low % 0x80 + 0x80 * high == 2 * length + bit && bit < 2
    ensures low % 2 == bit
  {
  }

  /** The bytes of a record with a short key and a short value, one by one. */
  lemma ShortRecord(b: Bytes, r: Record)
    requires |r.key| < 64 && |r.value| < 128
    ensures IsRecord(b, r) <==>
            b == if r.tombstone then [2 * |r.key| + 1] + r.key else [2 * |r.key|] + r.key + [|r.value|] + r.value
  {
    IsRecordExactly(b, r);
    Varint.EncodeLast(Header(r));
    Varint.EncodeLast(|r.value|);
    hide Varint.Encode;
    if !r.tombstone {
      assert [2 * |r.key|] + r.key + ([|r.value|] + r.value) == [2 * |r.key|] + r.key + [|r.value|] + r.value;
    }
  }

  // ---- the writer ----

  /** ComputeSize is the length of the file, and no sum on the way leaves Go's int. */
  method ComputeSize(records: seq<Record>) returns (size: nat)
    requires |Encode(records)| <= MAX_INT
    ensures size == |Encode(records)|
  {
    var buf := new Byte[Varint.MAX_VARINT_LEN];
    size := Varint.PutUvarint(buf, CURRENT_VERSION);
    for i := 0 to |records|
      invariant size == 1 + |EncodeRecords(records[..i])|
    {
      EncodeRecordsStep(records, i);
      var r := records[i];
      var keyLen := ShiftedLength(|r.key|);
      if r.tombstone {
        keyLen := keyLen + 1;
      }
      var keyLenBytes := Varint.PutUvarint(buf, keyLen);
      size := size + keyLenBytes + |r.key|;
      if !r.tombstone {
        var valueLenBytes := Varint.PutUvarint(buf, |r.value|);
        size := size + valueLenBytes + |r.value|;
      }
    }
    assert records[..|records|] == records;
  }

  lemma Regroup(buf: Bytes, h: Bytes, k: Bytes, l: Bytes, v: Bytes)
    ensures buf + h + k == buf + (h + k + [])
    ensures buf + h + k + l + v == buf + (h + k + (l + v))
  {
  }

  /** The file of the first `i + 1` records is the file of the first `i`, followed by one more record. */
  lemma EncodeStep(rs: seq<Record>, i: nat)
    requires i < |rs| && |Encode(rs)| <= MAX_INT
    ensures Encode(rs[..i + 1]) == Encode(rs[..i]) + EncodeRecord(rs[i])
    ensures |rs[i].key| < MAX_INT && (!rs[i].tombstone ==> |rs[i].value| < MAX_INT)
  {
    EncodeRecordsStep(rs, i);
    Regroup(Varint.Encode(CURRENT_VERSION), EncodeRecords(rs[..i]), EncodeRecord(rs[i]), [], []);
  }

  lemma EncodeNone(rs: seq<Record>)
    ensures Encode(rs[..0]) == Varint.Encode(CURRENT_VERSION) == [] + Varint.Encode(CURRENT_VERSION)
  {
  }

  method WriteRecords(records: seq<Record>) returns (buf: Bytes)
    requires |Encode(records)| <= MAX_INT
    ensures buf == Encode(records) && Layout(buf, records)
  {
    hide Varint.Encode, EncodeRecords, Layout;
    LayoutExactly(Encode(records), records);
    EncodeNone(records);
    var size := ComputeSize(records);
    buf := Varint.AppendUvarint([], CURRENT_VERSION);
    for i := 0 to |records|
      invariant buf == Encode(records[..i])
    {
      EncodeStep(records, i);
      var r := records[i];
      Regroup(buf, Varint.Encode(Header(r)), r.key, Varint.Encode(|r.value|), r.value);
      var keyLen := ShiftedLength(|r.key|);
      if r.tombstone {
        keyLen := keyLen + 1;
      }
      buf := Varint.AppendUvarint(buf, keyLen);
      buf := buf + r.key;
      if !r.tombstone {
        buf := Varint.AppendUvarint(buf, |r.value|);
        buf := buf + r.value;
      }
    }
    assert records[..|records|] == records;
  }

  // ---- the reader ----

  /** The records yielded, and whether the iteration ended in an out-of-range slice. */
  datatype Scan = Scan(records: seq<Record>, panics: bool)

  /** The scan `s` after `rs` has been yielded already. */
  function After(rs: seq<Record>, s: Scan): Scan {
    Scan(rs + s.records, s.panics)
  }

  /** One record read at `pos`, and the position after it. */
  datatype Step = Stop | Panic | Next(record: Record, pos: nat)

  function ReadValue(data: Object, key: Key, pos: nat): (s: Step)
    requires pos <= |data|
    ensures s.Next? ==> pos < s.pos <= |data|
  {
    var len := Varint.Decode(data[pos..]);
    if len.n <= 0 then Stop else
    var start := pos + len.n;
    var end := Int64(start + Int64(len.value));
    if end > |data| then Stop
    else if end < start then Panic
    else Next(Record(key, data[start..end], false), end)
  }

  function ReadRecord(data: Object, pos: nat): (s: Step)
    requires pos <= |data|
    ensures s.Next? ==> pos < s.pos <= |data|
  {
    var len := Varint.Decode(data[pos..]);
    if len.n <= 0 then Stop else
    var start := pos + len.n;
    var end := Int64(start + len.value / 2);
    if end > |data| then Stop
    else if end < start then Panic
    else if len.value % 2 == 1 then Next(Record(data[start..end], [], true), end)
    else ReadValue(data, data[start..end], end)
  }

  function ScanFrom(data: Object, pos: nat): Scan
    requires pos <= |data|
    decreases |data| - pos
  {
    if pos == |data| then Scan([], false) else
    match ReadRecord(data, pos)
    case Stop => Scan([], false)
    case Panic => Scan([], true)
    case Next(r, next) => After([r], ScanFrom(data, next))
  }

  function ScanAll(data: Object): Scan {
    var version := Varint.Decode(data);
    if version.n <= 0 || version.value != CURRENT_VERSION then Scan([], false) else ScanFrom(data, version.n)
  }

  lemma ScanStep(rs: seq<Record>, data: Object, pos: nat)
    requires pos < |data|
    ensures After(rs, ScanFrom(data, pos)) ==
            match ReadRecord(data, pos)
            case Stop => Scan(rs, false)
            case Panic => Scan(rs, true)
            case Next(r, next) => After(rs + [r], ScanFrom(data, next))
  {
    match ReadRecord(data, pos)
    case Stop =>
    case Panic =>
    case Next(r, next) =>
      assert rs + ([r] + ScanFrom(data, next).records) == rs + [r] + ScanFrom(data, next).records;
  }

  /** The second half of a turn of the reader's loop: the value of a record that is no tombstone. */
  method ReadNextValue(data: Object, key: Key, pos: nat) returns (step: Step)
    requires pos <= |data|
    ensures step == ReadValue(data, key, pos)
  {
    var valueLen, bytesRead := Varint.Uvarint(data[pos..]);
    if bytesRead <= 0 {
      return Stop;
    }
    var start := pos + bytesRead;
    var end := Int64(start + Int64(valueLen));
    if end > |data| {
      return Stop;
    }
    if end < start {
      return Panic;
    }
    return Next(Record(key, data[start..end], false), end);
  }

  /** One turn of the reader's loop. */
  method ReadNext(data: Object, pos: nat) returns (step: Step)
    requires pos < |data|
    ensures step == ReadRecord(data, pos)
  {
    var keyLen, bytesRead := Varint.Uvarint(data[pos..]);
    if bytesRead <= 0 {
      return Stop;
    }
    var tombstone := keyLen % 2 != 0;
    var start := pos + bytesRead;
    var end := Int64(start + keyLen / 2);
    if end > |data| {
      return Stop;
    }
    if end < start {
      return Panic;
    }
    var key := data[start..end];
    if tombstone {
      return Next(Record(key, [], true), end);
    }
    step := ReadNextValue(data, key, end);
  }

  method Records(data: Object) returns (records: seq<Record>, panics: bool)
    ensures Scan(records, panics) == ScanAll(data)
  {
    records, panics := [], false;
    if |data| == 0 {
      return;
    }
    var version, n := Varint.Uvarint(data);
    if n <= 0 {
      return;
    }
    var pos: nat := n;
    if version != CURRENT_VERSION {
      return;
    }
    while pos < |data|
      invariant pos <= |data|
      invariant ScanAll(data) == After(records, ScanFrom(data, pos))
    {
      ScanStep(records, data, pos);
      var step := ReadNext(data, pos);
      match step
      case Stop =>
        return;
      case Panic =>
        panics := true;
        return;
      case Next(record, next) =>
        records := records + [record];
        pos := next;
    }
  }

  // ---- writer and reader against each other ----

  /** What a reader can see of a record: a tombstone's value is not written. */
  function Strip(r: Record): Record {
    if r.tombstone then r.(value := []) else r
  }

  function StripAll(rs: seq<Record>): (s: seq<Record>)
    ensures |s| == |rs| && forall i :: 0 <= i < |rs| ==> s[i] == Strip(rs[i])
  {
    seq(|rs|, i requires 0 <= i < |rs| => Strip(rs[i]))
  }

  lemma StripAllHead(rs: seq<Record>, m: nat)
    requires m < |rs|
    ensures StripAll(rs[..m + 1]) == [Strip(rs[0])] + StripAll(rs[1..][..m])
  {
  }

  /** How many leading records fit into `budget` bytes. */
  function Fit(rs: seq<Record>, budget: nat): (m: nat)
    ensures m <= |rs|
  {
    if rs == [] || |EncodeRecord(rs[0])| > budget then 0
    else 1 + Fit(rs[1..], budget - |EncodeRecord(rs[0])|)
  }

  /** `Fit` is the number of records that fit: those do, and one more does not. */
  lemma {:induction false} FitIsMaximal(rs: seq<Record>, budget: nat)
    ensures |EncodeRecords(rs[..Fit(rs, budget)])| <= budget
    ensures Fit(rs, budget) < |rs| ==> budget < |EncodeRecords(rs[..Fit(rs, budget) + 1])|
  {
    if rs == [] {
    } else if |EncodeRecord(rs[0])| > budget {
      assert rs[..1] == [rs[0]];
    } else {
      var m := Fit(rs[1..], budget - |EncodeRecord(rs[0])|);
      FitIsMaximal(rs[1..], budget - |EncodeRecord(rs[0])|);
      assert rs[..m + 1][1..] == rs[1..][..m];
      if m + 1 < |rs| {
        assert rs[..m + 2][1..] == rs[1..][..m + 1];
      }
    }
  }

  lemma {:induction false} AllFit(rs: seq<Record>)
    ensures Fit(rs, |EncodeRecords(rs)|) == |rs|
  {
    if rs != [] {
      AllFit(rs[1..]);
    }
  }

  /** A varint at `pos`, whole or cut off at the end of the data. */
  lemma VarintAt(data: Object, pos: nat, x: nat, rest: Bytes)
    requires x < TWO64 && pos <= |data|
    requires data[pos..] <= Varint.Encode(x) + rest
    ensures |data| - pos >= |Varint.Encode(x)| ==> Varint.Decode(data[pos..]) == Varint.Decoded(x, |Varint.Encode(x)|)
    ensures |data| - pos < |Varint.Encode(x)| ==> Varint.Decode(data[pos..]).n <= 0
  {
    var e := Varint.Encode(x);
    var tail := data[pos..];
    if |tail| >= |e| {
      assert tail == e + tail[|e|..];
      Varint.RoundTrip(x, tail[|e|..]);
    } else {
      assert tail == e[..|tail|];
      Varint.Truncated(x, |tail|);
    }
  }

  lemma ReadValueAt(data: Object, pos: nat, r: Record, rest: Bytes)
    requires !r.tombstone && pos <= |data|
    requires data[pos..] <= Varint.Encode(|r.value|) + (r.value + rest)
    requires pos + |Varint.Encode(|r.value|)| + |r.value| <= MAX_INT
    ensures var end := pos + |Varint.Encode(|r.value|)| + |r.value|;
            ReadValue(data, r.key, pos) == if end <= |data| then Next(r, end) else Stop
  {
    var e := Varint.Encode(|r.value|);
    VarintAt(data, pos, |r.value|, r.value + rest);
    if |data| - pos >= |e| + |r.value| {
      PieceAt(data, pos, e, r.value, rest);
    }
  }

  /** A piece that lies wholly in the data is read back as it was written. */
  lemma PieceAt(data: Bytes, pos: nat, before: Bytes, piece: Bytes, rest: Bytes)
    requires pos + |before| + |piece| <= |data|
    requires data[pos..] <= before + (piece + rest)
    ensures data[pos + |before|..pos + |before| + |piece|] == piece
    ensures data[pos + |before| + |piece|..] <= rest
  {
    var tail := data[pos..];
    assert tail == (before + (piece + rest))[..|tail|];
    assert tail[|before|..|before| + |piece|] == piece;
    assert tail[|before| + |piece|..] == rest[..|tail| - |before| - |piece|];
  }

  lemma BodyAt(data: Object, pos: nat, r: Record, rest: Bytes)
    requires !r.tombstone && pos <= |data| && data[pos..] <= Body(r) + rest
    requires pos + |Body(r)| <= MAX_INT
    ensures ReadValue(data, r.key, pos) == if pos + |Body(r)| <= |data| then Next(r, pos + |Body(r)|) else Stop
  {
    assert Body(r) + rest == Varint.Encode(|r.value|) + (r.value + rest);
    ReadValueAt(data, pos, r, rest);
  }

  /** At a record's first byte, with the record whole or cut short, the reader yields exactly it or stops. */
  lemma ReadRecordAt(data: Object, pos: nat, r: Record, rest: Bytes)
    requires pos <= |data| && data[pos..] <= EncodeRecord(r) + rest
    requires pos + |EncodeRecord(r)| <= MAX_INT
    ensures ReadRecord(data, pos) ==
        if pos + |EncodeRecord(r)| <= |data| then Next(Strip(r), pos + |EncodeRecord(r)|) else Stop
  {
    hide Varint.Decode, Varint.DecodeFrom, Int64, ReadValue, Varint.Encode;
    var head, body := Varint.Encode(Header(r)), Body(r);
    assert EncodeRecord(r) + rest == head + (r.key + (body + rest));
    VarintAt(data, pos, Header(r), r.key + (body + rest));
    if |data| - pos >= |head| + |r.key| {
      PieceAt(data, pos, head, r.key, body + rest);
      if !r.tombstone {
        BodyAt(data, pos + |head| + |r.key|, r, rest);
      }
    }
  }

  /** From any record boundary of a file cut anywhere: exactly the records that are wholly there. */
  lemma {:induction false} ScanPrefix(data: Object, pos: nat, rs: seq<Record>)
    requires pos <= |data| && data[pos..] <= EncodeRecords(rs)
    requires pos + |EncodeRecords(rs)| <= MAX_INT
    ensures ScanFrom(data, pos) == Scan(StripAll(rs[..Fit(rs, |data| - pos)]), false)
    decreases |rs|
  {
    hide Varint.Decode, Varint.DecodeFrom, Int64, ReadRecord, ReadValue, Varint.Encode;
    if rs != [] {
      var e, rest := EncodeRecord(rs[0]), EncodeRecords(rs[1..]);
      ReadRecordAt(data, pos, rs[0], rest);
      if pos + |e| <= |data| {
        PieceAt(data, pos, [], e, rest);
        ScanPrefix(data, pos + |e|, rs[1..]);
        StripAllHead(rs, Fit(rs[1..], |data| - pos - |e|));
      }
    }
  }

  /**
   A file cut after any number of bytes yields exactly the leading records whose whole
   encoding is there: never a partial record, never an altered one, never a panic.
   */
  lemma Truncation(rs: seq<Record>, n: nat)
    requires n <= |Encode(rs)| <= MAX_INT
    ensures ScanAll(Encode(rs)[..n]) == Scan(StripAll(rs[..if n == 0 then 0 else Fit(rs, n - 1)]), false)
  {
    var data: Object := Encode(rs)[..n];
    if n > 0 {
      VersionAt(data, EncodeRecords(rs));
      ScanPrefix(data, 1, rs);
    }
  }

  lemma VersionAt(data: Object, rest: Bytes)
    requires |data| > 0 && data <= Varint.Encode(CURRENT_VERSION) + rest
    ensures Varint.Decode(data) == Varint.Decoded(CURRENT_VERSION, 1)
    ensures data[1..] <= rest
  {
    assert Varint.Encode(CURRENT_VERSION) == [1];
    assert data == [1] + data[1..];
    Varint.RoundTrip(CURRENT_VERSION, data[1..]);
  }

  /** A whole file yields every record in order, tombstones without their value. */
  lemma RoundTrip(rs: seq<Record>)
    requires |Encode(rs)| <= MAX_INT
    ensures ScanAll(Encode(rs)) == Scan(StripAll(rs), false)
  {
    hide ScanAll, EncodeRecords, Fit, Varint.Encode;
    Varint.EncodeLast(CURRENT_VERSION);
    Truncation(rs, |Encode(rs)|);
    AllFit(rs);
    assert Encode(rs)[..|Encode(rs)|] == Encode(rs);
    assert rs[..|rs|] == rs;
  }

  /** Read back: any file laid out as the format says, whoever wrote it. */
  lemma ReadsLayout(file: Object, rs: seq<Record>)
    requires Layout(file, rs)
    ensures ScanAll(file) == Scan(StripAll(rs), false)
  {
    hide Layout, Encode;
    LayoutExactly(file, rs);
    RoundTrip(rs);
  }

  // ---- the reader on any bytes ----

  /** Where a piece that starts at `start` and has `length` bytes leads the reader. */
  datatype Reach = Inside | PastTheData | PastInt

  function ReachOf(data: Object, start: nat, length: nat): Reach {
    if start + length <= |data| then Inside
    else if start + length < 0x8000_0000_0000_0000 then PastTheData
    else PastInt
  }

  /**
   Without the wrap-around: a length that reaches past the data ends the iteration silently, one
   that reaches past Go's int slices out of range, and one that does neither yields the record.
   */
  lemma {:induction false} ReadMeans(data: Object, pos: nat)
    requires pos <= |data|
    ensures var h := Varint.Decode(data[pos..]);
            var key := pos + h.n;
            ReadRecord(data, pos) ==
                if h.n <= 0 then Stop else
                match ReachOf(data, key, h.value / 2)
                case PastTheData => Stop
                case PastInt => Panic
                case Inside =>
                  var end := key + h.value / 2;
                  var l := Varint.Decode(data[end..]);
                  if h.value % 2 == 1 then Next(Record(data[key..end], [], true), end)
                  else if l.n <= 0 then Stop else
                  match ReachOf(data, end + l.n, l.value)
                  case PastTheData => Stop
                  case PastInt => Panic
                  case Inside =>
                    Next(Record(data[key..end], data[end + l.n..end + l.n + l.value], false), end + l.n + l.value)
  {
    hide Varint.Decode;
    Varint.DecodedFits(data[pos..]);
    var h := Varint.Decode(data[pos..]);
    if h.n > 0 && pos + h.n + h.value / 2 <= |data| {
      Varint.DecodedFits(data[pos + h.n + h.value / 2..]);
    }
  }

  /** A file whose first byte is a version other than 1 yields nothing. */
  lemma OtherVersion(data: Object)
    requires data != [] && data[0] < 0x80 && data[0] != 1
    ensures ScanAll(data) == Scan([], false)
  {
  }

  /** A record header may claim a key that reaches past Go's int; the reader then slices out of range. */
  lemma LengthPastInt(rest: Bytes)
    requires |rest| < 0x1000
    ensures ScanAll([1] + Varint.Encode(0xFFFF_FFFF_FFFF_FFFE) + rest) == Scan([], true)
  {
    var header := Varint.Encode(0xFFFF_FFFF_FFFF_FFFE);
    Varint.RoundTrip(0xFFFF_FFFF_FFFF_FFFE, rest);
    hide Varint.Encode, Varint.Decode, Varint.DecodeFrom;
    var data := [1] + header + rest;
    VersionAt(data, header + rest) by {
      Varint.EncodeLast(1);
      assert data == [1] + (header + rest);
    }
    assert data[1..] == header + rest;
    ReadMeans(data, 1);
    hide ReadRecord;
  }
}
