/** The reader of stored archives: it walks the local records up to the central
    directory, and gets back from an archive exactly the entries written. */
module ZipReader {
  import opened Wrappers
  import opened ZipFormat

  /** A failed assertion or a read past the end of the buffer. */
  datatype ReadError = Malformed

  /** The checks on one local header; they cover every field the reader looks at. */
  predicate GoodHeader(b: Bytes, o: nat)
    requires o + 4 <= |b|
  {
    && o + 30 <= |b|
    && U16At(b, o + 6) == UTF8_FLAG && U16At(b, o + 8) == STORE_METHOD
    && U16At(b, o + 10) == FIXED_DOS_TIME && U16At(b, o + 12) == FIXED_DOS_DATE
    && U32At(b, o + 18) == U32At(b, o + 22)
    && DataEnd(b, o) <= |b|
  }

  function DataStart(b: Bytes, o: nat): (r: nat)
    requires o + 30 <= |b|
    ensures r >= o + 30
  {
    o + 30 + U16At(b, o + 26) + U16At(b, o + 28)
  }

  function DataEnd(b: Bytes, o: nat): (r: nat)
    requires o + 30 <= |b|
    ensures r >= DataStart(b, o)
  {
    DataStart(b, o) + U32At(b, o + 22)
  }

  predicate AtLocalRecord(b: Bytes, o: nat) {
    o + 4 <= |b| && U32At(b, o) == LOCAL_SIGNATURE
  }

  function EntryAt(b: Bytes, o: nat): Entry
    requires o + 4 <= |b| && GoodHeader(b, o)
  {
    Entry(b[o + 30..o + 30 + U16At(b, o + 26)], b[DataStart(b, o)..DataEnd(b, o)])
  }

  /** The entries from offset o on. */
  function EntriesFrom(b: Bytes, o: nat): Result<seq<Entry>, ReadError>
    decreases |b| - o
  {
    if AtLocalRecord(b, o) then
      if !GoodHeader(b, o) then Err(Malformed)
      else
        var rest :- EntriesFrom(b, DataEnd(b, o));
        Ok([EntryAt(b, o)] + rest)
    else if o + 4 <= |b| && U32At(b, o) == CENTRAL_SIGNATURE then Ok([])
    else Err(Malformed)
  }

  function Prefixed(es: seq<Entry>, r: Result<seq<Entry>, ReadError>): Result<seq<Entry>, ReadError> {
    match r
    case Ok(rest) => Ok(es + rest)
    case Err(e) => Err(e)
  }

  /** The reader's loop over the local records. */
  method ParseStoreZipEntries(bytes: Bytes) returns (r: Result<seq<Entry>, ReadError>)
    ensures r == EntriesFrom(bytes, 0)
  {
    hide U16At, U32At;
    var entries: seq<Entry>, offset: nat := [], 0;
    if EntriesFrom(bytes, 0).Ok? { assert [] + EntriesFrom(bytes, 0).value == EntriesFrom(bytes, 0).value; }
    while AtLocalRecord(bytes, offset)
      invariant EntriesFrom(bytes, 0) == Prefixed(entries, EntriesFrom(bytes, offset))
      decreases |bytes| - offset
    {
      if !GoodHeader(bytes, offset) { return Err(Malformed); }
      ghost var rest := EntriesFrom(bytes, DataEnd(bytes, offset));
      if rest.Ok? {
        assert entries + ([EntryAt(bytes, offset)] + rest.value) == entries + [EntryAt(bytes, offset)] + rest.value;
      }
      entries := entries + [EntryAt(bytes, offset)];
      offset := DataEnd(bytes, offset);
    }
    assert entries + [] == entries;
    if offset + 4 <= |bytes| && U32At(bytes, offset) == CENTRAL_SIGNATURE {
      return Ok(entries);
    }
    return Err(Malformed);
  }

  // ------------------------------------------------------------ what is accepted

  /** A local record at o, with the fields that every entry must have, and its content
      up to end. */
  ghost predicate ReadsEntry(b: Bytes, o: nat, end: nat, e: Entry) {
    && o + 30 <= |b| && U32At(b, o) == 0x0403_4B50
    && U16At(b, o + 6) == 0x0800 && U16At(b, o + 8) == 0 && U16At(b, o + 10) == 0 && U16At(b, o + 12) == 33
    && U32At(b, o + 18) == U32At(b, o + 22) == |e.data| && U16At(b, o + 26) == |e.name|
    && end == o + 30 + |e.name| + U16At(b, o + 28) + |e.data| <= |b|
    && b[o + 30..o + 30 + |e.name|] == e.name && b[end - |e.data|..end] == e.data
  }

  /** Good records from the first offset to the last, where a central record starts. */
  ghost predicate Chain(b: Bytes, offsets: seq<nat>, es: seq<Entry>) {
    && |offsets| == |es| + 1
    && (forall i :: 0 <= i < |es| ==> ReadsEntry(b, offsets[i], offsets[i + 1], es[i]))
    && offsets[|es|] + 4 <= |b| && U32At(b, offsets[|es|]) == 0x0201_4B50
  }

  lemma EntryReads(b: Bytes, o: nat)
    requires AtLocalRecord(b, o)
    ensures GoodHeader(b, o) ==> ReadsEntry(b, o, DataEnd(b, o), EntryAt(b, o))
    ensures forall end, e :: ReadsEntry(b, o, end, e) ==> GoodHeader(b, o) && end == DataEnd(b, o) && e == EntryAt(b, o)
  {
    hide U16At, U32At;
  }

  lemma {:induction false} ReaderChain(b: Bytes, o: nat) returns (offsets: seq<nat>)
    requires EntriesFrom(b, o).Ok?
    ensures Chain(b, offsets, EntriesFrom(b, o).value) && offsets[0] == o
    decreases |b| - o
  {
    hide U16At, U32At, ReadsEntry;
    offsets := [o];
    if AtLocalRecord(b, o) {
      EntryReads(b, o);
      offsets := ReaderChain(b, DataEnd(b, o));
      ChainMore(b, o, EntryAt(b, o), offsets, EntriesFrom(b, DataEnd(b, o)).value);
      offsets := [o] + offsets;
    }
  }

  lemma ChainMore(b: Bytes, o: nat, e: Entry, offsets: seq<nat>, es: seq<Entry>)
    requires Chain(b, offsets, es) && ReadsEntry(b, o, offsets[0], e)
    ensures Chain(b, [o] + offsets, [e] + es)
  {
    hide U16At, U32At, ReadsEntry;
    forall i | 0 <= i < |es| + 1 ensures ReadsEntry(b, ([o] + offsets)[i], ([o] + offsets)[i + 1], ([e] + es)[i]) {
      if i > 0 {
        assert ReadsEntry(b, offsets[i - 1], offsets[i], es[i - 1]);
      }
    }
  }

  lemma {:induction false} ChainReads(b: Bytes, offsets: seq<nat>, es: seq<Entry>)
    requires Chain(b, offsets, es)
    ensures EntriesFrom(b, offsets[0]) == Ok(es)
    decreases |es|
  {
    hide U16At, U32At;
    if es != [] {
      assert ReadsEntry(b, offsets[0], offsets[1], es[0]);
      EntryReads(b, offsets[0]);
      hide ReadsEntry;
      forall i | 0 <= i < |es| - 1 ensures ReadsEntry(b, offsets[1..][i], offsets[1..][i + 1], es[1..][i]) {
        assert ReadsEntry(b, offsets[i + 1], offsets[i + 2], es[i + 1]);
      }
      ChainReads(b, offsets[1..], es[1..]);
      assert es == [es[0]] + es[1..];
    }
  }

  /** The reader answers some entries exactly when records of just these entries stand one
      after the other from the start of the bytes to a central record. */
  lemma ReaderAccepts(b: Bytes, es: seq<Entry>)
    ensures EntriesFrom(b, 0) == Ok(es) <==> exists offsets :: Chain(b, offsets, es) && offsets[0] == 0
  {
    hide EntriesFrom, ReadsEntry;
    if EntriesFrom(b, 0) == Ok(es) {
      var offsets := ReaderChain(b, 0);
    }
    forall offsets | Chain(b, offsets, es) && offsets[0] == 0 ensures EntriesFrom(b, 0) == Ok(es) {
      ChainReads(b, offsets, es);
    }
  }

  // ----------------------------------------------------------------- round trip

  /** The fields of a local record, wherever it stands. */
  lemma ReadsFields(pre: Bytes, e: Entry, post: Bytes)
    requires Fits(e)
    ensures var b, o := pre + LocalHeader(e) + (e.name + e.data + post), |pre|;
            && U32At(b, o) == 0x0403_4B50 && U16At(b, o + 4) == 20 && U16At(b, o + 6) == 0x0800
            && U16At(b, o + 8) == 0 && U16At(b, o + 10) == 0 && U16At(b, o + 12) == 33
            && U32At(b, o + 14) == CrcField(e.data) && U32At(b, o + 18) == |e.data| && U32At(b, o + 22) == |e.data|
            && U16At(b, o + 26) == |e.name| && U16At(b, o + 28) == 0
  {
    LocalFields(e);
    var h, tail := LocalHeader(e), e.name + e.data + post;
    hide LocalHeader, U16At, U32At, CrcField;
    Shift32(pre, h, tail, 0);
    Shift16(pre, h, tail, 4);
    Shift16(pre, h, tail, 6);
    Shift16(pre, h, tail, 8);
    Shift16(pre, h, tail, 10);
    Shift16(pre, h, tail, 12);
    Shift32(pre, h, tail, 14);
    Shift32(pre, h, tail, 18);
    Shift32(pre, h, tail, 22);
    Shift16(pre, h, tail, 26);
    Shift16(pre, h, tail, 28);
  }

  /** The fields of a local header that are the same in every archive. */
  predicate LocalConstants(b: Bytes, o: nat)
    requires o + 30 <= |b|
  {
    && U32At(b, o) == 0x0403_4B50 && U16At(b, o + 4) == 20 && U16At(b, o + 6) == 0x0800 && U16At(b, o + 8) == 0
    && U16At(b, o + 10) == 0 && U16At(b, o + 12) == 33 && U16At(b, o + 28) == 0
  }

  /** Those of a central header. */
  predicate CentralConstants(b: Bytes, c: nat)
    requires c + 46 <= |b|
  {
    && U32At(b, c) == 0x0201_4B50 && U16At(b, c + 4) == 0x0314 && U16At(b, c + 6) == 20 && U16At(b, c + 8) == 0x0800
    && U16At(b, c + 10) == 0 && U16At(b, c + 12) == 0 && U16At(b, c + 14) == 33 && U16At(b, c + 30) == 0
    && U16At(b, c + 32) == 0 && U16At(b, c + 34) == 0 && U16At(b, c + 36) == 0 && U32At(b, c + 38) == 0x81A4_0000
  }

  lemma RecordSplits(pre: Bytes, e: Entry, post: Bytes)
    ensures pre + LocalRecord(e) + post == pre + LocalHeader(e) + (e.name + e.data + post)
  {
    hide LocalHeader;
  }

  /** A local record is read as its entry, wherever it stands. */
  lemma ReadsRecord(pre: Bytes, e: Entry, post: Bytes)
    requires Fits(e)
    ensures var b := pre + LocalRecord(e) + post;
            && AtLocalRecord(b, |pre|) && GoodHeader(b, |pre|)
            && EntryAt(b, |pre|) == e && DataEnd(b, |pre|) == |pre| + |LocalRecord(e)|
            && LocalConstants(b, |pre|) && U32At(b, |pre| + 14) == CrcField(e.data)
  {
    RecordSplits(pre, e, post);
    ReadsFields(pre, e, post);
    NameAndData(pre, LocalHeader(e), e.name, e.data, post);
    hide LocalHeader, LocalRecord, U16At, U32At, CrcField;
  }

  lemma NameAndData(pre: Bytes, h: Bytes, name: Bytes, data: Bytes, post: Bytes)
    ensures var b := pre + h + (name + data + post);
            var o := |pre| + |h|;
            && b[o..o + |name|] == name
            && b[o + |name|..o + |name| + |data|] == data
  {
  }

  /** Everything of the archive after its k-th local record. */
  ghost function Rest(es: seq<Entry>, k: nat): Bytes
    requires k < |es|
  {
    Flatten(LocalRecords(es)[k + 1..]) + (Flatten(CentralRecords(es)) + EndRecord(|es|, CentralSize(es), LocalSize(es)))
  }

  lemma ArchiveAroundLocal(es: seq<Entry>, k: nat)
    requires k < |es|
    ensures Archive(es) == Flatten(LocalRecords(es)[..k]) + LocalRecord(es[k]) + Rest(es, k)
    ensures |Flatten(LocalRecords(es)[..k])| == LocalOffset(es, k)
  {
    RegionSizes(es, k);
    var rs := LocalRecords(es);
    FlattenSplit(rs, k + 1);
    FlattenPrefix(rs, k);
    hide Flatten, CentralRecords, EndRecord, LocalRecord;
    Regroup(Flatten(rs[..k]) + rs[k], Flatten(rs[k + 1..]), Flatten(CentralRecords(es)),
            EndRecord(|es|, CentralSize(es), LocalSize(es)));
  }

  lemma Regroup(a: Bytes, b: Bytes, c: Bytes, d: Bytes)
    ensures a + b + c + d == a + (b + (c + d))
  {
  }

  /** The k-th local record stands at its offset and holds the k-th entry. */
  lemma LocalAt(es: seq<Entry>, k: nat)
    requires Archivable(es) && k < |es|
    ensures var a, o := Archive(es), LocalOffset(es, k);
            && AtLocalRecord(a, o) && GoodHeader(a, o) && EntryAt(a, o) == es[k] && LocalConstants(a, o)
            && U32At(a, o + 14) == CrcField(es[k].data) && DataEnd(a, o) == LocalOffset(es, k + 1)
  {
    ArchivableFits(es, k);
    ArchiveAroundLocal(es, k);
    SizeSteps(es, k);
    var pre, post := Flatten(LocalRecords(es)[..k]), Rest(es, k);
    hide Archive, Flatten, U32At, EntryAt, GoodHeader, AtLocalRecord, DataEnd, CrcField, Rest, LocalConstants;
    ReadsRecord(pre, es[k], post);
  }

  /** Everything of the archive before its central directory. */
  lemma ArchiveAroundCentral(es: seq<Entry>, k: nat) returns (pre: Bytes, post: Bytes)
    requires k < |es|
    ensures Archive(es) == pre + CentralHeader(es[k], LocalOffset(es, k)) + (es[k].name + post)
    ensures |pre| == CentralOffset(es, k)
  {
    ArchiveParts(es, k);
    RegionSizes(es, k);
    RegionSizes(es, |es|);
    hide Archive, Flatten, CentralRecords, LocalRecords, EndRecord, CentralHeader, CentralRecord, LocalRecord;
    hide LocalOffset;
    var ls, rs := LocalRecords(es), CentralRecords(es);
    FlattenSplit(rs, k + 1);
    FlattenPrefix(rs, k);
    var end := EndRecord(|es|, CentralSize(es), LocalSize(es));
    pre := Flatten(ls) + Flatten(rs[..k]);
    post := Flatten(rs[k + 1..]) + end;
    Regroup6(Flatten(ls), Flatten(rs[..k]), CentralHeader(es[k], LocalOffset(es, k)), es[k].name, Flatten(rs[k + 1..]),
             end);
  }

  lemma ArchiveParts(es: seq<Entry>, k: nat)
    requires k < |es|
    ensures LocalRecords(es)[..|es|] == LocalRecords(es) && es[..|es|] == es
    ensures CentralRecords(es)[k] == CentralHeader(es[k], LocalOffset(es, k)) + es[k].name
    ensures Archive(es)
         == Flatten(LocalRecords(es)) + Flatten(CentralRecords(es)) + EndRecord(|es|, CentralSize(es), LocalSize(es))
  {
    assert CentralRecords(es)[k] == CentralRecord(es[k], LocalOffset(es, k));
    assert LocalRecords(es)[..|es|] == LocalRecords(es);
    hide CentralHeader, LocalOffset, Flatten, EndRecord, CentralRecords, LocalRecords;
  }

  lemma Regroup6(a: Bytes, b: Bytes, c: Bytes, d: Bytes, e: Bytes, f: Bytes)
    ensures a + ((b + (c + d)) + e) + f == (a + b) + c + (d + (e + f))
  {
  }

  /** Where the k-th central record starts. */
  function CentralOffset(es: seq<Entry>, k: nat): nat
    requires k <= |es|
  {
    LocalSize(es) + CentralSize(es[..k])
  }

  lemma HeaderInside(pre: Bytes, e: Entry, offset: nat, post: Bytes)
    requires Fits(e) && offset < 0x1_0000_0000
    ensures var a, c := pre + CentralHeader(e, offset) + (e.name + post), |pre|;
            && c + 46 + |e.name| <= |a| && CentralConstants(a, c)
            && U32At(a, c + 16) == CrcField(e.data) && U32At(a, c + 20) == |e.data| && U32At(a, c + 24) == |e.data|
            && U16At(a, c + 28) == |e.name| && U32At(a, c + 42) == offset
            && a[c + 46..c + 46 + |e.name|] == e.name
  {
    CentralFields(e, offset);
    var h, tail := CentralHeader(e, offset), e.name + post;
    hide CentralHeader, U32At, U16At, CrcField;
    ConstantsInside(pre, e, offset, tail);
    Shift32(pre, h, tail, 16);
    Shift32(pre, h, tail, 20);
    Shift32(pre, h, tail, 24);
    Shift16(pre, h, tail, 28);
    Shift32(pre, h, tail, 42);
    NameAfter(pre, h, e.name, post);
    hide CentralConstants;
  }

  lemma ConstantsInside(pre: Bytes, e: Entry, offset: nat, tail: Bytes)
    ensures CentralConstants(pre + CentralHeader(e, offset) + tail, |pre|)
  {
    FixedCentralFields(e, offset);
    var h := CentralHeader(e, offset);
    hide CentralHeader, U32At, U16At;
    Shift32(pre, h, tail, 0);
    Shift16(pre, h, tail, 4);
    Shift16(pre, h, tail, 6);
    Shift16(pre, h, tail, 8);
    Shift16(pre, h, tail, 10);
    Shift16(pre, h, tail, 12);
    Shift16(pre, h, tail, 14);
    Shift16(pre, h, tail, 30);
    Shift16(pre, h, tail, 32);
    Shift16(pre, h, tail, 34);
    Shift16(pre, h, tail, 36);
    Shift32(pre, h, tail, 38);
  }

  lemma NameAfter(pre: Bytes, h: Bytes, name: Bytes, post: Bytes)
    ensures (pre + h + (name + post))[|pre| + |h|..|pre| + |h| + |name|] == name
  {
  }

  lemma EntrySizes(b: Bytes, o: nat)
    requires o + 4 <= |b| && GoodHeader(b, o)
    ensures |EntryAt(b, o).name| == U16At(b, o + 26) && |EntryAt(b, o).data| == U32At(b, o + 22) == U32At(b, o + 18)
    ensures o + 30 + |EntryAt(b, o).name| + |EntryAt(b, o).data| <= |b|
    ensures EntryAt(b, o).name == b[o + 30..o + 30 + |EntryAt(b, o).name|]
    ensures var start := o + 30 + |EntryAt(b, o).name|;
            U16At(b, o + 28) == 0 ==> EntryAt(b, o).data == b[start..start + |EntryAt(b, o).data|]
  {
  }

  /** Both headers of an entry have the fixed fields that section 4.3 of APPNOTE.TXT gives
      them, its checksum, sizes and name; the central one, at c, points at the local one,
      at o, which the content follows. */
  ghost predicate Describes(a: Bytes, o: nat, c: nat, e: Entry) {
    && o + 30 + |e.name| + |e.data| <= |a| && c + 46 + |e.name| <= |a|
    && LocalConstants(a, o) && CentralConstants(a, c) && U32At(a, c + 42) == o
    && U32At(a, o + 14) == U32At(a, c + 16) == CrcField(e.data)
    && U32At(a, o + 18) == U32At(a, o + 22) == U32At(a, c + 20) == U32At(a, c + 24) == |e.data|
    && U16At(a, o + 26) == U16At(a, c + 28) == |e.name|
    && a[o + 30..o + 30 + |e.name|] == a[c + 46..c + 46 + |e.name|] == e.name
    && a[o + 30 + |e.name|..o + 30 + |e.name| + |e.data|] == e.data
  }

  /** The k-th central record agrees with the local record it points at. */
  lemma CentralPointsAtLocal(es: seq<Entry>, k: nat)
    requires Archivable(es) && k < |es|
    ensures Describes(Archive(es), LocalOffset(es, k), CentralOffset(es, k), es[k])
  {
    hide Archive, CentralHeader, U32At, U16At, CentralOffset, LocalOffset, CrcField, EntryAt, GoodHeader;
    hide CentralConstants;
    LocalAt(es, k);
    EntrySizes(Archive(es), LocalOffset(es, k));
    ArchivableFits(es, k);
    var pre, post := ArchiveAroundCentral(es, k);
    HeaderInside(pre, es[k], LocalOffset(es, k), post);
  }

  lemma ArchiveEnd(es: seq<Entry>) returns (pre: Bytes)
    ensures Archive(es) == pre + EndRecord(|es|, CentralSize(es), LocalSize(es)) + []
    ensures |pre| == CentralOffset(es, |es|)
  {
    RegionSizes(es, |es|);
    var ls, rs := LocalRecords(es), CentralRecords(es);
    assert ls[..|es|] == ls && rs[..|es|] == rs && es[..|es|] == es;
    hide LocalRecords, CentralRecords, Flatten, EndRecord;
    pre := Flatten(ls) + Flatten(rs);
    Unit3(pre, EndRecord(|es|, CentralSize(es), LocalSize(es)));
  }

  lemma Unit3(a: Bytes, b: Bytes)
    ensures a + b + [] == a + b
  {
  }

  /** The end record at z closes the archive; it gives the count, size and start of the
      directory before it. */
  ghost predicate EndsWith(a: Bytes, start: nat, z: nat, count: nat) {
    && |a| == z + 22 && U32At(a, z) == 0x0605_4B50 && U16At(a, z + 4) == 0 && U16At(a, z + 6) == 0
    && U16At(a, z + 8) == count && U16At(a, z + 10) == count && U32At(a, z + 12) == z - start
    && U32At(a, z + 16) == start && U16At(a, z + 20) == 0
  }

  /** The end record closes the archive and describes the directory before it. */
  lemma EndDescribesDirectory(es: seq<Entry>)
    requires Archivable(es)
    ensures EndsWith(Archive(es), CentralOffset(es, 0), CentralOffset(es, |es|), |es|)
  {
    assert es[..|es|] == es;
    var pre := ArchiveEnd(es);
    EndFields(|es|, CentralSize(es), LocalSize(es));
    var end := EndRecord(|es|, CentralSize(es), LocalSize(es));
    assert CentralOffset(es, 0) == LocalSize(es);
    assert CentralOffset(es, |es|) == LocalSize(es) + CentralSize(es);
    hide EndRecord, U32At, U16At, Archive, CentralOffset, LocalSize, CentralSize;
    Shift32(pre, end, [], 0);
    Shift16(pre, end, [], 4);
    Shift16(pre, end, [], 6);
    Shift16(pre, end, [], 20);
    Shift16(pre, end, [], 8);
    Shift16(pre, end, [], 10);
    Shift32(pre, end, [], 12);
    Shift32(pre, end, [], 16);
  }

  /** Reading from the k-th local record on yields the remaining entries. */
  lemma {:induction false} ReadsFrom(es: seq<Entry>, k: nat)
    requires Archivable(es) && es != [] && k <= |es|
    ensures EntriesFrom(Archive(es), LocalOffset(es, k)) == Ok(es[k..])
    decreases |es| - k
  {
    hide Archive, U32At, EntryAt, GoodHeader, DataEnd, CrcField, LocalSize;
    if k == |es| {
      CentralPointsAtLocal(es, 0);
      assert es[..|es|] == es;
      assert CentralOffset(es, 0) == LocalOffset(es, |es|) by { EmptySizes(es); }
    } else {
      LocalAt(es, k);
      ReadsFrom(es, k + 1);
      assert es[k..] == [es[k]] + es[k + 1..];
    }
  }

  lemma EmptySizes(es: seq<Entry>)
    ensures CentralSize(es[..0]) == 0 && LocalSize(es[..0]) == 0
  {
  }

  /** The reader recovers the entries of every archive, in order. */
  lemma ArchiveRoundTrip(es: seq<Entry>)
    requires Archivable(es) && es != []
    ensures EntriesFrom(Archive(es), 0) == Ok(es)
  {
    hide Archive, EntriesFrom;
    EmptySizes(es);
    ReadsFrom(es, 0);
    assert es[0..] == es;
  }

  /** Distinct entry lists have distinct archives. */
  lemma ArchiveInjective(es: seq<Entry>, fs: seq<Entry>)
    requires Archivable(es) && es != [] && Archivable(fs) && fs != []
    requires Archive(es) == Archive(fs)
    ensures es == fs
  {
    hide Archive, EntriesFrom;
    ArchiveRoundTrip(es);
    ArchiveRoundTrip(fs);
  }
}
