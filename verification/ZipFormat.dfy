/** The byte layout of a stored ZIP archive: local records, central directory and
    end record (APPNOTE.TXT sections 4.3.7, 4.3.12 and 4.3.16). */
module ZipFormat {
  import opened Crc

  type Bytes = seq<Byte>

  /** A file of the archive: the bytes of its name and its content. */
  datatype Entry = Entry(name: Bytes, data: Bytes)

  const LOCAL_SIGNATURE: nat := 0x0403_4B50
  const CENTRAL_SIGNATURE: nat := 0x0201_4B50
  const EOCD_SIGNATURE: nat := 0x0605_4B50
  const VERSION_NEEDED: nat := 20
  const VERSION_MADE_BY_UNIX: nat := 0x0314
  const UTF8_FLAG: nat := 0x0800
  const STORE_METHOD: nat := 0
  const FIXED_DOS_TIME: nat := 0
  const FIXED_DOS_DATE: nat := 33
  const REGULAR_FILE_ATTRS: nat := 0x81A4_0000

  // ------------------------------------------------------------- little endian

  /** The low 16 or 32 bits of a number, least significant byte first. */
  function LE16(v: nat): (r: Bytes)
    ensures |r| == 2
  {
    [v % 256, v / 256 % 256]
  }

  function LE32(v: nat): (r: Bytes)
    ensures |r| == 4
  {
    [v % 256, v / 256 % 256, v / 0x1_0000 % 256, v / 0x100_0000 % 256]
  }

  function U16At(b: Bytes, o: nat): nat
    requires o + 2 <= |b|
  {
    (b[o] as int) + 256 * (b[o + 1] as int)
  }

  function U32At(b: Bytes, o: nat): nat
    requires o + 4 <= |b|
  {
    (b[o] as int) + 256 * (b[o + 1] as int) + 0x1_0000 * (b[o + 2] as int) + 0x100_0000 * (b[o + 3] as int)
  }

  lemma Bytes32(v: nat)
    requires v < 0x1_0000_0000
    ensures v % 256 + 256 * (v / 256 % 256) + 0x1_0000 * (v / 0x1_0000 % 256) + 0x100_0000 * (v / 0x100_0000 % 256) == v
  {
    var q := v / 256;
    var p := v / 0x1_0000;
    assert v == 256 * q + v % 256;
    assert p == q / 256 && q == 256 * p + q % 256;
    assert v / 0x100_0000 == p / 256 && p == 256 * (p / 256) + p % 256;
  }

  // ------------------------------------------------------------------- records

  function CrcField(data: Bytes): (r: nat)
    ensures r < 0x1_0000_0000
  {
    CrcOf(data) as int
  }

  function LocalHeader(e: Entry): (r: Bytes)
    ensures |r| == 30
  {
    LE32(LOCAL_SIGNATURE) + LE16(VERSION_NEEDED) + LE16(UTF8_FLAG) + LE16(STORE_METHOD)
    + LE16(FIXED_DOS_TIME) + LE16(FIXED_DOS_DATE) + LE32(CrcField(e.data))
    + LE32(|e.data|) + LE32(|e.data|) + LE16(|e.name|) + LE16(0)
  }

  function LocalRecord(e: Entry): (r: Bytes)
    ensures |r| == 30 + |e.name| + |e.data|
  {
    LocalHeader(e) + e.name + e.data
  }

  function CentralHeader(e: Entry, offset: nat): (r: Bytes)
    ensures |r| == 46
  {
    LE32(CENTRAL_SIGNATURE) + LE16(VERSION_MADE_BY_UNIX) + LE16(VERSION_NEEDED) + LE16(UTF8_FLAG)
    + LE16(STORE_METHOD) + LE16(FIXED_DOS_TIME) + LE16(FIXED_DOS_DATE) + LE32(CrcField(e.data))
    + LE32(|e.data|) + LE32(|e.data|) + LE16(|e.name|) + LE16(0) + LE16(0) + LE16(0) + LE16(0)
    + LE32(REGULAR_FILE_ATTRS) + LE32(offset)
  }

  function CentralRecord(e: Entry, offset: nat): (r: Bytes)
    ensures |r| == 46 + |e.name|
  {
    CentralHeader(e, offset) + e.name
  }

  function EndRecord(count: nat, size: nat, offset: nat): (r: Bytes)
    ensures |r| == 22
  {
    LE32(EOCD_SIGNATURE) + LE16(0) + LE16(0) + LE16(count) + LE16(count) + LE32(size) + LE32(offset) + LE16(0)
  }

  // ------------------------------------------------------------------- regions

  /** Records side by side. */
  function Flatten<T>(rs: seq<seq<T>>): seq<T>
    decreases |rs|
  {
    if rs == [] then [] else Flatten(rs[..|rs| - 1]) + rs[|rs| - 1]
  }

  lemma FlattenPrefix<T>(rs: seq<seq<T>>, k: nat)
    requires k < |rs|
    ensures Flatten(rs[..k + 1]) == Flatten(rs[..k]) + rs[k]
  {
    assert rs[..k + 1][..k] == rs[..k];
  }

  lemma {:induction false} FlattenSplit<T>(rs: seq<seq<T>>, k: nat)
    requires k <= |rs|
    ensures Flatten(rs) == Flatten(rs[..k]) + Flatten(rs[k..])
    decreases |rs|
  {
    if k == |rs| {
      assert rs[..k] == rs && rs[k..] == [];
    } else {
      var init := rs[..|rs| - 1];
      FlattenSplit(init, k);
      assert init[..k] == rs[..k];
      assert rs[k..][..|rs| - 1 - k] == init[k..];
    }
  }

  /** The sizes of the local region and of the central directory. */
  function LocalSize(es: seq<Entry>): nat
    decreases |es|
  {
    if es == [] then 0 else LocalSize(es[..|es| - 1]) + 30 + |es[|es| - 1].name| + |es[|es| - 1].data|
  }

  function CentralSize(es: seq<Entry>): nat
    decreases |es|
  {
    if es == [] then 0 else CentralSize(es[..|es| - 1]) + 46 + |es[|es| - 1].name|
  }

  /** Where the k-th local record starts. */
  function LocalOffset(es: seq<Entry>, k: nat): nat
    requires k <= |es|
  {
    LocalSize(es[..k])
  }

  function LocalRecords(es: seq<Entry>): (rs: seq<Bytes>)
    ensures |rs| == |es| && forall i :: 0 <= i < |es| ==> rs[i] == LocalRecord(es[i])
  {
    seq(|es|, i requires 0 <= i < |es| => LocalRecord(es[i]))
  }

  /** The central records, each with its entry's local offset. */
  function CentralRecords(es: seq<Entry>): (rs: seq<Bytes>)
    ensures |rs| == |es| && forall i :: 0 <= i < |es| ==> rs[i] == CentralRecord(es[i], LocalOffset(es, i))
  {
    seq(|es|, i requires 0 <= i < |es| => CentralRecord(es[i], LocalOffset(es, i)))
  }

  /** The archive: the three regions side by side. */
  function Archive(es: seq<Entry>): Bytes {
    Flatten(LocalRecords(es)) + Flatten(CentralRecords(es)) + EndRecord(|es|, CentralSize(es), LocalSize(es))
  }

  lemma SizeSteps(es: seq<Entry>, k: nat)
    requires k < |es|
    ensures LocalSize(es[..k + 1]) == LocalSize(es[..k]) + 30 + |es[k].name| + |es[k].data|
    ensures CentralSize(es[..k + 1]) == CentralSize(es[..k]) + 46 + |es[k].name|
  {
    assert es[..k + 1][..k] == es[..k];
  }

  lemma {:induction false} LocalRegionSize(es: seq<Entry>, k: nat)
    requires k <= |es|
    ensures |Flatten(LocalRecords(es)[..k])| == LocalSize(es[..k])
    decreases k
  {
    var rs := LocalRecords(es);
    if k > 0 {
      assert |rs[k - 1]| == 30 + |es[k - 1].name| + |es[k - 1].data|;
      LocalRegionSize(es, k - 1);
      SizeSteps(es, k - 1);
      FlattenPrefix(rs, k - 1);
    }
  }

  lemma {:induction false} CentralRegionSize(es: seq<Entry>, k: nat)
    requires k <= |es|
    ensures |Flatten(CentralRecords(es)[..k])| == CentralSize(es[..k])
    decreases k
  {
    var rs := CentralRecords(es);
    if k > 0 {
      assert |rs[k - 1]| == 46 + |es[k - 1].name|;
      CentralRegionSize(es, k - 1);
      SizeSteps(es, k - 1);
      FlattenPrefix(rs, k - 1);
    }
  }

  /** The first k records fill the bytes before the k-th offset. */
  lemma RegionSizes(es: seq<Entry>, k: nat)
    requires k <= |es|
    ensures |Flatten(LocalRecords(es)[..k])| == LocalSize(es[..k])
    ensures |Flatten(CentralRecords(es)[..k])| == CentralSize(es[..k])
  {
    hide LocalRecords, CentralRecords;
    LocalRegionSize(es, k);
    CentralRegionSize(es, k);
  }

  lemma {:induction false} SizesGrow(es: seq<Entry>, k: nat, n: nat)
    requires k <= n <= |es|
    ensures LocalSize(es[..k]) <= LocalSize(es[..n]) && CentralSize(es[..k]) <= CentralSize(es[..n])
    decreases n
  {
    if k < n {
      SizesGrow(es, k, n - 1);
      SizeSteps(es, n - 1);
    }
  }

  /** Entry lists whose archive the 16- and 32-bit fields can describe. */
  predicate Archivable(es: seq<Entry>) {
    |es| < 0x1_0000 && LocalSize(es) + CentralSize(es) < 0x1_0000_0000 && forall e :: e in es ==> |e.name| < 0x1_0000
  }

  predicate Fits(e: Entry) {
    |e.name| < 0x1_0000 && |e.data| < 0x1_0000_0000
  }

  lemma ArchivableFits(es: seq<Entry>, k: nat)
    requires Archivable(es) && k < |es|
    ensures Fits(es[k]) && LocalOffset(es, k) < 0x1_0000_0000
  {
    assert es[..|es|] == es;
    SizesGrow(es, k + 1, |es|);
    SizeSteps(es, k);
  }

  // -------------------------------------------------------------- field positions

  /** A field keeps its value when its record stands inside other bytes. */
  lemma Shift16(pre: Bytes, record: Bytes, post: Bytes, o: nat)
    requires o + 2 <= |record|
    ensures U16At(pre + record + post, |pre| + o) == U16At(record, o)
  {
  }

  lemma Shift32(pre: Bytes, record: Bytes, post: Bytes, o: nat)
    requires o + 4 <= |record|
    ensures U32At(pre + record + post, |pre| + o) == U32At(record, o)
  {
  }

  lemma Bytes16(v: nat)
    requires v < 0x1_0000
    ensures v % 256 + 256 * (v / 256 % 256) == v
  {
  }

  /** Every field of a local header, at the position section 4.3.7 gives it. */
  lemma LocalFields(e: Entry)
    requires Fits(e)
    ensures var h := LocalHeader(e);
            && U32At(h, 0) == 0x0403_4B50 && U16At(h, 4) == 20 && U16At(h, 6) == 0x0800
            && U16At(h, 8) == 0 && U16At(h, 10) == 0 && U16At(h, 12) == 33
            && U32At(h, 14) == CrcField(e.data) && U32At(h, 18) == |e.data| && U32At(h, 22) == |e.data|
            && U16At(h, 26) == |e.name| && U16At(h, 28) == 0
  {
    hide CrcField;
    Bytes32(CrcField(e.data));
    Bytes32(|e.data|);
  }

  /** The fields of a central header that are the same in every archive. */
  lemma FixedCentralFields(e: Entry, offset: nat)
    ensures var h := CentralHeader(e, offset);
            && U32At(h, 0) == 0x0201_4B50 && U16At(h, 4) == 0x0314 && U16At(h, 6) == 20 && U16At(h, 8) == 0x0800
            && U16At(h, 10) == 0 && U16At(h, 12) == 0 && U16At(h, 14) == 33 && U16At(h, 30) == 0 && U16At(h, 32) == 0
            && U16At(h, 34) == 0 && U16At(h, 36) == 0 && U32At(h, 38) == 0x81A4_0000
  {
    hide CrcField;
  }

  /** Every field of a central header, at the position section 4.3.12 gives it. */
  lemma CentralFields(e: Entry, offset: nat)
    requires Fits(e) && offset < 0x1_0000_0000
    ensures var h := CentralHeader(e, offset);
            && U32At(h, 0) == 0x0201_4B50 && U16At(h, 4) == 0x0314 && U16At(h, 6) == 20 && U16At(h, 8) == 0x0800
            && U16At(h, 10) == 0 && U16At(h, 12) == 0 && U16At(h, 14) == 33
            && U32At(h, 16) == CrcField(e.data) && U32At(h, 20) == |e.data| && U32At(h, 24) == |e.data|
            && U16At(h, 28) == |e.name| && U16At(h, 30) == 0 && U16At(h, 32) == 0 && U16At(h, 34) == 0
            && U16At(h, 36) == 0 && U32At(h, 38) == 0x81A4_0000 && U32At(h, 42) == offset
  {
    FixedCentralFields(e, offset);
    CentralNumbers(e, offset);
    hide CentralHeader, U16At, U32At, CrcField;
  }

  lemma CentralNumbers(e: Entry, offset: nat)
    requires Fits(e) && offset < 0x1_0000_0000
    ensures var h := CentralHeader(e, offset);
            && U32At(h, 16) == CrcField(e.data) && U32At(h, 20) == |e.data| && U32At(h, 24) == |e.data|
            && U16At(h, 28) == |e.name| && U32At(h, 42) == offset
  {
    hide CrcField;
    Bytes32(CrcField(e.data));
    Bytes32(|e.data|);
    Bytes32(offset);
    Bytes16(|e.name|);
  }

  /** Every field of an end record, at the position section 4.3.16 gives it. */
  lemma EndFields(count: nat, size: nat, offset: nat)
    requires count < 0x1_0000 && size < 0x1_0000_0000 && offset < 0x1_0000_0000
    ensures var r := EndRecord(count, size, offset);
            && U32At(r, 0) == 0x0605_4B50 && U16At(r, 4) == 0 && U16At(r, 6) == 0 && U16At(r, 8) == count
            && U16At(r, 10) == count && U32At(r, 12) == size && U32At(r, 16) == offset && U16At(r, 20) == 0
  {
    Bytes16(count);
    Bytes32(size);
    Bytes32(offset);
  }
}
