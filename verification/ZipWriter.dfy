/** The deterministic ZIP writer: it validates its input, sizes one buffer, and
    writes every record into it in place. */
module ZipWriter {
  import opened Wrappers
  import opened Crc
  import opened ZipFormat
  import opened ZipReader

  const MAX_ENTRIES := 4
  const MAX_ENTRY_BYTES := 2 * 1024 * 1024
  const MAX_INPUT_BYTES := 4 * 1024 * 1024
  const MAX_OUTPUT_BYTES := 5 * 1024 * 1024
  const MAX_NAME_BYTES := 255
  const UINT32_MAX := 0xFFFF_FFFF

  datatype Input = Input(name: string, bytes: Bytes)

  datatype ZipError =
    | EntryCount
    | InvalidName
    | DuplicateName
    | EntryTooLarge
    | InputTooLarge
    | OutsideZip32
    | OutputTooLarge
    | AssemblyFailed

  // ----------------------------------------------------------------- entry names

  predicate SafeChar(c: char) {
    'A' <= c <= 'Z' || 'a' <= c <= 'z' || '0' <= c <= '9' || c == '.' || c == '_' || c == '/' || c == '-'
  }

  /** The parts of a name between its slashes. */
  function SplitSlash(name: string): (parts: seq<string>)
    ensures |parts| > 0
  {
    if name == [] then [[]]
    else
      var rest := SplitSlash(name[1..]);
      if name[0] == '/' then [[]] + rest else [[name[0]] + rest[0]] + rest[1..]
  }

  predicate GoodPart(part: string) {
    part != "" && part != "." && part != ".."
  }

  predicate ContainsPair(name: string, c: char) {
    exists i :: 0 < i < |name| && name[i - 1] == c && name[i] == c
  }

  /** The checks of the writer, in its order. */
  predicate ValidName(name: string) {
    && 0 < |name| <= MAX_NAME_BYTES
    && (forall c :: c in name ==> SafeChar(c))
    && !("/" <= name) && !("./" <= name) && !("../" <= name) && name[|name| - 1] != '/'
    && '\\' !in name && ':' !in name && !ContainsPair(name, '/')
    && (forall part :: part in SplitSlash(name) ==> GoodPart(part))
  }

  /** A stretch between two slashes, or between a slash and an end of the name. */
  ghost predicate Stretch(name: string, i: nat, j: nat) {
    && i <= j <= |name| && (i == 0 || name[i - 1] == '/') && (j == |name| || name[j] == '/')
    && '/' !in name[i..j]
  }

  /** A name is accepted exactly when it is short, uses safe characters only, and no
      stretch of it between slashes is empty or a dot step: the other checks follow. */
  lemma ValidNameMeaning(name: string)
    ensures ValidName(name) <==>
            && 0 < |name| <= 255
            && (forall c :: c in name ==> 'A' <= c <= 'Z' || 'a' <= c <= 'z' || '0' <= c <= '9' || c in "._/-")
            && (forall i: nat, j: nat :: Stretch(name, i, j) ==>
                  name[i..j] != "" && name[i..j] != "." && name[i..j] != "..")
  {
    PartsSettle(name);
    hide ValidName;
    assert forall part :: GoodPart(part) <==> part != "" && part != "." && part != "..";
    assert forall c :: SafeChar(c) <==> 'A' <= c <= 'Z' || 'a' <= c <= 'z' || '0' <= c <= '9' || c in "._/-";
    forall i: nat, j: nat | Stretch(name, i, j) ensures name[i..j] in SplitSlash(name) {
      StretchIsPart(name, i, j);
    }
    forall part | part in SplitSlash(name) ensures exists i: nat, j: nat :: Stretch(name, i, j) && name[i..j] == part {
      var k :| 0 <= k < |SplitSlash(name)| && SplitSlash(name)[k] == part;
      var i, j := PartIsStretch(name, k);
    }
    hide SplitSlash, Stretch, GoodPart;
  }

  lemma {:induction false} StretchIsPart(name: string, i: nat, j: nat)
    requires Stretch(name, i, j)
    ensures if i == 0 then name[i..j] == SplitSlash(name)[0] else name[i..j] in SplitSlash(name)[1..]
    decreases |name|
  {
    if name != [] {
      var rest := name[1..];
      if i > 0 {
        StretchBehind(name, i - 1, j - 1);
        StretchIsPart(rest, i - 1, j - 1);
        if i == 1 {
          assert name[0] == '/' && SplitSlash(name)[1..] == SplitSlash(rest);
        } else {
          LaterPart(name, name[i..j], rest);
        }
      } else if j > 0 {
        assert rest[0..j - 1] == name[1..j];
        assert '/' !in rest[0..j - 1];
        StretchIsPart(rest, 0, j - 1);
        assert name[0..j] == [name[0]] + rest[0..j - 1];
        assert name[0] in name[0..j];
      }
    }
  }

  lemma StretchBehind(name: string, i: nat, j: nat)
    requires name != [] && i <= j < |name|
    ensures name[1..][i..j] == name[i + 1..j + 1]
    ensures i > 0 || name[0] == '/' ==> (Stretch(name[1..], i, j) <==> Stretch(name, i + 1, j + 1))
  {
    assert name[1..][i..j] == name[i + 1..j + 1];
    assert i > 0 ==> name[1..][i - 1] == name[i];
    assert j < |name| - 1 ==> name[1..][j] == name[j + 1];
  }

  lemma LaterPart(name: string, part: string, rest: string)
    requires name != [] && rest == name[1..] && part in SplitSlash(rest)[1..]
    ensures part in SplitSlash(name)[1..]
  {
    if name[0] == '/' {
      assert SplitSlash(name)[1..] == SplitSlash(rest);
    } else {
      assert SplitSlash(name)[1..] == SplitSlash(rest)[1..];
    }
  }

  lemma {:induction false} PartIsStretch(name: string, k: nat) returns (i: nat, j: nat)
    requires k < |SplitSlash(name)|
    ensures Stretch(name, i, j) && name[i..j] == SplitSlash(name)[k] && (k == 0 ==> i == 0) && (k > 0 ==> i > 0)
    decreases |name|
  {
    if name == [] {
      i, j := 0, 0;
    } else {
      var rest := name[1..];
      if name[0] == '/' {
        if k == 0 {
          i, j := 0, 0;
        } else {
          i, j := PartIsStretch(rest, k - 1);
          StretchBehind(name, i, j);
          i, j := i + 1, j + 1;
        }
      } else {
        i, j := PartIsStretch(rest, k);
        if k == 0 {
          assert name[0..j + 1] == [name[0]] + rest[0..j];
          j := j + 1;
        } else {
          StretchBehind(name, i, j);
          i, j := i + 1, j + 1;
        }
      }
    }
  }

  ghost predicate GoodParts(name: string) {
    forall part :: part in SplitSlash(name) ==> GoodPart(part)
  }

  lemma PartsSettle(name: string)
    ensures ValidName(name) <==> 0 < |name| <= 255 && (forall c :: c in name ==> SafeChar(c)) && GoodParts(name)
  {
    BadStarts(name);
    BadSlashes(name);
    hide SplitSlash, ContainsPair, GoodPart;
  }

  lemma BadStarts(name: string)
    ensures "/" <= name || "./" <= name || "../" <= name ==> !GoodParts(name)
  {
    if "/" <= name || "./" <= name || "../" <= name {
      BadStart(name);
      hide SplitSlash, GoodPart;
      assert SplitSlash(name)[0] in SplitSlash(name);
    }
  }

  lemma BadSlashes(name: string)
    ensures 0 < |name| && (name[|name| - 1] == '/' || ContainsPair(name, '/')) ==> !GoodParts(name)
  {
    hide SplitSlash;
    if 0 < |name| && name[|name| - 1] == '/' {
      var k := EmptyAfterSlash(name, |name|);
      assert SplitSlash(name)[k] in SplitSlash(name);
    } else if ContainsPair(name, '/') {
      var i :| 0 < i < |name| && name[i - 1] == '/' && name[i] == '/';
      var k := EmptyAfterSlash(name, i);
      assert SplitSlash(name)[k] in SplitSlash(name);
    }
  }

  lemma FirstPart(name: string, n: nat)
    requires n < |name| && name[n] == '/' && forall i :: 0 <= i < n ==> name[i] != '/'
    ensures SplitSlash(name)[0] == name[..n]
    decreases n
  {
    if n > 0 {
      FirstPart(name[1..], n - 1);
      assert name[..n] == [name[0]] + name[1..][..n - 1];
    }
  }

  lemma BadStart(name: string)
    requires "/" <= name || "./" <= name || "../" <= name
    ensures !GoodPart(SplitSlash(name)[0])
  {
    hide SplitSlash;
    FirstPart(name, if "/" <= name then 0 else if "./" <= name then 1 else 2);
  }

  /** A slash that ends the name or stands before another one makes an empty part. */
  lemma {:induction false} EmptyAfterSlash(name: string, i: nat) returns (k: nat)
    requires 0 < i <= |name| && name[i - 1] == '/' && (i == |name| || name[i] == '/')
    ensures 0 < k < |SplitSlash(name)| && SplitSlash(name)[k] == ""
    decreases |name|
  {
    var rest := SplitSlash(name[1..]);
    if i == 1 {
      k := 1;
      assert rest[0] == "";
    } else {
      var j := EmptyAfterSlash(name[1..], i - 1);
      k := if name[0] == '/' then j + 1 else j;
    }
  }

  // -------------------------------------------------------------- in-place writes

  ghost predicate SameFrom(output: array<Byte>, was: Bytes, n: nat)
    reads output
  {
    output.Length == |was| && forall k :: n <= k < |was| ==> output[k] == was[k]
  }

  /** An entry that passed validation; its local offset is set while writing. */
  class PreparedEntry {
    const nameBytes: Bytes
    const data: Bytes
    const crc32: nat
    var localHeaderOffset: nat

    constructor (nameBytes: Bytes, data: Bytes, crc32: nat)
      ensures this.nameBytes == nameBytes && this.data == data && this.crc32 == crc32 && localHeaderOffset == 0
    {
      this.nameBytes, this.data, this.crc32 := nameBytes, data, crc32;
      localHeaderOffset := 0;
    }

    ghost predicate Holds(e: Entry) {
      nameBytes == e.name && data == e.data && crc32 == CrcField(e.data)
    }
  }

  /** A write at offset extends the finished part of the buffer: what stands before
      the offset is kept, the new bytes follow it, and nothing after them changes.
      The ghost arguments split the finished part for the caller's convenience. */
  method WriteUInt16LE(output: array<Byte>, offset: nat, value: nat, ghost pre: Bytes, ghost record: Bytes)
    requires offset + 2 <= output.Length && output[..offset] == pre + record
    modifies output
    ensures output[..offset + 2] == pre + (record + LE16(value))
    ensures SameFrom(output, old(output[..]), offset + 2)
  {
    output[offset] := value % 256;
    output[offset + 1] := value / 256 % 256;
    assert output[..offset] == pre + record;
    assert output[..offset + 2] == output[..offset] + LE16(value);
    Regroup(pre, record, LE16(value));
  }

  method WriteUInt32LE(output: array<Byte>, offset: nat, value: nat, ghost pre: Bytes, ghost record: Bytes)
    requires offset + 4 <= output.Length && output[..offset] == pre + record
    modifies output
    ensures output[..offset + 4] == pre + (record + LE32(value))
    ensures SameFrom(output, old(output[..]), offset + 4)
  {
    output[offset] := value % 256;
    output[offset + 1] := value / 256 % 256;
    output[offset + 2] := value / 0x1_0000 % 256;
    output[offset + 3] := value / 0x100_0000 % 256;
    assert output[..offset] == pre + record;
    assert output[..offset + 4] == output[..offset] + LE32(value);
    Regroup(pre, record, LE32(value));
  }

  method SetBytes(output: array<Byte>, offset: nat, bytes: Bytes, ghost pre: Bytes, ghost record: Bytes)
    requires offset + |bytes| <= output.Length && output[..offset] == pre + record
    modifies output
    ensures output[..offset + |bytes|] == pre + (record + bytes)
    ensures SameFrom(output, old(output[..]), offset + |bytes|)
  {
    forall i | 0 <= i < |bytes| {
      output[offset + i] := bytes[i];
    }
    assert output[..offset] == pre + record;
    assert output[..offset + |bytes|] == output[..offset] + bytes;
    Regroup(pre, record, bytes);
  }

  lemma Regroup(a: Bytes, b: Bytes, c: Bytes)
    ensures a + b + c == a + (b + c)
  {
  }

  /** The fields that describe the entry, in the order both headers share. */
  method WriteSizes(output: array<Byte>, offset: nat, entry: PreparedEntry,
                    ghost e: Entry, ghost pre: Bytes, ghost record: Bytes)
    requires offset + 16 <= output.Length && output[..offset] == pre + record && entry.Holds(e)
    modifies output
    ensures output[..offset + 16]
         == pre + (record + LE32(CrcField(e.data)) + LE32(|e.data|) + LE32(|e.data|) + LE16(|e.name|) + LE16(0))
    ensures SameFrom(output, old(output[..]), offset + 16)
  {
    hide LE16, LE32, CrcField;
    ghost var r := record;
    WriteUInt32LE(output, offset, entry.crc32, pre, r);
    r := r + LE32(entry.crc32);
    WriteUInt32LE(output, offset + 4, |entry.data|, pre, r);
    r := r + LE32(|entry.data|);
    WriteUInt32LE(output, offset + 8, |entry.data|, pre, r);
    r := r + LE32(|entry.data|);
    WriteUInt16LE(output, offset + 12, |entry.nameBytes|, pre, r);
    r := r + LE16(|entry.nameBytes|);
    WriteUInt16LE(output, offset + 14, 0, pre, r);
  }

  method WriteLocalFields(output: array<Byte>, offset: nat, entry: PreparedEntry, ghost e: Entry)
    requires offset + 30 <= output.Length && entry.Holds(e)
    modifies output
    ensures output[..offset + 30] == old(output[..offset]) + LocalHeader(e)
    ensures SameFrom(output, old(output[..]), offset + 30)
  {
    hide LE16, LE32, CrcField;
    ghost var p, r := output[..offset], [];
    assert output[..offset] == p + r;
    WriteUInt32LE(output, offset, LOCAL_SIGNATURE, p, r);
    r := LE32(LOCAL_SIGNATURE);
    assert [] + r == r;
    WriteUInt16LE(output, offset + 4, VERSION_NEEDED, p, r);
    r := r + LE16(VERSION_NEEDED);
    WriteUInt16LE(output, offset + 6, UTF8_FLAG, p, r);
    r := r + LE16(UTF8_FLAG);
    WriteUInt16LE(output, offset + 8, STORE_METHOD, p, r);
    r := r + LE16(STORE_METHOD);
    WriteUInt16LE(output, offset + 10, FIXED_DOS_TIME, p, r);
    r := r + LE16(FIXED_DOS_TIME);
    WriteUInt16LE(output, offset + 12, FIXED_DOS_DATE, p, r);
    r := r + LE16(FIXED_DOS_DATE);
    WriteSizes(output, offset + 14, entry, e, p, r);
    r := r + LE32(CrcField(e.data)) + LE32(|e.data|) + LE32(|e.data|) + LE16(|e.name|) + LE16(0);
    assert r == LocalHeader(e);
  }

  method WriteLocalHeader(output: array<Byte>, offset: nat, entry: PreparedEntry, ghost e: Entry) returns (next: nat)
    requires offset + 30 + |e.name| + |e.data| <= output.Length && entry.Holds(e)
    modifies output
    ensures next == offset + 30 + |e.name| + |e.data|
    ensures output[..next] == old(output[..offset]) + LocalRecord(e)
    ensures SameFrom(output, old(output[..]), next)
  {
    hide LocalHeader, CrcField;
    ghost var p, h := output[..offset], LocalHeader(e);
    WriteLocalFields(output, offset, entry, e);
    SetBytes(output, offset + 30, entry.nameBytes, p, h);
    SetBytes(output, offset + 30 + |entry.nameBytes|, entry.data, p, h + e.name);
    next := offset + 30 + |entry.nameBytes| + |entry.data|;
  }

  method WriteCentralFields(output: array<Byte>, offset: nat, entry: PreparedEntry, ghost e: Entry)
    requires offset + 46 <= output.Length && entry.Holds(e)
    modifies output
    ensures output[..offset + 46] == old(output[..offset]) + CentralHeader(e, entry.localHeaderOffset)
    ensures SameFrom(output, old(output[..]), offset + 46)
  {
    hide LE16, LE32, CrcField;
    ghost var p, r := output[..offset], [];
    assert output[..offset] == p + r;
    WriteUInt32LE(output, offset, CENTRAL_SIGNATURE, p, r);
    r := LE32(CENTRAL_SIGNATURE);
    assert [] + r == r;
    WriteUInt16LE(output, offset + 4, VERSION_MADE_BY_UNIX, p, r);
    r := r + LE16(VERSION_MADE_BY_UNIX);
    WriteUInt16LE(output, offset + 6, VERSION_NEEDED, p, r);
    r := r + LE16(VERSION_NEEDED);
    WriteUInt16LE(output, offset + 8, UTF8_FLAG, p, r);
    r := r + LE16(UTF8_FLAG);
    WriteUInt16LE(output, offset + 10, STORE_METHOD, p, r);
    r := r + LE16(STORE_METHOD);
    WriteUInt16LE(output, offset + 12, FIXED_DOS_TIME, p, r);
    r := r + LE16(FIXED_DOS_TIME);
    WriteUInt16LE(output, offset + 14, FIXED_DOS_DATE, p, r);
    r := r + LE16(FIXED_DOS_DATE);
    WriteSizes(output, offset + 16, entry, e, p, r);
    r := r + LE32(CrcField(e.data)) + LE32(|e.data|) + LE32(|e.data|) + LE16(|e.name|) + LE16(0);
    WriteUInt16LE(output, offset + 32, 0, p, r);
    r := r + LE16(0);
    WriteUInt16LE(output, offset + 34, 0, p, r);
    r := r + LE16(0);
    WriteUInt16LE(output, offset + 36, 0, p, r);
    r := r + LE16(0);
    WriteUInt32LE(output, offset + 38, REGULAR_FILE_ATTRS, p, r);
    r := r + LE32(REGULAR_FILE_ATTRS);
    WriteUInt32LE(output, offset + 42, entry.localHeaderOffset, p, r);
    r := r + LE32(entry.localHeaderOffset);
    assert r == CentralHeader(e, entry.localHeaderOffset);
  }

  method WriteCentralDirectoryHeader(output: array<Byte>, offset: nat, entry: PreparedEntry, ghost e: Entry)
    returns (next: nat)
    requires offset + 46 + |e.name| <= output.Length && entry.Holds(e)
    modifies output
    ensures next == offset + 46 + |e.name|
    ensures output[..next] == old(output[..offset]) + CentralRecord(e, entry.localHeaderOffset)
    ensures SameFrom(output, old(output[..]), next)
  {
    hide CentralHeader, CrcField;
    ghost var p, h := output[..offset], CentralHeader(e, entry.localHeaderOffset);
    WriteCentralFields(output, offset, entry, e);
    SetBytes(output, offset + 46, entry.nameBytes, p, h);
    next := offset + 46 + |entry.nameBytes|;
  }

  method WriteEocd(output: array<Byte>, offset: nat, count: nat, size: nat, start: nat) returns (next: nat)
    requires offset + 22 <= output.Length
    modifies output
    ensures next == offset + 22
    ensures output[..next] == old(output[..offset]) + EndRecord(count, size, start)
    ensures SameFrom(output, old(output[..]), next)
  {
    hide LE16, LE32;
    ghost var p, r := output[..offset], [];
    assert output[..offset] == p + r;
    WriteUInt32LE(output, offset, EOCD_SIGNATURE, p, r);
    r := LE32(EOCD_SIGNATURE);
    assert [] + r == r;
    WriteUInt16LE(output, offset + 4, 0, p, r);
    r := r + LE16(0);
    WriteUInt16LE(output, offset + 6, 0, p, r);
    r := r + LE16(0);
    WriteUInt16LE(output, offset + 8, count, p, r);
    r := r + LE16(count);
    WriteUInt16LE(output, offset + 10, count, p, r);
    r := r + LE16(count);
    WriteUInt32LE(output, offset + 12, size, p, r);
    r := r + LE32(size);
    WriteUInt32LE(output, offset + 16, start, p, r);
    r := r + LE32(start);
    WriteUInt16LE(output, offset + 20, 0, p, r);
    r := r + LE16(0);
    assert r == EndRecord(count, size, start);
    next := offset + 22;
  }

  // ------------------------------------------------------------------ validation

  /** The UTF-8 form of a name of safe characters: one byte for each. */
  function NameBytes(name: string): (r: Bytes)
    ensures |r| == |name|
  {
    seq(|name|, i requires 0 <= i < |name| => if SafeChar(name[i]) then name[i] as int else 0)
  }

  function EntryOf(input: Input): Entry {
    Entry(NameBytes(input.name), input.bytes)
  }

  function EntriesOf(inputs: seq<Input>): (es: seq<Entry>)
    ensures |es| == |inputs| && forall i :: 0 <= i < |inputs| ==> es[i] == EntryOf(inputs[i])
  {
    seq(|inputs|, i requires 0 <= i < |inputs| => EntryOf(inputs[i]))
  }

  function TotalBytes(inputs: seq<Input>): nat
    decreases |inputs|
  {
    if inputs == [] then 0 else TotalBytes(inputs[..|inputs| - 1]) + |inputs[|inputs| - 1].bytes|
  }

  function NamesOf(inputs: seq<Input>): set<string> {
    set i | 0 <= i < |inputs| :: inputs[i].name
  }

  /** What is wrong with the k-th input, given the ones before it. */
  function EntryFault(inputs: seq<Input>, k: nat): Option<ZipError>
    requires k < |inputs|
  {
    if !ValidName(inputs[k].name) then Some(InvalidName)
    else if inputs[k].name in NamesOf(inputs[..k]) then Some(DuplicateName)
    else if |inputs[k].bytes| > MAX_ENTRY_BYTES then Some(EntryTooLarge)
    else if TotalBytes(inputs[..k + 1]) > MAX_INPUT_BYTES then Some(InputTooLarge)
    else None
  }

  /** The fault of the first faulty input from the k-th on. */
  function FaultFrom(inputs: seq<Input>, k: nat): Option<ZipError>
    requires k <= |inputs|
    decreases |inputs| - k
  {
    if k == |inputs| then None
    else if EntryFault(inputs, k).Some? then EntryFault(inputs, k)
    else FaultFrom(inputs, k + 1)
  }

  function Fault(inputs: seq<Input>): Option<ZipError> {
    if |inputs| == 0 || |inputs| > MAX_ENTRIES then Some(EntryCount) else FaultFrom(inputs, 0)
  }

  predicate DistinctNames(inputs: seq<Input>) {
    forall i, j :: 0 <= i < j < |inputs| ==> inputs[i].name != inputs[j].name
  }

  /** One to four inputs, good names without repetition, 2 MiB each and 4 MiB together. */
  predicate Accepted(inputs: seq<Input>) {
    && 0 < |inputs| <= 4 && DistinctNames(inputs) && TotalBytes(inputs) <= 4_194_304
    && forall input :: input in inputs ==> ValidName(input.name) && |input.bytes| <= 2_097_152
  }

  lemma {:induction false} FaultFromMeaning(inputs: seq<Input>, k: nat)
    requires k <= |inputs|
    ensures FaultFrom(inputs, k).None? <==> forall i :: k <= i < |inputs| ==> EntryFault(inputs, i).None?
    decreases |inputs| - k
  {
    if k < |inputs| {
      FaultFromMeaning(inputs, k + 1);
    }
  }

  lemma {:induction false} FirstFault(inputs: seq<Input>, j: nat, k: nat)
    requires j <= k < |inputs| && EntryFault(inputs, k).Some?
    requires forall i :: j <= i < k ==> EntryFault(inputs, i).None?
    ensures FaultFrom(inputs, j) == EntryFault(inputs, k)
    decreases k - j
  {
    hide EntryFault;
    if j < k {
      FirstFault(inputs, j + 1, k);
    }
  }

  lemma {:induction false} TotalGrows(inputs: seq<Input>, k: nat)
    requires k <= |inputs|
    ensures TotalBytes(inputs[..k]) <= TotalBytes(inputs)
    decreases |inputs|
  {
    if k == |inputs| {
      assert inputs[..k] == inputs;
    } else {
      TotalGrows(inputs[..|inputs| - 1], k);
      assert inputs[..|inputs| - 1][..k] == inputs[..k];
    }
  }

  /** The writer's one-pass checks accept exactly the inputs within its limits. */
  lemma AcceptedMeaning(inputs: seq<Input>)
    ensures Fault(inputs).None? <==> Accepted(inputs)
  {
    hide ValidName;
    FaultFromMeaning(inputs, 0);
    assert inputs[..|inputs|] == inputs;
    if Accepted(inputs) {
      forall i | 0 <= i < |inputs| ensures EntryFault(inputs, i).None? {
        TotalGrows(inputs, i + 1);
        assert inputs[i] in inputs;
      }
    } else if Fault(inputs).None? {
      assert EntryFault(inputs, |inputs| - 1).None?;
      forall i, j | 0 <= i < j < |inputs| ensures inputs[i].name != inputs[j].name {
        assert EntryFault(inputs, j).None?;
        assert inputs[..j][i] == inputs[i];
      }
      forall input | input in inputs ensures ValidName(input.name) && |input.bytes| <= MAX_ENTRY_BYTES {
        var i :| 0 <= i < |inputs| && inputs[i] == input;
        assert EntryFault(inputs, i).None?;
      }
    }
  }

  /** An earlier input of this name. */
  ghost predicate Repeats(inputs: seq<Input>, k: nat)
    requires k < |inputs|
  {
    exists j :: 0 <= j < k && inputs[j].name == inputs[k].name
  }

  lemma NamesBefore(inputs: seq<Input>, k: nat)
    requires k < |inputs|
    ensures inputs[k].name in NamesOf(inputs[..k]) <==> Repeats(inputs, k)
  {
    if Repeats(inputs, k) {
      var j :| 0 <= j < k && inputs[j].name == inputs[k].name;
      assert inputs[..k][j] == inputs[j];
    }
  }

  lemma BeforeFault(inputs: seq<Input>, k: nat)
    requires 0 < k <= |inputs| <= 4 && forall i :: 0 <= i < k ==> EntryFault(inputs, i).None?
    ensures Accepted(inputs[..k])
  {
    var front := inputs[..k];
    forall i | 0 <= i < k ensures EntryFault(front, i).None? {
      assert EntryFault(inputs, i).None?;
      assert front[..i] == inputs[..i] && front[..i + 1] == inputs[..i + 1];
    }
    hide EntryFault, Accepted;
    FaultFromMeaning(front, 0);
    AcceptedMeaning(front);
  }

  /** A fault names what is wrong with the first input that cannot be accepted after those
      before it; the limits of 32 bits and of the output size are never met. */
  lemma FaultMeaning(inputs: seq<Input>, e: ZipError) returns (k: nat)
    requires Fault(inputs) == Some(e)
    ensures e == EntryCount <==> |inputs| == 0 || |inputs| > 4
    ensures e != EntryCount ==>
              && k < |inputs| && (k > 0 ==> Accepted(inputs[..k]))
              && match e
                 case InvalidName => !ValidName(inputs[k].name)
                 case DuplicateName => ValidName(inputs[k].name) && Repeats(inputs, k)
                 case EntryTooLarge =>
                   ValidName(inputs[k].name) && !Repeats(inputs, k) && |inputs[k].bytes| > 2_097_152
                 case InputTooLarge =>
                   && ValidName(inputs[k].name) && !Repeats(inputs, k) && |inputs[k].bytes| <= 2_097_152
                   && TotalBytes(inputs[..k + 1]) > 4_194_304
                 case _ => false
  {
    k := 0;
    if 0 < |inputs| <= 4 {
      FaultFromMeaning(inputs, 0);
      hide EntryFault, ValidName, Accepted, TotalBytes;
      while k < |inputs| && EntryFault(inputs, k).None?
        invariant k <= |inputs| && forall i :: 0 <= i < k ==> EntryFault(inputs, i).None?
      {
        k := k + 1;
      }
      FirstFault(inputs, 0, k);
      NamesBefore(inputs, k);
      if k > 0 {
        BeforeFault(inputs, k);
      }
      FaultIs(inputs, k);
    }
  }

  lemma FaultIs(inputs: seq<Input>, k: nat)
    requires k < |inputs|
    ensures EntryFault(inputs, k)
         == if !ValidName(inputs[k].name) then Some(InvalidName)
            else if inputs[k].name in NamesOf(inputs[..k]) then Some(DuplicateName)
            else if |inputs[k].bytes| > 2_097_152 then Some(EntryTooLarge)
            else if TotalBytes(inputs[..k + 1]) > 4_194_304 then Some(InputTooLarge) else None
  {
  }

  /** The two regions hold the content once, every name twice, and 76 bytes an entry. */
  lemma {:induction false} SizesOf(inputs: seq<Input>, k: nat)
    requires k <= |inputs| && forall i :: 0 <= i < k ==> |inputs[i].name| <= MAX_NAME_BYTES
    ensures var es := EntriesOf(inputs);
            LocalSize(es[..k]) + CentralSize(es[..k]) <= TotalBytes(inputs[..k]) + k * (76 + 2 * MAX_NAME_BYTES)
    decreases k
  {
    if k > 0 {
      SizesOf(inputs, k - 1);
      SizeSteps(EntriesOf(inputs), k - 1);
      assert inputs[..k][..k - 1] == inputs[..k - 1];
    }
  }

  // --------------------------------------------------------------------- writer

  predicate WithinUInt32(value: int) {
    0 <= value <= UINT32_MAX
  }

  ghost predicate AllHold(prepared: seq<PreparedEntry>, es: seq<Entry>) {
    |prepared| == |es| && forall i :: 0 <= i < |es| ==> prepared[i].Holds(es[i])
  }

  ghost predicate Distinct(prepared: seq<PreparedEntry>) {
    forall i, j :: 0 <= i < j < |prepared| ==> prepared[i] != prepared[j]
  }

  lemma OneMore(prepared: seq<PreparedEntry>, p: PreparedEntry, es: seq<Entry>, k: nat)
    requires k < |es| && AllHold(prepared, es[..k]) && Distinct(prepared) && p !in prepared && p.Holds(es[k])
    ensures AllHold(prepared + [p], es[..k + 1]) && Distinct(prepared + [p])
  {
    forall i | 0 <= i < k + 1 ensures (prepared + [p])[i].Holds(es[..k + 1][i]) {
      if i < k {
        assert prepared[i].Holds(es[..k][i]);
      }
    }
  }

  /** The checks on one input; the 32-bit and output-size checks never fail. */
  method Check(inputs: seq<Input>, k: nat, names: set<string>, totalInputBytes: nat, outputBytes: nat)
    returns (fault: Option<ZipError>, names': set<string>, total: nat, size: nat)
    requires k < |inputs| <= MAX_ENTRIES && forall i :: 0 <= i < k ==> EntryFault(inputs, i).None?
    requires names == NamesOf(inputs[..k]) && totalInputBytes == TotalBytes(inputs[..k])
    requires outputBytes == LocalSize(EntriesOf(inputs)[..k]) + CentralSize(EntriesOf(inputs)[..k]) + 22
    ensures fault == EntryFault(inputs, k)
    ensures fault.None? ==>
              && names' == NamesOf(inputs[..k + 1]) && total == TotalBytes(inputs[..k + 1])
              && size == LocalSize(EntriesOf(inputs)[..k + 1]) + CentralSize(EntriesOf(inputs)[..k + 1]) + 22
  {
    hide SplitSlash, CrcOf, EntriesOf, LocalSize, CentralSize, TotalBytes, NamesOf, NameBytes;
    var entry := inputs[k];
    fault, names', total, size := None, names, totalInputBytes, outputBytes;
    if !ValidName(entry.name) {
      return Some(InvalidName), names', total, size;
    }
    if entry.name in names {
      return Some(DuplicateName), names', total, size;
    }
    names' := names + {entry.name};
    if |entry.bytes| > MAX_ENTRY_BYTES {
      return Some(EntryTooLarge), names', total, size;
    }
    total := totalInputBytes + |entry.bytes|;
    NextTotals(inputs, k);
    if total > MAX_INPUT_BYTES {
      return Some(InputTooLarge), names', total, size;
    }
    var localBytes := 30 + |entry.name| + |entry.bytes|;
    var centralBytes := 46 + |entry.name|;
    if !WithinUInt32(localBytes) || !WithinUInt32(centralBytes) {
      return Some(OutsideZip32), names', total, size;
    }
    size := outputBytes + localBytes + centralBytes;
    SizeSteps(EntriesOf(inputs), k);
    forall i | 0 <= i < k + 1 ensures |inputs[i].name| <= MAX_NAME_BYTES {
      assert EntryFault(inputs, i).None?;
    }
    SizesOf(inputs, k + 1);
    if !WithinUInt32(size) {
      return Some(OutsideZip32), names', total, size;
    }
    if size > MAX_OUTPUT_BYTES {
      return Some(OutputTooLarge), names', total, size;
    }
  }

  lemma NextTotals(inputs: seq<Input>, k: nat)
    requires k < |inputs|
    ensures TotalBytes(inputs[..k + 1]) == TotalBytes(inputs[..k]) + |inputs[k].bytes|
    ensures NamesOf(inputs[..k + 1]) == NamesOf(inputs[..k]) + {inputs[k].name}
  {
    assert inputs[..k + 1][..k] == inputs[..k];
    assert forall i :: 0 <= i < k ==> inputs[..k + 1][i] == inputs[..k][i];
    assert inputs[..k + 1][k] == inputs[k];
  }

  /** Validates and copies the inputs, and adds up the size of the archive. */
  method Prepare(inputs: seq<Input>, table: array<bv32>)
    returns (fault: Option<ZipError>, prepared: seq<PreparedEntry>, outputBytes: nat)
    requires IsTable(table[..])
    ensures fault == Fault(inputs)
    ensures fault.None? ==> AllHold(prepared, EntriesOf(inputs)) && Distinct(prepared)
    ensures fault.None? ==> outputBytes == LocalSize(EntriesOf(inputs)) + CentralSize(EntriesOf(inputs)) + 22
    ensures forall p :: p in prepared ==> fresh(p)
  {
    hide ValidName, IsTable, CrcOf, EntryFault, FaultFrom, NamesOf, TotalBytes, LocalSize, CentralSize, NameBytes;
    hide Distinct;
    hide AllHold, PreparedEntry.Holds, EntriesOf;
    prepared, outputBytes, fault := [], 22, None;
    if |inputs| == 0 || |inputs| > MAX_ENTRIES {
      return Some(EntryCount), [], 22;
    }
    var names: set<string> := {};
    var totalInputBytes := 0;
    ghost var es := EntriesOf(inputs);
    NothingYet(inputs);
    for k := 0 to |inputs|
      invariant fault.None? && forall i :: 0 <= i < k ==> EntryFault(inputs, i).None?
      invariant names == NamesOf(inputs[..k]) && totalInputBytes == TotalBytes(inputs[..k])
      invariant outputBytes == LocalSize(es[..k]) + CentralSize(es[..k]) + 22
      invariant AllHold(prepared, es[..k]) && Distinct(prepared)
      invariant forall p :: p in prepared ==> fresh(p)
    {
      fault, names, totalInputBytes, outputBytes := Check(inputs, k, names, totalInputBytes, outputBytes);
      if fault.Some? {
        FirstFault(inputs, 0, k);
        return fault, [], 22;
      }
      var entry := inputs[k];
      var crc := Crc32(table, entry.bytes);
      var p := new PreparedEntry(NameBytes(entry.name), entry.bytes, crc);
      HoldsEntry(p, entry);
      OneMore(prepared, p, es, k);
      prepared := prepared + [p];
    }
    FaultFromMeaning(inputs, 0);
  }

  lemma NothingYet(inputs: seq<Input>)
    ensures NamesOf(inputs[..0]) == {} && TotalBytes(inputs[..0]) == 0
    ensures var es := EntriesOf(inputs);
            && LocalSize(es[..0]) == CentralSize(es[..0]) == 0 && AllHold([], es[..0]) && Distinct([])
            && es[..|inputs|] == es
  {
  }

  lemma HoldsEntry(p: PreparedEntry, input: Input)
    requires p.nameBytes == NameBytes(input.name) && p.data == input.bytes && p.crc32 == CrcOf(input.bytes) as int
    ensures p.Holds(EntryOf(input))
  {
    hide CrcOf;
  }

  /** Writes the k-th local record and remembers where it starts. */
  method WriteLocal(output: array<Byte>, offset: nat, entry: PreparedEntry, ghost es: seq<Entry>, ghost k: nat)
    returns (next: nat)
    requires k < |es| && entry.Holds(es[k])
    requires offset == LocalSize(es[..k]) <= output.Length && LocalSize(es) <= output.Length
    requires output[..offset] == Flatten(LocalRecords(es)[..k])
    modifies output, entry`localHeaderOffset
    ensures offset <= next == LocalSize(es[..k + 1]) <= output.Length
    ensures output[..next] == Flatten(LocalRecords(es)[..k + 1])
    ensures entry.localHeaderOffset == LocalOffset(es, k)
  {
    assert es[..|es|] == es;
    SizesGrow(es, k + 1, |es|);
    SizeSteps(es, k);
    FlattenPrefix(LocalRecords(es), k);
    hide LocalSize, Flatten, LocalRecord, PreparedEntry.Holds;
    entry.localHeaderOffset := offset;
    next := WriteLocalHeader(output, offset, entry, es[k]);
  }

  /** Writes every local record and remembers where it starts. */
  method WriteLocals(output: array<Byte>, prepared: seq<PreparedEntry>, ghost es: seq<Entry>)
    returns (offset: nat, inside: bool)
    requires AllHold(prepared, es) && Distinct(prepared) && LocalSize(es) <= output.Length <= UINT32_MAX
    modifies output, set p | p in prepared
    ensures inside && offset == LocalSize(es)
    ensures output[..offset] == Flatten(LocalRecords(es))
    ensures forall i :: 0 <= i < |es| ==> prepared[i].localHeaderOffset == LocalOffset(es, i)
  {
    offset, inside := 0, true;
    NoRecords(es);
    assert |prepared| == |es|;
    hide LocalSize, Flatten, LocalRecords, LocalOffset, PreparedEntry.Holds, AllHold, Distinct;
    for k := 0 to |prepared|
      invariant inside && offset == LocalSize(es[..k]) <= output.Length
      invariant output[..offset] == Flatten(LocalRecords(es)[..k])
      invariant forall i :: 0 <= i < k ==> prepared[i].localHeaderOffset == LocalOffset(es, i)
    {
      offset := WriteNextLocal(output, offset, prepared, k, es);
      inside := inside && WithinUInt32(offset);
    }
  }

  /** The k-th local record, after which the first k + 1 entries know where theirs starts. */
  method WriteNextLocal(output: array<Byte>, offset: nat, prepared: seq<PreparedEntry>, k: nat, ghost es: seq<Entry>)
    returns (next: nat)
    requires k < |prepared| == |es| && AllHold(prepared, es) && Distinct(prepared)
    requires offset == LocalSize(es[..k]) <= output.Length && LocalSize(es) <= output.Length
    requires output[..offset] == Flatten(LocalRecords(es)[..k])
    requires forall i :: 0 <= i < k ==> prepared[i].localHeaderOffset == LocalOffset(es, i)
    modifies output, prepared[k]
    ensures next == LocalSize(es[..k + 1]) <= output.Length
    ensures output[..next] == Flatten(LocalRecords(es)[..k + 1])
    ensures forall i :: 0 <= i < k + 1 ==> prepared[i].localHeaderOffset == LocalOffset(es, i)
  {
    AtIndex(prepared, es, k);
    hide LocalSize, Flatten, LocalRecords, LocalRecord, LocalOffset, PreparedEntry.Holds, AllHold, Distinct;
    next := WriteLocal(output, offset, prepared[k], es, k);
  }

  lemma AtIndex(prepared: seq<PreparedEntry>, es: seq<Entry>, k: nat)
    requires AllHold(prepared, es) && Distinct(prepared) && k < |es|
    ensures k < |prepared| && prepared[k] in prepared && prepared[k].Holds(es[k])
    ensures forall i :: 0 <= i < k ==> prepared[i] != prepared[k]
  {
  }

  lemma NoRecords(es: seq<Entry>)
    ensures LocalSize(es[..0]) == 0 && Flatten(LocalRecords(es)[..0]) == []
    ensures es[..|es|] == es && LocalRecords(es)[..|es|] == LocalRecords(es)
  {
  }

  lemma CentralSteps(es: seq<Entry>, k: nat)
    requires k < |es|
    ensures CentralSize(es[..k]) + 46 + |es[k].name| == CentralSize(es[..k + 1]) <= CentralSize(es)
    ensures Flatten(CentralRecords(es)[..k + 1])
         == Flatten(CentralRecords(es)[..k]) + CentralRecord(es[k], LocalOffset(es, k))
  {
    assert es[..|es|] == es;
    SizesGrow(es, k + 1, |es|);
    SizeSteps(es, k);
    FlattenPrefix(CentralRecords(es), k);
  }

  /** Writes the k-th central record, after what stood before the directory. */
  method WriteCentral(output: array<Byte>, offset: nat, entry: PreparedEntry,
                      ghost es: seq<Entry>, ghost k: nat, ghost pre: Bytes)
    returns (next: nat)
    requires k < |es| && entry.Holds(es[k]) && entry.localHeaderOffset == LocalOffset(es, k)
    requires offset == |pre| + CentralSize(es[..k]) <= output.Length && |pre| + CentralSize(es) <= output.Length
    requires output[..offset] == pre + Flatten(CentralRecords(es)[..k])
    modifies output
    ensures offset <= next == |pre| + CentralSize(es[..k + 1]) <= output.Length
    ensures output[..next] == pre + Flatten(CentralRecords(es)[..k + 1])
  {
    CentralSteps(es, k);
    hide CentralSize, Flatten, CentralRecord, CentralRecords, LocalOffset, PreparedEntry.Holds;
    Regroup(pre, Flatten(CentralRecords(es)[..k]), CentralRecord(es[k], entry.localHeaderOffset));
    next := WriteCentralDirectoryHeader(output, offset, entry, es[k]);
  }

  /** Writes every central record; each takes the offset remembered for its entry. */
  method WriteDirectory(output: array<Byte>, start: nat, prepared: seq<PreparedEntry>, ghost es: seq<Entry>)
    returns (offset: nat, inside: bool)
    requires AllHold(prepared, es) && start + CentralSize(es) <= output.Length <= UINT32_MAX
    requires forall i :: 0 <= i < |es| ==> prepared[i].localHeaderOffset == LocalOffset(es, i)
    modifies output
    ensures inside && offset == start + CentralSize(es)
    ensures output[..offset] == old(output[..start]) + Flatten(CentralRecords(es))
  {
    offset, inside := start, true;
    ghost var pre := output[..start];
    NoCentralRecords(es);
    hide CentralSize, Flatten, CentralRecords, LocalOffset, PreparedEntry.Holds;
    for k := 0 to |prepared|
      invariant inside && offset == start + CentralSize(es[..k]) <= output.Length
      invariant output[..offset] == pre + Flatten(CentralRecords(es)[..k])
    {
      offset := WriteCentral(output, offset, prepared[k], es, k, pre);
      inside := inside && WithinUInt32(offset);
    }
  }

  lemma NoCentralRecords(es: seq<Entry>)
    ensures CentralSize(es[..0]) == 0 && Flatten(CentralRecords(es)[..0]) == []
    ensures es[..|es|] == es && CentralRecords(es)[..|es|] == CentralRecords(es)
  {
  }

  /** Fills a buffer of the archive's exact size: the three regions one after another. */
  method WriteArchive(output: array<Byte>, prepared: seq<PreparedEntry>, ghost es: seq<Entry>)
    returns (r: Result<Bytes, ZipError>)
    requires AllHold(prepared, es) && Distinct(prepared)
    requires output.Length == LocalSize(es) + CentralSize(es) + 22 <= UINT32_MAX
    modifies output, set p | p in prepared
    ensures r == Ok(Archive(es))
    ensures forall i :: 0 <= i < |es| ==> prepared[i].localHeaderOffset == LocalOffset(es, i)
  {
    hide CentralSize, LocalSize, LocalRecords, CentralRecords, Flatten, EndRecord, Distinct, PreparedEntry.Holds;
    var centralOffset, inside := WriteLocals(output, prepared, es);
    if !inside {
      return Err(OutsideZip32);
    }
    var offset;
    offset, inside := WriteDirectory(output, centralOffset, prepared, es);
    if !inside {
      return Err(OutsideZip32);
    }
    var centralSize := offset - centralOffset;
    if !WithinUInt32(centralSize) {
      return Err(OutsideZip32);
    }
    offset := WriteEocd(output, offset, |prepared|, centralSize, centralOffset);
    if offset != output.Length {
      return Err(AssemblyFailed);
    }
    assert output[..] == output[..offset];
    r := Ok(output[..]);
  }

  /** The writer: it answers the first fault of its input, or the archive of its
      entries. The size, 32-bit and assembly checks never fail. */
  method CreateDeterministicZip(inputs: seq<Input>) returns (r: Result<Bytes, ZipError>)
    ensures r.Ok? <==> Accepted(inputs)
    ensures r.Ok? ==> r.value == Archive(EntriesOf(inputs))
    ensures r.Ok? ==> forall k :: 0 <= k < |inputs| ==> Holds(r.value, inputs, k)
    ensures var es := EntriesOf(inputs);
            r.Ok? ==> EndsWith(r.value, CentralOffset(es, 0), CentralOffset(es, |es|), |inputs|)
    ensures r.Err? ==> Fault(inputs) == Some(r.error)
  {
    AcceptedMeaning(inputs);
    if Accepted(inputs) {
      ArchiveHolds(inputs);
    }
    hide Holds, EndsWith, Archive, CentralOffset;
    hide Accepted, Fault, IsTable, AllHold, Distinct, CentralSize, LocalSize, EntriesOf, LocalRecords, CentralRecords;
    var table := CreateTable();
    var fault, prepared, outputBytes := Prepare(inputs, table);
    if fault.Some? {
      return Err(fault.value);
    }
    ghost var es := EntriesOf(inputs);
    AcceptedSize(inputs);
    var output := new Byte[outputBytes];
    r := WriteArchive(output, prepared, es);
  }

  lemma AcceptedSize(inputs: seq<Input>)
    requires Accepted(inputs)
    ensures LocalSize(EntriesOf(inputs)) + CentralSize(EntriesOf(inputs)) + 22 <= 5_242_880
  {
    hide ValidName;
    forall i | 0 <= i < |inputs| ensures |inputs[i].name| <= MAX_NAME_BYTES {
      assert inputs[i] in inputs;
      assert ValidName(inputs[i].name);
      ShortName(inputs[i].name);
    }
    var es := EntriesOf(inputs);
    assert inputs[..|inputs|] == inputs && es[..|es|] == es;
    SizesOf(inputs, |inputs|);
  }

  lemma ShortName(name: string)
    requires ValidName(name)
    ensures |name| <= MAX_NAME_BYTES
  {
  }

  /** The k-th input's headers and content stand where the sizes before put them, and its
      name is spelled in both. */
  ghost predicate Holds(a: Bytes, inputs: seq<Input>, k: nat)
    requires k < |inputs|
  {
    var es, name := EntriesOf(inputs), inputs[k].name;
    var o, c := LocalOffset(es, k), CentralOffset(es, k);
    && Describes(a, o, c, es[k]) && es[k].data == inputs[k].bytes && |es[k].name| == |name|
    && forall i :: 0 <= i < |name| ==> es[k].name[i] as int == name[i] as int
  }

  lemma NameSpelled(name: string)
    requires ValidName(name)
    ensures forall i :: 0 <= i < |name| ==> NameBytes(name)[i] as int == name[i] as int
  {
    hide SplitSlash, ContainsPair;
    forall i | 0 <= i < |name| ensures NameBytes(name)[i] as int == name[i] as int {
      assert name[i] in name;
    }
  }

  lemma HoldsOne(inputs: seq<Input>, k: nat)
    requires k < |inputs| && ValidName(inputs[k].name) && Archivable(EntriesOf(inputs))
    ensures Holds(Archive(EntriesOf(inputs)), inputs, k)
  {
    hide Archive, ValidName, NameBytes, Archivable, LocalOffset, CentralOffset, Describes;
    CentralPointsAtLocal(EntriesOf(inputs), k);
    NameSpelled(inputs[k].name);
  }

  /** What the archive of accepted inputs holds, byte by byte. */
  lemma ArchiveHolds(inputs: seq<Input>)
    requires Accepted(inputs)
    ensures var es := EntriesOf(inputs);
            EndsWith(Archive(es), CentralOffset(es, 0), CentralOffset(es, |es|), |inputs|)
    ensures forall k :: 0 <= k < |inputs| ==> Holds(Archive(EntriesOf(inputs)), inputs, k)
  {
    AcceptedArchivable(inputs);
    hide Archive, ValidName, Archivable, CentralOffset, EndsWith, Holds, EntriesOf;
    EndDescribesDirectory(EntriesOf(inputs));
    forall k | 0 <= k < |inputs| ensures Holds(Archive(EntriesOf(inputs)), inputs, k) {
      assert inputs[k] in inputs;
      HoldsOne(inputs, k);
    }
  }

  // ----------------------------------------------------------------- round trip

  lemma NameBytesInjective(a: string, b: string)
    requires ValidName(a) && ValidName(b) && NameBytes(a) == NameBytes(b)
    ensures a == b
  {
    hide SplitSlash, ContainsPair;
    forall i | 0 <= i < |a| ensures a[i] == b[i] {
      assert a[i] in a && b[i] in b && NameBytes(a)[i] == NameBytes(b)[i];
    }
  }

  lemma AcceptedArchivable(inputs: seq<Input>)
    requires Accepted(inputs)
    ensures Archivable(EntriesOf(inputs)) && EntriesOf(inputs) != []
  {
    hide ValidName;
    AcceptedSize(inputs);
    var es := EntriesOf(inputs);
    forall e | e in es ensures |e.name| < 0x1_0000 {
      var i :| 0 <= i < |es| && es[i] == e;
      assert inputs[i] in inputs;
      ShortName(inputs[i].name);
    }
  }

  /** Whatever the writer accepts, the reader recovers from what the writer wrote. */
  lemma WriterRoundTrip(inputs: seq<Input>)
    requires Accepted(inputs)
    ensures EntriesFrom(Archive(EntriesOf(inputs)), 0) == Ok(EntriesOf(inputs))
  {
    hide Accepted, EntriesOf, Archive, EntriesFrom;
    AcceptedArchivable(inputs);
    ArchiveRoundTrip(EntriesOf(inputs));
  }

  /** Different accepted inputs give different archives. */
  lemma WriterInjective(inputs: seq<Input>, others: seq<Input>)
    requires Accepted(inputs) && Accepted(others)
    requires Archive(EntriesOf(inputs)) == Archive(EntriesOf(others))
    ensures inputs == others
  {
    hide Archive, ValidName, NameBytes;
    AcceptedArchivable(inputs);
    AcceptedArchivable(others);
    var es, fs := EntriesOf(inputs), EntriesOf(others);
    ArchiveInjective(es, fs);
    forall i | 0 <= i < |inputs| ensures inputs[i] == others[i] {
      assert inputs[i] in inputs && others[i] in others && es[i] == fs[i];
      NameBytesInjective(inputs[i].name, others[i].name);
    }
  }
}
