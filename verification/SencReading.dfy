/** Reading a SENC header: what any stream of bytes is taken for, and that written records come back. */
module SencReading {
  import opened SencFormat

  /** The reader's return code, or that it looked past the payload of a record that is too short. */
  datatype Outcome = Finished(code: int) | Overread

  datatype Option<T> = None | Some(value: T)

  function U16At(s: seq<Byte>, at: nat): U16
    requires at + 2 <= |s|
  {
    LEWidths();
    UnLE(s[at..at + 2])
  }

  function U32At(s: seq<Byte>, at: nat): U32
    requires at + 4 <= |s|
  {
    LEWidths();
    UnLE(s[at..at + 4])
  }

  function U64At(s: seq<Byte>, at: nat): U64
    requires at + 8 <= |s|
  {
    LEWidths();
    UnLE(s[at..at + 8])
  }

  /** A C string: the bytes before the first NUL, if there is one. */
  function CString(s: seq<Byte>): Option<seq<Byte>> {
    if s == [] then None
    else if s[0] == 0 then Some([])
    else match CString(s[1..])
      case None => None
      case Some(rest) => Some([s[0]] + rest)
  }

  function Points(s: seq<Byte>, n: nat): (points: seq<U32>)
    requires 4 * n <= |s|
    ensures |points| == n
    decreases n
  {
    if n == 0 then [] else [U32At(s, 0)] + Points(s[4..], n - 1)
  }

  function DoublesOf(s: seq<Byte>, n: nat): (ds: seq<U64>)
    requires 8 * n <= |s|
    ensures |ds| == n
    decreases n
  {
    if n == 0 then [] else [U64At(s, 0)] + DoublesOf(s[8..], n - 1)
  }

  predicate IsHeaderKind(kind: U16) {
    || IsTextKind(kind) || IsWordKind(kind) || kind == HEADER_CELL_NATIVESCALE
    || kind == CELL_EXTENT_RECORD || kind == CELL_COVR_RECORD || kind == CELL_NOCOVR_RECORD
  }

  /** One case of the switch in ingestHeader; None when the payload is too short for its fields. */
  function IngestRecord(h: Header, kind: U16, payload: seq<Byte>): Option<Header>
    requires IsHeaderKind(kind)
  {
    if IsTextKind(kind) then
      match CString(payload)
      case None => None
      case Some(text) => Some(Apply(h, Text(kind, text)))
    else if IsWordKind(kind) then
      if |payload| < 2 then None else Some(Apply(h, Word(kind, U16At(payload, 0))))
    else if kind == HEADER_CELL_NATIVESCALE then
      if |payload| < 4 then None else Some(h.(scale := U32At(payload, 0)))
    else if kind == CELL_EXTENT_RECORD then
      if |payload| < 64 then None
      else
        var corners := DoublesOf(payload, 8);
        Some(h.(extent := Extent(corners[6], corners[2], corners[3], corners[7])))
    else if |payload| < 4 || |payload| < 4 + 8 * U32At(payload, 0) then None
    else
      var points := Points(payload[4..], 2 * U32At(payload, 0));
      Some(if kind == CELL_COVR_RECORD then h.(covered := h.covered + [points])
           else h.(notCovered := h.notCovered + [points]))
  }

  /** The record loop of ingestHeader: up to a feature record, an unknown record or the end of the data. */
  function ReadRecords(h: Header, data: seq<Byte>): (Outcome, Header)
    decreases |data|
  {
    if |data| < 6 then (Finished(SENC_NO_ERROR), h)
    else
      var kind, length := U16At(data, 0), U32At(data, 2);
      if !IsHeaderKind(kind) || !(6 <= length <= |data|) then (Finished(SENC_NO_ERROR), h)
      else match IngestRecord(h, kind, data[6..length])
        case None => (Overread, h)
        case Some(h') => ReadRecords(h', data[length..])
  }

  /** verifySENC stops with a code, or lets the reader go on with the rest of the data. */
  datatype Verified = Stop(outcome: Outcome, h: Header) | Continue(h: Header, rest: seq<Byte>)

  /** The version record: it must come first, be short, and name a version from 200 to 299. */
  function VerifyVersion(h: Header, data: seq<Byte>): Verified {
    if |data| < 6 then Stop(Finished(ERROR_SENC_CORRUPT), h)
    else
      var kind, length := U16At(data, 0), U32At(data, 2);
      if kind != HEADER_SENC_VERSION || !(6 <= length < 16) || length > |data| then
        Stop(Finished(ERROR_SENC_CORRUPT), h)
      else if length < 8 then Stop(Overread, h)
      else
        var h' := h.(version := U16At(data, 6));
        if h'.version == 1024 then Stop(Finished(ERROR_SIGNATURE_FAILURE), h')
        else if !(200 <= h'.version <= 299) then Stop(Finished(ERROR_SENC_VERSION_MISMATCH), h')
        else Continue(h', data[length..])
  }

  /** The six words of a server status record. */
  function StatusWords(data: seq<Byte>): (words: seq<U16>)
    requires |data| >= 18
    ensures |words| == 6
  {
    seq(6, i requires 0 <= i < 6 => U16At(data, 6 + 2 * i))
  }

  /** verifySENC: unified charts may start with a short server status record. */
  function Verify(h: Header, unified: bool, data: seq<Byte>): Verified {
    if |data| < 6 then Stop(Finished(ERROR_SENC_CORRUPT), h)
    else
      var kind, length := U16At(data, 0), U32At(data, 2);
      if !(unified && kind == SERVER_STATUS_RECORD && length < 20) then VerifyVersion(h, data)
      else if !(6 <= length <= |data|) then Stop(Finished(ERROR_SENC_CORRUPT), h)
      else if length < 18 then Stop(Overread, h)
      else
        var h' := h.(status := StatusWords(data));
        if h'.status[2] == 0 then Stop(Finished(ERROR_SENC_EXPIRED), h')
        else if h'.status[1] == 0 then Stop(Finished(ERROR_SIGNATURE_FAILURE), h')
        else VerifyVersion(h', data[length..])
  }

  /** ingestHeader on the bytes of an opened stream. */
  function Ingest(h: Header, unified: bool, data: seq<Byte>): (Outcome, Header) {
    match Verify(h, unified, data)
    case Stop(outcome, h') => (outcome, h')
    case Continue(h', rest) => ReadRecords(h', rest)
  }

  // ---- Written records come back ----

  lemma FieldOfFrame(kind: U16, payload: seq<Byte>, tail: seq<Byte>)
    requires 6 + |payload| < 0x1_0000_0000
    ensures var data := Frame(kind, payload) + tail;
            && |data| == 6 + |payload| + |tail| && U16At(data, 0) == kind && U32At(data, 2) == 6 + |payload|
            && data[6..6 + |payload|] == payload && data[6 + |payload|..] == tail
  {
    var data := Frame(kind, payload) + tail;
    LEWidths();
    LERoundTrip(kind, 2);
    LERoundTrip(6 + |payload|, 4);
    assert data[0..2] == LE(kind, 2) && data[2..6] == LE(6 + |payload|, 4);
  }

  lemma {:induction false} CStringOfText(text: seq<Byte>)
    requires 0 !in text
    ensures CString(text + [0]) == Some(text)
  {
    if text != [] {
      CStringOfText(text[1..]);
      assert (text + [0])[1..] == text[1..] + [0];
      assert [text[0]] + text[1..] == text;
    }
  }

  lemma {:induction false} PointsOfFloats(points: seq<U32>)
    ensures Points(Floats(points), |points|) == points
  {
    if points != [] {
      var s := Floats(points);
      LEWidths();
      LERoundTrip(points[0], 4);
      assert s[0..4] == LE(points[0], 4) && s[4..] == Floats(points[1..]);
      PointsOfFloats(points[1..]);
    }
  }

  lemma FirstDouble(d: U64, s: seq<Byte>)
    ensures |LE(d, 8)| == 8 && U64At(LE(d, 8) + s, 0) == d && (LE(d, 8) + s)[8..] == s
  {
    LEWidths();
    LERoundTrip(d, 8);
    assert (LE(d, 8) + s)[0..8] == LE(d, 8);
  }

  lemma {:induction false} DoublesOfDoubles(ds: seq<U64>)
    ensures DoublesOf(Doubles(ds), |ds|) == ds
  {
    if ds != [] {
      FirstDouble(ds[0], Doubles(ds[1..]));
      DoublesOfDoubles(ds[1..]);
      assert ds == [ds[0]] + ds[1..];
    }
  }

  lemma IngestCoverage(h: Header, r: Record)
    requires Writable(r) && r.Coverage?
    ensures IngestRecord(h, Kind(r), Payload(r)) == Some(Apply(h, r))
  {
    var count, payload := |r.points| / 2, Payload(r);
    LEWidths();
    LERoundTrip(count, 4);
    assert payload[0..4] == LE(count, 4) && payload[4..] == Floats(r.points);
    PointsOfFloats(r.points);
  }

  lemma IngestNumber(h: Header, r: Record)
    requires Writable(r) && (r.Word? || r.Long?)
    ensures IngestRecord(h, Kind(r), Payload(r)) == Some(Apply(h, r))
  {
    LEWidths();
    if r.Word? {
      LERoundTrip(r.word, 2);
      assert Payload(r)[0..2] == Payload(r);
    } else {
      LERoundTrip(r.long, 4);
      assert Payload(r)[0..4] == Payload(r);
    }
  }

  lemma IngestText(h: Header, r: Record)
    requires Writable(r) && r.Text?
    ensures IngestRecord(h, Kind(r), Payload(r)) == Some(Apply(h, r))
  {
    CStringOfText(r.text);
  }

  lemma IngestCell(h: Header, r: Record)
    requires r.Cell?
    ensures IngestRecord(h, Kind(r), Payload(r)) == Some(Apply(h, r))
  {
    DoublesOfDoubles(Corners(r.extent));
  }

  /** Each written record is read as what it means. */
  lemma IngestWritten(h: Header, r: Record)
    requires Writable(r)
    ensures IsHeaderKind(Kind(r)) && IngestRecord(h, Kind(r), Payload(r)) == Some(Apply(h, r))
  {
    match r
    case Text(_, _) => IngestText(h, r);
    case Word(_, _) => IngestNumber(h, r);
    case Long(_, _) => IngestNumber(h, r);
    case Cell(_) => IngestCell(h, r);
    case Coverage(_, _) => IngestCoverage(h, r);
  }

  /** What may follow the header: a feature record, or too few bytes for another record. */
  predicate Ends(tail: seq<Byte>) {
    |tail| < 6 || U16At(tail, 0) == FEATURE_ID_RECORD
  }

  lemma {:induction false} ReadsWritten(h: Header, rs: seq<Record>, tail: seq<Byte>)
    requires AllWritable(rs) && Ends(tail)
    ensures ReadRecords(h, EncodeAll(rs) + tail) == (Finished(SENC_NO_ERROR), ApplyAll(h, rs))
    decreases |rs|
  {
    if rs == [] {
      assert EncodeAll(rs) + tail == tail;
    } else {
      var r, rest := rs[0], EncodeAll(rs[1..]) + tail;
      assert EncodeAll(rs) + tail == Encode(r) + rest;
      FieldOfFrame(Kind(r), Payload(r), rest);
      IngestWritten(h, r);
      ReadsWritten(Apply(h, r), rs[1..], tail);
    }
  }

  /** The code the version of the first record leads to. */
  function VersionCode(version: U16): int {
    if version == 1024 then ERROR_SIGNATURE_FAILURE
    else if 200 <= version <= 299 then SENC_NO_ERROR
    else ERROR_SENC_VERSION_MISMATCH
  }

  lemma VersionPart(version: U16, rest: seq<Byte>)
    ensures var data := Encode(Word(HEADER_SENC_VERSION, version)) + rest;
            && |data| == 8 + |rest| && U16At(data, 0) == HEADER_SENC_VERSION && U32At(data, 2) == 8
            && U16At(data, 6) == version && data[8..] == rest
  {
    LEWidths();
    LERoundTrip(version, 2);
    FieldOfFrame(HEADER_SENC_VERSION, LE(version, 2), rest);
    assert (Encode(Word(HEADER_SENC_VERSION, version)) + rest)[6..8] == LE(version, 2);
  }

  /**
   * The round trip: a version record and any list of written records are read back, field by field;
   * with a version that is not accepted only the version is read.
   */
  lemma HeaderRoundTrip(h: Header, unified: bool, version: U16, rs: seq<Record>, tail: seq<Byte>)
    requires AllWritable(rs) && Ends(tail)
    ensures Ingest(h, unified, Encode(Word(HEADER_SENC_VERSION, version)) + (EncodeAll(rs) + tail))
         == (Finished(VersionCode(version)),
             if VersionCode(version) == SENC_NO_ERROR then ApplyAll(h.(version := version), rs)
             else h.(version := version))
  {
    VersionPart(version, EncodeAll(rs) + tail);
    ReadsWritten(h.(version := version), rs, tail);
  }

  /** A stream that does not start with a short version record, or status and version record, is corrupt. */
  lemma OtherStartIsCorrupt(h: Header, unified: bool, r: Record, rest: seq<Byte>)
    requires Writable(r) && Kind(r) != HEADER_SENC_VERSION
    ensures Ingest(h, unified, Encode(r) + rest) == (Finished(ERROR_SENC_CORRUPT), h)
  {
    FieldOfFrame(Kind(r), Payload(r), rest);
  }
}
