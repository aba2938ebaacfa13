/** The SENC header writer and reader as they run: a persistent buffer, an output file, an input stream. */
module SencFile {
  import opened SencFormat
  import opened SencReading

  class OutFile {
    var data: seq<Byte>

    constructor ()
      ensures data == []
    {
      data := [];
    }

    /** fwrite. */
    method Write(bytes: seq<Byte>)
      modifies this
      ensures data == old(data) + bytes
    {
      data := data + bytes;
    }
  }

  class InStream {
    var data: seq<Byte>
    var ok: bool

    constructor (data: seq<Byte>)
      ensures this.data == data && ok
    {
      this.data, ok := data, true;
    }

    /** Read n bytes, or fail when fewer are left. */
    method Read(n: int) returns (bytes: seq<Byte>)
      modifies this
      ensures ok <==> old(ok) && 0 <= n <= |old(data)|
      ensures ok ==> bytes == old(data)[..n] && data == old(data)[n..]
    {
      if ok && 0 <= n <= |data| {
        bytes, data := data[..n], data[n..];
      } else {
        bytes, ok := [], false;
      }
    }
  }

  /** memcpy of s into a buffer. */
  method Store(buf: array<Byte>, at: nat, s: seq<Byte>)
    requires at + |s| <= buf.Length
    modifies buf
    ensures buf[..] == old(buf[..at]) + s + old(buf[at + |s|..])
  {
    var i := 0;
    while i < |s|
      invariant 0 <= i <= |s|
      invariant forall k :: 0 <= k < buf.Length ==> buf[k] == if at <= k < at + i then s[k - at] else old(buf[k])
    {
      buf[at + i] := s[i];
      i := i + 1;
    }
  }

  /** memset of the first n bytes to zero. */
  method Clear(buf: array<Byte>, n: nat)
    requires n <= buf.Length
    modifies buf
    ensures forall k :: 0 <= k < buf.Length ==> buf[k] == if k < n then 0 else old(buf[k])
  {
    for i := 0 to n
      invariant forall k :: 0 <= k < buf.Length ==> buf[k] == if k < i then 0 else old(buf[k])
    {
      buf[i] := 0;
    }
  }

  lemma Assembled(s0: seq<Byte>, s1: seq<Byte>, s2: seq<Byte>, s3: seq<Byte>, kind: seq<Byte>, length: seq<Byte>,
                  payload: seq<Byte>)
    requires |kind| == 2 && |length| == 4 && 6 + |payload| <= |s0|
    requires s1 == s0[..0] + kind + s0[2..] && s2 == s1[..2] + length + s1[6..]
    requires s3 == s2[..6] + payload + s2[6 + |payload|..]
    ensures s3[..6 + |payload|] == kind + length + payload
  {
  }

  function CoverageRecords(tables: seq<seq<U32>>, covered: bool): (rs: seq<Record>)
    ensures |rs| == |tables|
  {
    if tables == [] then [] else [Coverage(covered, tables[0])] + CoverageRecords(tables[1..], covered)
  }

  /** The records CreateCovrRecords writes: the extent, then the covered, then the uncovered areas. */
  function CovrRecords(extent: Extent, covrTable: seq<seq<U32>>, noCovrTable: seq<seq<U32>>): seq<Record> {
    [Cell(extent)] + CoverageRecords(covrTable, true) + CoverageRecords(noCovrTable, false)
  }

  predicate TablesFit(tables: seq<seq<U32>>) {
    forall i :: 0 <= i < |tables| ==> |tables[i]| % 2 == 0 && 10 + 4 * |tables[i]| < 0x1_0000_0000
  }

  lemma {:induction false} CoverageRecordsSnoc(tables: seq<seq<U32>>, t: seq<U32>, covered: bool)
    ensures CoverageRecords(tables + [t], covered) == CoverageRecords(tables, covered) + [Coverage(covered, t)]
  {
    if tables == [] {
      assert (tables + [t])[1..] == [];
    } else {
      assert (tables + [t])[1..] == tables[1..] + [t];
      CoverageRecordsSnoc(tables[1..], t, covered);
    }
  }

  lemma {:induction false} EncodeAllConcat(rs: seq<Record>, ts: seq<Record>)
    ensures EncodeAll(rs + ts) == EncodeAll(rs) + EncodeAll(ts)
  {
    if rs == [] {
      assert rs + ts == ts;
    } else {
      assert (rs + ts)[1..] == rs[1..] + ts;
      EncodeAllConcat(rs[1..], ts);
    }
  }

  lemma {:induction false} TablesWritable(tables: seq<seq<U32>>, covered: bool)
    requires TablesFit(tables)
    ensures AllWritable(CoverageRecords(tables, covered))
  {
    if tables != [] { TablesWritable(tables[1..], covered); }
  }

  lemma {:induction false} TablesApplied(h: Header, tables: seq<seq<U32>>, covered: bool)
    ensures ApplyAll(h, CoverageRecords(tables, covered))
         == if covered then h.(covered := h.covered + tables) else h.(notCovered := h.notCovered + tables)
    decreases |tables|
  {
    if tables == [] {
      assert h.covered + [] == h.covered && h.notCovered + [] == h.notCovered;
    } else {
      var t, h' := tables[0], Apply(h, Coverage(covered, tables[0]));
      TablesApplied(h', tables[1..], covered);
      assert h.covered + [t] + tables[1..] == h.covered + tables;
      assert h.notCovered + [t] + tables[1..] == h.notCovered + tables;
    }
  }

  /** Reading what CreateCovrRecords wrote recovers the extent and both lists of areas, in order. */
  lemma CovrRecordsRoundTrip(h: Header, extent: Extent, covrTable: seq<seq<U32>>, noCovrTable: seq<seq<U32>>,
                             tail: seq<Byte>)
    requires TablesFit(covrTable) && TablesFit(noCovrTable) && Ends(tail)
    ensures ReadRecords(h, EncodeAll(CovrRecords(extent, covrTable, noCovrTable)) + tail)
         == (Finished(SENC_NO_ERROR),
             h.(extent := extent, covered := h.covered + covrTable, notCovered := h.notCovered + noCovrTable))
  {
    var first, second := CoverageRecords(covrTable, true), CoverageRecords(noCovrTable, false);
    TablesWritable(covrTable, true);
    TablesWritable(noCovrTable, false);
    ReadsWritten(h, CovrRecords(extent, covrTable, noCovrTable), tail);
    CovrRecordsMean(h, extent, covrTable, noCovrTable);
  }

  lemma CovrRecordsMean(h: Header, extent: Extent, covrTable: seq<seq<U32>>, noCovrTable: seq<seq<U32>>)
    ensures ApplyAll(h, CovrRecords(extent, covrTable, noCovrTable))
         == h.(extent := extent, covered := h.covered + covrTable, notCovered := h.notCovered + noCovrTable)
  {
    var first, second := CoverageRecords(covrTable, true), CoverageRecords(noCovrTable, false);
    ApplyAllConcat(h, [Cell(extent)] + first, second);
    ApplyAllConcat(h, [Cell(extent)], first);
    assert [Cell(extent)][1..] == [];
    TablesApplied(h.(extent := extent), covrTable, true);
    TablesApplied(ApplyAll(h, [Cell(extent)] + first), noCovrTable, false);
  }

  lemma Associate(a: seq<Byte>, b: seq<Byte>, c: seq<Byte>)
    ensures (a + b) + c == a + (b + c)
  {
  }

  lemma FrameInPieces(d: seq<Byte>, base: seq<Byte>, count: seq<Byte>, points: seq<Byte>)
    ensures d + base + count + points == d + (base + (count + points))
  {
  }

  lemma NextTable(tables: seq<seq<U32>>, i: nat, covered: bool)
    requires i < |tables|
    ensures EncodeAll(CoverageRecords(tables[..i + 1], covered))
         == EncodeAll(CoverageRecords(tables[..i], covered)) + Encode(Coverage(covered, tables[i]))
  {
    var front, r := CoverageRecords(tables[..i], covered), Coverage(covered, tables[i]);
    assert CoverageRecords(tables[..i + 1], covered) == front + [r] by {
      assert tables[..i + 1] == tables[..i] + [tables[i]];
      CoverageRecordsSnoc(tables[..i], tables[i], covered);
    }
    EncodeAllConcat(front, [r]);
    SingleRecord(r);
  }

  lemma TableFrame(points: seq<U32>, covered: bool, base: seq<Byte>, count: seq<Byte>, coordinates: seq<Byte>)
    requires |points| % 2 == 0 && count == LE(|points| / 2, 4) && coordinates == Floats(points)
    requires base == LE(if covered then CELL_COVR_RECORD else CELL_NOCOVR_RECORD, 2)
                     + LE(6 + 4 + |points| / 2 * 2 * 4, 4)
    ensures Encode(Coverage(covered, points)) == base + (count + coordinates)
  {
    HalfTwice(|points|);
    assert 6 + |count + coordinates| == 6 + 4 + |points| / 2 * 2 * 4;
  }

  lemma HalfTwice(n: nat)
    requires n % 2 == 0
    ensures n / 2 * 2 * 4 == 4 * n
  {
  }

  lemma CovrRecordsInPieces(d: seq<Byte>, extent: Extent, covrTable: seq<seq<U32>>, noCovrTable: seq<seq<U32>>)
    ensures d + Encode(Cell(extent)) + EncodeAll(CoverageRecords(covrTable, true)) +
              EncodeAll(CoverageRecords(noCovrTable, false))
         == d + EncodeAll(CovrRecords(extent, covrTable, noCovrTable))
  {
    var first, second := CoverageRecords(covrTable, true), CoverageRecords(noCovrTable, false);
    EncodeAllConcat([Cell(extent)] + first, second);
    EncodeAllConcat([Cell(extent)], first);
    SingleRecord(Cell(extent));
    FrameInPieces(d, Encode(Cell(extent)), EncodeAll(first), EncodeAll(second));
    Associate(Encode(Cell(extent)), EncodeAll(first), EncodeAll(second));
  }

  lemma SingleRecord(r: Record)
    ensures EncodeAll([r]) == Encode(r)
  {
    assert [r][1..] == [];
    assert Encode(r) + [] == Encode(r);
  }

  method WritePieces(fileOut: OutFile, base: seq<Byte>, count: seq<Byte>, coordinates: seq<Byte>)
    modifies fileOut
    ensures fileOut.data == old(fileOut.data) + (base + (count + coordinates))
  {
    FrameInPieces(fileOut.data, base, count, coordinates);
    fileOut.Write(base);
    fileOut.Write(count);
    fileOut.Write(coordinates);
  }

  /** The base of an area's record; its length is counted in points. */
  method TableBase(points: seq<U32>, covered: bool, nPoints: nat) returns (base: seq<Byte>)
    requires |points| % 2 == 0 && nPoints == |points| / 2 && 10 + 4 * |points| < 0x1_0000_0000
    ensures base + (LE(nPoints, 4) + Floats(points)) == Encode(Coverage(covered, points))
  {
    var recordLength := 6 + 4 + nPoints * 2 * 4;
    base := LE(if covered then CELL_COVR_RECORD else CELL_NOCOVR_RECORD, 2) + LE(recordLength, 4);
    TableFrame(points, covered, base, LE(nPoints, 4), Floats(points));
  }

  /** One area: base, point count and points are written apart. */
  method WriteTable(fileOut: OutFile, points: seq<U32>, covered: bool)
    requires |points| % 2 == 0 && 10 + 4 * |points| < 0x1_0000_0000
    modifies fileOut
    ensures fileOut.data == old(fileOut.data) + Encode(Coverage(covered, points))
  {
    var nPoints := |points| / 2;
    var base := TableBase(points, covered, nPoints);
    WritePieces(fileOut, base, LE(nPoints, 4), Floats(points));
  }

  method WriteTables(fileOut: OutFile, tables: seq<seq<U32>>, covered: bool)
    requires TablesFit(tables)
    modifies fileOut
    ensures fileOut.data == old(fileOut.data) + EncodeAll(CoverageRecords(tables, covered))
  {
    var i := 0;
    while i < |tables|
      invariant 0 <= i <= |tables|
      invariant fileOut.data == old(fileOut.data) + EncodeAll(CoverageRecords(tables[..i], covered))
    {
      WriteTable(fileOut, tables[i], covered);
      NextTable(tables, i, covered);
      Associate(old(fileOut.data), EncodeAll(CoverageRecords(tables[..i], covered)),
                Encode(Coverage(covered, tables[i])));
      i := i + 1;
    }
    assert tables[..|tables|] == tables;
  }

  /** CreateCovrRecords. */
  method CreateCovrRecords(fileOut: OutFile, extent: Extent, covrTable: seq<seq<U32>>, noCovrTable: seq<seq<U32>>)
    requires TablesFit(covrTable) && TablesFit(noCovrTable)
    modifies fileOut
    ensures fileOut.data == old(fileOut.data) + EncodeAll(CovrRecords(extent, covrTable, noCovrTable))
  {
    var record := LE(CELL_EXTENT_RECORD, 2) + LE(70, 4) + Doubles(Corners(extent));
    fileOut.Write(record);
    WriteTables(fileOut, covrTable, true);
    WriteTables(fileOut, noCovrTable, false);
    CovrRecordsInPieces(old(fileOut.data), extent, covrTable, noCovrTable);
  }

  lemma {:induction false} FirstNul(buf: seq<Byte>, n: nat)
    requires n <= |buf| && 0 !in buf[..n] && (n < |buf| ==> buf[n] == 0)
    ensures CString(buf) == if n == |buf| then None else Some(buf[..n])
  {
    if n > 0 {
      assert buf[0] == buf[..n][0];
      assert buf[1..][..n - 1] == buf[..n][1..];
      FirstNul(buf[1..], n - 1);
      assert [buf[0]] + buf[1..][..n - 1] == buf[..n];
    }
  }

  /** wxString from a C string: up to the terminating NUL. */
  method ReadCString(buf: seq<Byte>) returns (text: Option<seq<Byte>>)
    ensures text == CString(buf)
  {
    var n := 0;
    while n < |buf| && buf[n] != 0
      invariant 0 <= n <= |buf| && 0 !in buf[..n]
    {
      n := n + 1;
    }
    FirstNul(buf, n);
    text := if n == |buf| then None else Some(buf[..n]);
  }

  /** memcpy of the coordinates of an area. */
  method CopyPoints(buf: seq<Byte>, n: nat) returns (pf: seq<U32>)
    requires 4 * n <= |buf|
    ensures pf == Points(buf, n)
  {
    pf := [];
    var i := 0;
    while i < n
      invariant 0 <= i <= n && Points(buf, n) == pf + Points(buf[4 * i..], n - i)
    {
      var rest := buf[4 * i..];
      assert rest[4..] == buf[4 * (i + 1)..];
      pf := pf + [U32At(rest, 0)];
      i := i + 1;
    }
  }

  class Osenc {
    var pBuffer: array<Byte>
    var senc_file_read_version: U16
    var Name: seq<Byte>
    var sdate000: seq<Byte>
    var read_base_edtn: string
    var LastUpdateDate: seq<Byte>
    var read_last_applied_update: U16
    var Chart_Scale: U32
    var readFileCreateDate: seq<Byte>
    var SoundingDatum: seq<Byte>
    var extent: Extent
    var AuxPtrArray: seq<seq<U32>>
    var NoCovrPtrArray: seq<seq<U32>>
    var serverStatus: seq<U16>

    /** The fields that reading a header may change. */
    ghost function View(): Header
      reads this
    {
      Header(senc_file_read_version, Name, sdate000, read_base_edtn, LastUpdateDate, read_last_applied_update,
             Chart_Scale, readFileCreateDate, SoundingDatum, extent, AuxPtrArray, NoCovrPtrArray, serverStatus)
    }

    constructor ()
      ensures fresh(pBuffer)
    {
      pBuffer := new Byte[0];
      senc_file_read_version, Name, sdate000, read_base_edtn, LastUpdateDate := 0, [], [], [], [];
      read_last_applied_update, Chart_Scale, readFileCreateDate, SoundingDatum := 0, 0, [], [];
      extent, AuxPtrArray, NoCovrPtrArray, serverStatus := Extent(0, 0, 0, 0), [], [], [];
    }

    /** getBuffer: make the persistent buffer at least this long; it grows to twice the length asked for. */
    method GetBuffer(length: nat)
      modifies this`pBuffer
      ensures pBuffer.Length == if length > old(pBuffer.Length) then 2 * length else old(pBuffer.Length)
      ensures pBuffer == old(pBuffer) || fresh(pBuffer)
      ensures old(pBuffer.Length) <= pBuffer.Length && pBuffer[..old(pBuffer.Length)] == old(pBuffer[..])
    {
      if length > pBuffer.Length {
        var grown := new Byte[length * 2];
        var n := pBuffer.Length;
        var i := 0;
        while i < n
          invariant 0 <= i <= n == pBuffer.Length && grown[..i] == pBuffer[..i]
          invariant pBuffer == old(pBuffer) && pBuffer[..] == old(pBuffer[..])
          modifies grown
        {
          grown[i] := pBuffer[i];
          i := i + 1;
        }
        pBuffer := grown;
      }
    }

    /** Lay a record out in the persistent buffer and append it to the file. */
    method WriteRecord(fileOut: OutFile, recordType: U16, payload: seq<Byte>)
      requires 6 + |payload| < 0x1_0000_0000
      modifies this`pBuffer, pBuffer, fileOut
      ensures pBuffer == old(pBuffer) || fresh(pBuffer)
      ensures fileOut.data == old(fileOut.data) + Frame(recordType, payload)
    {
      var recordLength := |payload| + 6;
      GetBuffer(recordLength);
      Clear(pBuffer, recordLength);
      ghost var s0 := pBuffer[..];
      Store(pBuffer, 0, LE(recordType, 2));
      ghost var s1 := pBuffer[..];
      Store(pBuffer, 2, LE(recordLength, 4));
      ghost var s2 := pBuffer[..];
      Store(pBuffer, 6, payload);
      Assembled(s0, s1, s2, pBuffer[..], LE(recordType, 2), LE(recordLength, 4), payload);
      fileOut.Write(pBuffer[..recordLength]);
    }

    /** WriteHeaderRecord200 for a string: the text with its terminating NUL. */
    method WriteText(fileOut: OutFile, recordType: U16, payload: seq<Byte>)
      requires |payload| + 7 < 0x1_0000_0000
      modifies this`pBuffer, pBuffer, fileOut
      ensures pBuffer == old(pBuffer) || fresh(pBuffer)
      ensures fileOut.data == old(fileOut.data) + Encode(Text(recordType, payload))
    {
      WriteRecord(fileOut, recordType, payload + [0]);
    }

    /** WriteHeaderRecord200 for a 16-bit number. */
    method WriteWord(fileOut: OutFile, recordType: U16, val: U16)
      modifies this`pBuffer, pBuffer, fileOut
      ensures pBuffer == old(pBuffer) || fresh(pBuffer)
      ensures fileOut.data == old(fileOut.data) + Encode(Word(recordType, val))
    {
      WriteRecord(fileOut, recordType, LE(val, 2));
    }

    /** WriteHeaderRecord200 for a 32-bit number. */
    method WriteLong(fileOut: OutFile, recordType: U16, val: U32)
      modifies this`pBuffer, pBuffer, fileOut
      ensures pBuffer == old(pBuffer) || fresh(pBuffer)
      ensures fileOut.data == old(fileOut.data) + Encode(Long(recordType, val))
    {
      WriteRecord(fileOut, recordType, LE(val, 4));
    }

    /** A text field of ingestHeader. */
    method StoreText(kind: U16, text: seq<Byte>)
      requires IsTextKind(kind)
      modifies this
      ensures View() == Apply(old(View()), Text(kind, text))
    {
      if kind == HEADER_CELL_NAME { Name := text; }
      else if kind == HEADER_CELL_PUBLISHDATE { sdate000 := text; }
      else if kind == HEADER_CELL_UPDATEDATE { LastUpdateDate := text; }
      else if kind == HEADER_CELL_SENCCREATEDATE { readFileCreateDate := text; }
      else { SoundingDatum := text; }
    }

    /** A 16-bit field of ingestHeader; the edition is printed. */
    method StoreWord(kind: U16, word: U16)
      requires IsWordKind(kind)
      modifies this
      ensures View() == Apply(old(View()), Word(kind, word))
    {
      if kind == HEADER_SENC_VERSION { senc_file_read_version := word; }
      else if kind == HEADER_CELL_EDITION { read_base_edtn := Decimal(word); }
      else { read_last_applied_update := word; }
    }

    /** The switch of ingestHeader on one record whose payload was read. */
    method Process(kind: U16, buf: seq<Byte>) returns (enough: bool)
      requires IsHeaderKind(kind)
      modifies this
      ensures match IngestRecord(old(View()), kind, buf)
              case None => !enough && View() == old(View())
              case Some(h) => enough && View() == h
    {
      enough := true;
      if IsTextKind(kind) {
        var text := ReadCString(buf);
        if text == None { return false; }
        StoreText(kind, text.value);
      } else if IsWordKind(kind) {
        if |buf| < 2 { return false; }
        StoreWord(kind, U16At(buf, 0));
      } else if kind == HEADER_CELL_NATIVESCALE {
        if |buf| < 4 { return false; }
        Chart_Scale := U32At(buf, 0);
      } else if kind == CELL_EXTENT_RECORD {
        if |buf| < 64 { return false; }
        var corners := DoublesOf(buf, 8);
        extent := extent.(NLAT := corners[2]);
        extent := extent.(SLAT := corners[6]);
        extent := extent.(WLON := corners[3]);
        extent := extent.(ELON := corners[7]);
      } else {
        if |buf| < 4 || |buf| < 4 + 8 * U32At(buf, 0) { return false; }
        var pf := CopyPoints(buf[4..], 2 * U32At(buf, 0));
        if kind == CELL_COVR_RECORD {
          AuxPtrArray := AuxPtrArray + [pf];
        } else {
          NoCovrPtrArray := NoCovrPtrArray + [pf];
        }
      }
    }

    /** The part of verifySENC about the version record, whose base was read already if there was one. */
    method CheckVersion(fpx: InStream, record: seq<Byte>, ghost data: seq<Byte>) returns (o: Outcome)
      requires fpx.ok ==> |data| >= 6 && record == data[..6] && fpx.data == data[6..]
      requires !fpx.ok ==> |data| < 6 && |record| == 6 && U16At(record, 0) != HEADER_SENC_VERSION
      modifies this, fpx
      ensures match VerifyVersion(old(View()), data)
              case Stop(outcome, h) => o == outcome != Finished(SENC_NO_ERROR) && View() == h
              case Continue(h, rest) => o == Finished(SENC_NO_ERROR) && View() == h && fpx.ok && fpx.data == rest
    {
      if fpx.ok { BaseOf(data, record); }
      var recordType := U16At(record, 0);
      var recordLength: int := U32At(record, 2);
      if recordType == HEADER_SENC_VERSION && recordLength >= 6 && recordLength < 16 {
        var buf := fpx.Read(recordLength - 6);
        if !fpx.ok { return Finished(ERROR_SENC_CORRUPT); }
        if |buf| < 2 { return Overread; }
        PayloadSlice(data, buf, recordLength);
        senc_file_read_version := U16At(buf, 0);
        if senc_file_read_version == 1024 { return Finished(ERROR_SIGNATURE_FAILURE); }
        if senc_file_read_version < 200 || senc_file_read_version > 299 {
          return Finished(ERROR_SENC_VERSION_MISMATCH);
        }
      } else {
        return Finished(ERROR_SENC_CORRUPT);
      }
      return Finished(SENC_NO_ERROR);
    }

    /** The part of verifySENC about a server status record whose base was read. */
    method ReadStatus(fpx: InStream, recordLength: int, ghost data: seq<Byte>) returns (o: Outcome)
      requires fpx.ok && |data| >= 6 && fpx.data == data[6..] && 0 <= recordLength
      modifies this, fpx
      ensures o == if !(6 <= recordLength <= |data|) then Finished(ERROR_SENC_CORRUPT)
                   else if recordLength < 18 then Overread
                   else if U16At(data, 10) == 0 then Finished(ERROR_SENC_EXPIRED)
                   else if U16At(data, 8) == 0 then Finished(ERROR_SIGNATURE_FAILURE)
                   else Finished(SENC_NO_ERROR)
      ensures View() == if 18 <= recordLength <= |data| then old(View()).(status := StatusWords(data)) else old(View())
      ensures o == Finished(SENC_NO_ERROR) ==> fpx.ok && fpx.data == data[recordLength..]
    {
      var buf := fpx.Read(recordLength - 6);
      if !fpx.ok { return Finished(ERROR_SENC_CORRUPT); }
      if |buf| < 12 { return Overread; }
      assert buf == data[6..recordLength];
      forall i | 0 <= i < 6 { WordOfPayload(data, buf, 2 * i); }
      serverStatus := seq(6, i requires 0 <= i < 6 => U16At(buf, 2 * i));
      assert serverStatus == StatusWords(data);
      if serverStatus[2] == 0 { return Finished(ERROR_SENC_EXPIRED); }
      if serverStatus[1] == 0 { return Finished(ERROR_SIGNATURE_FAILURE); }
      return Finished(SENC_NO_ERROR);
    }

    /** verifySENC. */
    method VerifySENC(fpx: InStream, unified: bool) returns (o: Outcome)
      requires fpx.ok
      modifies this, fpx
      ensures match Verify(old(View()), unified, old(fpx.data))
              case Stop(outcome, h) => o == outcome != Finished(SENC_NO_ERROR) && View() == h
              case Continue(h, rest) => o == Finished(SENC_NO_ERROR) && View() == h && fpx.ok && fpx.data == rest
    {
      ghost var data := fpx.data;
      var record := fpx.Read(6);
      if !fpx.ok { return Finished(ERROR_SENC_CORRUPT); }
      BaseOf(data, record);
      var recordType := U16At(record, 0);
      var recordLength: int := U32At(record, 2);
      if unified && recordType == SERVER_STATUS_RECORD && recordLength < 20 {
        o := ReadStatus(fpx, recordLength, data);
        if o != Finished(SENC_NO_ERROR) { return; }
        data := fpx.data;
        var next := fpx.Read(6);
        if fpx.ok { record := next; }
      }
      o := CheckVersion(fpx, record, data);
    }

    /** The record loop of ingestHeader. */
    method ReadLoop(fpx: InStream) returns (o: Outcome)
      requires fpx.ok
      modifies this, fpx
      ensures (o, View()) == ReadRecords(old(View()), old(fpx.data))
    {
      o := Finished(SENC_NO_ERROR);
      var dun := false;
      while !dun
        invariant !dun ==> fpx.ok && o == Finished(SENC_NO_ERROR) &&
                           ReadRecords(View(), fpx.data) == ReadRecords(old(View()), old(fpx.data))
        invariant dun ==> (o, View()) == ReadRecords(old(View()), old(fpx.data))
        decreases !dun, |fpx.data|
      {
        ghost var data := fpx.data;
        var record := fpx.Read(6);
        if !fpx.ok { dun := true; break; }
        BaseOf(data, record);
        var recordType := U16At(record, 0);
        var recordLength: int := U32At(record, 2);
        if recordType == FEATURE_ID_RECORD { dun := true; break; }
        var buf := fpx.Read(recordLength - 6);
        if !fpx.ok { dun := true; break; }
        if !IsHeaderKind(recordType) { dun := true; break; }
        PayloadSlice(data, buf, recordLength);
        var enough := Process(recordType, buf);
        if !enough {
          o, dun := Overread, true;
        }
      }
    }

    /** ingestHeader on an opened stream: on any data, exactly what the format says. */
    method IngestHeader(fpx: InStream, unified: bool) returns (o: Outcome)
      requires fpx.ok
      modifies this, fpx
      ensures (o, View()) == Ingest(old(View()), unified, old(fpx.data))
    {
      o := VerifySENC(fpx, unified);
      if o != Finished(SENC_NO_ERROR) { return; }
      o := ReadLoop(fpx);
    }
  }

  lemma WordOfPayload(data: seq<Byte>, buf: seq<Byte>, at: nat)
    requires at + 2 <= |buf| && 6 + |buf| <= |data| && buf == data[6..6 + |buf|]
    ensures U16At(buf, at) == U16At(data, 6 + at)
  {
    var word, same := buf[at..at + 2], data[6 + at..6 + at + 2];
    assert word[0] == same[0] && word[1] == same[1];
    assert word == same;
  }

  /** What is read behind the base is a slice of the data. */
  lemma PayloadSlice(data: seq<Byte>, buf: seq<Byte>, n: nat)
    requires 6 <= n <= |data| && buf == data[6..][..n - 6]
    ensures buf == data[6..n] && data[6..][n - 6..] == data[n..] && (|buf| >= 2 ==> buf[0..2] == data[6..8])
  {
  }

  lemma BaseOf(data: seq<Byte>, record: seq<Byte>)
    requires |data| >= 6 && record == data[..6]
    ensures U16At(record, 0) == U16At(data, 0) && U32At(record, 2) == U32At(data, 2)
  {
    assert record[0..2] == data[0..2] && record[2..6] == data[2..6];
  }
}
