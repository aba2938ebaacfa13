/** The header of a cell file, written as createSenc200 writes it and read back by ingestHeader. */
module SencCell {
  import opened SencFormat
  import opened SencReading
  import opened SencFile

  /** What is known of a cell when its header is written; numbers are cut to the width of their field. */
  datatype CellHeader = CellHeader(
    version: int,
    name: seq<Byte>,
    publishDate: seq<Byte>,
    edition: int,
    updateDate: seq<Byte>,
    lastUpdate: int,
    nativeScale: int,
    createDate: seq<Byte>,
    hasCoverage: bool,
    extent: Extent,
    covrTable: seq<seq<U32>>,
    noCovrTable: seq<seq<U32>>)

  function Cut16(n: int): U16 { n % 0x1_0000 }

  function Cut32(n: int): U32 { n % 0x1_0000_0000 }

  predicate IsText(text: seq<Byte>) { 0 !in text && |text| + 7 < 0x1_0000_0000 }

  predicate Fits(c: CellHeader) {
    && IsText(c.name) && IsText(c.publishDate) && IsText(c.updateDate) && IsText(c.createDate)
    && TablesFit(c.covrTable) && TablesFit(c.noCovrTable)
  }

  function CoverageOf(c: CellHeader): seq<Record> {
    if c.hasCoverage then CovrRecords(c.extent, c.covrTable, c.noCovrTable) else []
  }

  /** The records that follow the version record. */
  function CellRecords(c: CellHeader): seq<Record> {
    [Text(HEADER_CELL_NAME, c.name), Text(HEADER_CELL_PUBLISHDATE, c.publishDate),
     Word(HEADER_CELL_EDITION, Cut16(c.edition)), Text(HEADER_CELL_UPDATEDATE, c.updateDate),
     Word(HEADER_CELL_UPDATE, Cut16(c.lastUpdate)), Long(HEADER_CELL_NATIVESCALE, Cut32(c.nativeScale)),
     Text(HEADER_CELL_SENCCREATEDATE, c.createDate)] + CoverageOf(c)
  }

  function HeaderRecords(c: CellHeader): seq<Record> {
    [Word(HEADER_SENC_VERSION, Cut16(c.version))] + CellRecords(c)
  }

  /** The fields of a reader after the cell: coverages are added to those it had. */
  function Described(h: Header, c: CellHeader): Header {
    var g := h.(version := Cut16(c.version), name := c.name, publishDate := c.publishDate,
                edition := Decimal(Cut16(c.edition)), updateDate := c.updateDate, lastUpdate := Cut16(c.lastUpdate),
                scale := Cut32(c.nativeScale), createDate := c.createDate);
    if c.hasCoverage then
      g.(extent := c.extent, covered := h.covered + c.covrTable, notCovered := h.notCovered + c.noCovrTable)
    else g
  }

  /** The file holds `d` and, after it, the first k records. */
  ghost predicate Written(file: OutFile, d: seq<Byte>, rs: seq<Record>, k: nat)
    requires k <= |rs|
    reads file
  {
    file.data == d + EncodeAll(rs[..k])
  }

  lemma NextRecord(d: seq<Byte>, rs: seq<Record>, k: nat)
    requires k < |rs|
    ensures d + EncodeAll(rs[..k + 1]) == d + EncodeAll(rs[..k]) + Encode(rs[k])
  {
    assert rs[..k + 1] == rs[..k] + [rs[k]];
    EncodeAllConcat(rs[..k], [rs[k]]);
    SingleRecord(rs[k]);
    Associate(d, EncodeAll(rs[..k]), Encode(rs[k]));
  }

  method AddText(senc: Osenc, fps57: OutFile, kind: U16, text: seq<Byte>, ghost d: seq<Byte>, ghost rs: seq<Record>,
                 ghost k: nat)
    requires IsText(text) && k < |rs| && rs[k] == Text(kind, text) && Written(fps57, d, rs, k)
    modifies senc`pBuffer, senc.pBuffer, fps57
    ensures senc.pBuffer == old(senc.pBuffer) || fresh(senc.pBuffer)
    ensures Written(fps57, d, rs, k + 1)
  {
    senc.WriteText(fps57, kind, text);
    NextRecord(d, rs, k);
  }

  method AddWord(senc: Osenc, fps57: OutFile, kind: U16, word: U16, ghost d: seq<Byte>, ghost rs: seq<Record>,
                 ghost k: nat)
    requires k < |rs| && rs[k] == Word(kind, word) && Written(fps57, d, rs, k)
    modifies senc`pBuffer, senc.pBuffer, fps57
    ensures senc.pBuffer == old(senc.pBuffer) || fresh(senc.pBuffer)
    ensures Written(fps57, d, rs, k + 1)
  {
    senc.WriteWord(fps57, kind, word);
    NextRecord(d, rs, k);
  }

  method AddLong(senc: Osenc, fps57: OutFile, kind: U16, long: U32, ghost d: seq<Byte>, ghost rs: seq<Record>,
                 ghost k: nat)
    requires k < |rs| && rs[k] == Long(kind, long) && Written(fps57, d, rs, k)
    modifies senc`pBuffer, senc.pBuffer, fps57
    ensures senc.pBuffer == old(senc.pBuffer) || fresh(senc.pBuffer)
    ensures Written(fps57, d, rs, k + 1)
  {
    senc.WriteLong(fps57, kind, long);
    NextRecord(d, rs, k);
  }

  lemma Joined(d: seq<Byte>, rs: seq<Record>, ts: seq<Record>)
    ensures d + EncodeAll(rs + ts) == d + EncodeAll(rs) + EncodeAll(ts)
  {
    EncodeAllConcat(rs, ts);
    Associate(d, EncodeAll(rs), EncodeAll(ts));
  }

  /** The first eight records one by one. */
  predicate Lists(rs: seq<Record>, c: CellHeader) {
    && |rs| >= 8 && rs[0] == Word(HEADER_SENC_VERSION, Cut16(c.version))
    && rs[1] == Text(HEADER_CELL_NAME, c.name) && rs[2] == Text(HEADER_CELL_PUBLISHDATE, c.publishDate)
    && rs[3] == Word(HEADER_CELL_EDITION, Cut16(c.edition)) && rs[4] == Text(HEADER_CELL_UPDATEDATE, c.updateDate)
    && rs[5] == Word(HEADER_CELL_UPDATE, Cut16(c.lastUpdate))
    && rs[6] == Long(HEADER_CELL_NATIVESCALE, Cut32(c.nativeScale))
    && rs[7] == Text(HEADER_CELL_SENCCREATEDATE, c.createDate)
  }

  /** The records of createSenc200 before the coverage, in its order. */
  method WriteFields(senc: Osenc, fps57: OutFile, c: CellHeader, ghost rs: seq<Record>)
    requires Fits(c) && Lists(rs, c)
    modifies senc`pBuffer, senc.pBuffer, fps57
    ensures Written(fps57, old(fps57.data), rs, 8)
  {
    ghost var d := fps57.data;
    NoneWritten(d, rs);
    AddWord(senc, fps57, HEADER_SENC_VERSION, Cut16(c.version), d, rs, 0);
    AddText(senc, fps57, HEADER_CELL_NAME, c.name, d, rs, 1);
    AddText(senc, fps57, HEADER_CELL_PUBLISHDATE, c.publishDate, d, rs, 2);
    AddWord(senc, fps57, HEADER_CELL_EDITION, Cut16(c.edition), d, rs, 3);
    AddText(senc, fps57, HEADER_CELL_UPDATEDATE, c.updateDate, d, rs, 4);
    AddWord(senc, fps57, HEADER_CELL_UPDATE, Cut16(c.lastUpdate), d, rs, 5);
    AddLong(senc, fps57, HEADER_CELL_NATIVESCALE, Cut32(c.nativeScale), d, rs, 6);
    AddText(senc, fps57, HEADER_CELL_SENCCREATEDATE, c.createDate, d, rs, 7);
  }

  lemma NoneWritten(d: seq<Byte>, rs: seq<Record>)
    ensures d + EncodeAll(rs[..0]) == d
  {
    assert rs[..0] == [];
  }

  lemma RecordsListed(c: CellHeader)
    ensures var rs := HeaderRecords(c); Lists(rs, c) && rs[..8] + CoverageOf(c) == rs
  {
  }

  /** The header of createSenc200: the version, the text and number records, then the coverage if there is one. */
  method WriteHeader(senc: Osenc, fps57: OutFile, c: CellHeader)
    requires Fits(c)
    modifies senc`pBuffer, senc.pBuffer, fps57
    ensures fps57.data == old(fps57.data) + EncodeAll(HeaderRecords(c))
  {
    ghost var d, rs := fps57.data, HeaderRecords(c);
    RecordsListed(c);
    WriteFields(senc, fps57, c, rs);
    Joined(d, rs[..8], CoverageOf(c));
    if c.hasCoverage { CreateCovrRecords(fps57, c.extent, c.covrTable, c.noCovrTable); }
  }

  lemma CellWritable(c: CellHeader)
    requires Fits(c)
    ensures AllWritable(CellRecords(c))
  {
    TablesWritable(c.covrTable, true);
    TablesWritable(c.noCovrTable, false);
  }

  lemma ApplyNext(h: Header, rs: seq<Record>, i: nat)
    requires i < |rs|
    ensures ApplyAll(h, rs[i..]) == ApplyAll(Apply(h, rs[i]), rs[i + 1..])
  {
    assert rs[i..][1..] == rs[i + 1..];
  }

  /** What the text and number records of a cell mean to a reader. */
  lemma FieldsMean(h: Header, c: CellHeader, rs: seq<Record>)
    requires Lists(rs, c)
    ensures ApplyAll(h.(version := Cut16(c.version)), rs[1..])
         == ApplyAll(Described(h, c.(hasCoverage := false)), rs[8..])
  {
    var h1 := h.(version := Cut16(c.version));
    var h2 := h1.(name := c.name);
    var h3 := h2.(publishDate := c.publishDate);
    var h4 := h3.(edition := Decimal(Cut16(c.edition)));
    var h5 := h4.(updateDate := c.updateDate);
    var h6 := h5.(lastUpdate := Cut16(c.lastUpdate));
    var h7 := h6.(scale := Cut32(c.nativeScale));
    ApplyNext(h1, rs, 1);
    ApplyNext(h2, rs, 2);
    ApplyNext(h3, rs, 3);
    ApplyNext(h4, rs, 4);
    ApplyNext(h5, rs, 5);
    ApplyNext(h6, rs, 6);
    ApplyNext(h7, rs, 7);
  }

  lemma CellMeans(h: Header, c: CellHeader)
    ensures ApplyAll(h.(version := Cut16(c.version)), CellRecords(c)) == Described(h, c)
  {
    var rs := HeaderRecords(c);
    RecordsListed(c);
    FieldsMean(h, c, rs);
    assert rs[1..] == CellRecords(c) && rs[8..] == CoverageOf(c);
    if c.hasCoverage { CovrRecordsMean(Described(h, c.(hasCoverage := false)), c.extent, c.covrTable, c.noCovrTable); }
  }

  lemma VersionFirst(c: CellHeader, tail: seq<Byte>)
    ensures EncodeAll(HeaderRecords(c)) + tail
         == Encode(Word(HEADER_SENC_VERSION, Cut16(c.version))) + (EncodeAll(CellRecords(c)) + tail)
  {
    var first, rest := Word(HEADER_SENC_VERSION, Cut16(c.version)), CellRecords(c);
    assert ([first] + rest)[1..] == rest;
    Associate(Encode(first), EncodeAll(rest), tail);
  }

  /** What reading the header of a cell leaves: of a version that is refused only the number. */
  function Left(h: Header, c: CellHeader): Header {
    if VersionCode(Cut16(c.version)) == SENC_NO_ERROR then Described(h, c) else h.(version := Cut16(c.version))
  }

  lemma NothingBefore(s: seq<Byte>)
    ensures [] + s == s
  {
  }

  /** Any cell comes back: the code is that of its version, and the fields are the cell's unless that is refused. */
  lemma CellRoundTrip(h: Header, unified: bool, c: CellHeader, tail: seq<Byte>)
    requires Fits(c) && Ends(tail)
    ensures Ingest(h, unified, EncodeAll(HeaderRecords(c)) + tail)
        == (Finished(VersionCode(Cut16(c.version))), Left(h, c))
  {
    VersionFirst(c, tail);
    CellWritable(c);
    HeaderRoundTrip(h, unified, Cut16(c.version), CellRecords(c), tail);
    CellMeans(h, c);
  }

  /** A header written by one object and read by another gives the reader the fields of the cell. */
  method WriteAndIngest(writer: Osenc, reader: Osenc, c: CellHeader, tail: seq<Byte>, unified: bool)
    returns (o: Outcome)
    requires Fits(c) && Ends(tail) && writer != reader
    modifies writer`pBuffer, writer.pBuffer, reader
    ensures o == Finished(VersionCode(Cut16(c.version)))
    ensures reader.View() == Left(old(reader.View()), c)
  {
    var fps57 := new OutFile();
    WriteHeader(writer, fps57, c);
    NothingBefore(EncodeAll(HeaderRecords(c)));
    var fpx := new InStream(fps57.data + tail);
    CellRoundTrip(reader.View(), unified, c, tail);
    o := reader.IngestHeader(fpx, unified);
  }
}
