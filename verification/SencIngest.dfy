/** The reader on the bytes of a file: what each record leaves in which field, and with which code it ends. */
module SencIngest {
  import opened SencFormat
  import opened SencReading
  import opened SencFile
  import opened SencBytes
  import opened SencCell

  /** A version from 200 to 299, one text record, and the end of the header. */
  method IngestText(reader: Osenc, fpx: InStream, unified: bool, v: U16, kind: Byte, payload: seq<Byte>, n: nat,
                    tail: seq<Byte>)
    returns (o: Outcome)
    requires fpx.ok && 200 <= v <= 299 && 6 + |payload| < 0x1_0000_0000 && Tail(tail)
    requires kind == 2 || kind == 3 || kind == 5 || kind == 8 || kind == 9
    requires n < |payload| && payload[n] == 0 && 0 !in payload[..n]
    requires fpx.data == [1, 0, 8, 0, 0, 0, v % 256, v / 256] + ([kind, 0] + LE(6 + |payload|, 4) + payload + tail)
    modifies reader, fpx
    ensures o == Finished(0) && reader.senc_file_read_version == v
    ensures reader.Name == if kind == 2 then payload[..n] else old(reader.Name)
    ensures reader.sdate000 == if kind == 3 then payload[..n] else old(reader.sdate000)
    ensures reader.LastUpdateDate == if kind == 5 then payload[..n] else old(reader.LastUpdateDate)
    ensures reader.readFileCreateDate == if kind == 8 then payload[..n] else old(reader.readFileCreateDate)
    ensures reader.SoundingDatum == if kind == 9 then payload[..n] else old(reader.SoundingDatum)
    ensures unchanged(reader`read_base_edtn, reader`read_last_applied_update, reader`Chart_Scale, reader`extent)
    ensures unchanged(reader`AuxPtrArray, reader`NoCovrPtrArray, reader`serverStatus)
  {
    ghost var h := reader.View();
    TextRead(h.(version := v), kind, payload, n);
    OneRecord(h, unified, v, kind, payload, tail, [kind, 0] + LE(6 + |payload|, 4) + payload + tail);
    o := reader.IngestHeader(fpx, unified);
  }

  /** The same with a record that carries a 16-bit number. */
  method IngestWord(reader: Osenc, fpx: InStream, unified: bool, v: U16, kind: Byte, payload: seq<Byte>,
                    tail: seq<Byte>)
    returns (o: Outcome, ghost k: U16)
    requires fpx.ok && 200 <= v <= 299 && 2 <= |payload| && 6 + |payload| < 0x1_0000_0000 && Tail(tail)
    requires kind == 1 || kind == 4 || kind == 6
    requires fpx.data == [1, 0, 8, 0, 0, 0, v % 256, v / 256] + ([kind, 0] + LE(6 + |payload|, 4) + payload + tail)
    modifies reader, fpx
    ensures payload[0] == k % 256 && payload[1] == k / 256
    ensures o == Finished(0) && reader.senc_file_read_version == if kind == 1 then k else v
    ensures reader.read_base_edtn == if kind == 4 then Decimal(k) else old(reader.read_base_edtn)
    ensures reader.read_last_applied_update == if kind == 6 then k else old(reader.read_last_applied_update)
    ensures unchanged(reader`Name, reader`sdate000, reader`LastUpdateDate, reader`readFileCreateDate)
    ensures unchanged(reader`SoundingDatum, reader`Chart_Scale, reader`extent)
    ensures unchanged(reader`AuxPtrArray, reader`NoCovrPtrArray, reader`serverStatus)
  {
    ghost var h := reader.View();
    k := WordRead(h.(version := v), kind, payload);
    OneRecord(h, unified, v, kind, payload, tail, [kind, 0] + LE(6 + |payload|, 4) + payload + tail);
    o := reader.IngestHeader(fpx, unified);
  }

  /** The same with the native scale. */
  method IngestScale(reader: Osenc, fpx: InStream, unified: bool, v: U16, payload: seq<Byte>, tail: seq<Byte>)
    returns (o: Outcome)
    requires fpx.ok && 200 <= v <= 299 && 4 <= |payload| && 6 + |payload| < 0x1_0000_0000 && Tail(tail)
    requires fpx.data == [1, 0, 8, 0, 0, 0, v % 256, v / 256] + ([7, 0] + LE(6 + |payload|, 4) + payload + tail)
    modifies reader, fpx
    ensures o == Finished(0) && reader.senc_file_read_version == v
    ensures payload[0..4] == [reader.Chart_Scale % 0x100, reader.Chart_Scale / 0x100 % 0x100,
                              reader.Chart_Scale / 0x1_0000 % 0x100, reader.Chart_Scale / 0x100_0000]
    ensures unchanged(reader`Name, reader`sdate000, reader`read_base_edtn, reader`LastUpdateDate)
    ensures unchanged(reader`read_last_applied_update, reader`readFileCreateDate, reader`SoundingDatum, reader`extent)
    ensures unchanged(reader`AuxPtrArray, reader`NoCovrPtrArray, reader`serverStatus)
  {
    ghost var h := reader.View();
    ghost var k := LongRead(h.(version := v), payload);
    OneRecord(h, unified, v, 7, payload, tail, [7, 0] + LE(6 + |payload|, 4) + payload + tail);
    o := reader.IngestHeader(fpx, unified);
  }

  /** The same with the extent: of the eight doubles the third, fourth, seventh and eighth are used. */
  method IngestExtent(reader: Osenc, fpx: InStream, unified: bool, v: U16, payload: seq<Byte>, tail: seq<Byte>)
    returns (o: Outcome)
    requires fpx.ok && 200 <= v <= 299 && 64 <= |payload| && 6 + |payload| < 0x1_0000_0000 && Tail(tail)
    requires fpx.data == [1, 0, 8, 0, 0, 0, v % 256, v / 256] + ([100, 0] + LE(6 + |payload|, 4) + payload + tail)
    modifies reader, fpx
    ensures o == Finished(0) && reader.senc_file_read_version == v
    ensures EightBytes(payload, 16, reader.extent.NLAT) && EightBytes(payload, 24, reader.extent.WLON)
    ensures EightBytes(payload, 48, reader.extent.SLAT) && EightBytes(payload, 56, reader.extent.ELON)
    ensures unchanged(reader`Name, reader`sdate000, reader`read_base_edtn, reader`LastUpdateDate)
    ensures unchanged(reader`read_last_applied_update, reader`readFileCreateDate, reader`SoundingDatum)
    ensures unchanged(reader`Chart_Scale, reader`AuxPtrArray, reader`NoCovrPtrArray, reader`serverStatus)
  {
    ghost var h := reader.View();
    ghost var e := ExtentRead(h.(version := v), payload, 8);
    OneRecord(h, unified, v, 100, payload, tail, [100, 0] + LE(6 + |payload|, 4) + payload + tail);
    o := reader.IngestHeader(fpx, unified);
  }

  /** The same with an area of n points, each two floats: 98 is covered, 99 is not. */
  method IngestCoverage(reader: Osenc, fpx: InStream, unified: bool, v: U16, kind: Byte, payload: seq<Byte>, n: nat,
                        tail: seq<Byte>)
    returns (o: Outcome, ghost points: seq<U32>)
    requires fpx.ok && 200 <= v <= 299 && 4 + 8 * n <= |payload| && 6 + |payload| < 0x1_0000_0000 && Tail(tail)
    requires (kind == 98 || kind == 99) && payload[0..4] == LE(n, 4)
    requires fpx.data == [1, 0, 8, 0, 0, 0, v % 256, v / 256] + ([kind, 0] + LE(6 + |payload|, 4) + payload + tail)
    modifies reader, fpx
    ensures o == Finished(0) && reader.senc_file_read_version == v && |points| == 2 * n
    ensures forall i :: 0 <= i < 2 * n ==> payload[4 + 4 * i..8 + 4 * i] == LE(points[i], 4)
    ensures reader.AuxPtrArray == old(reader.AuxPtrArray) + if kind == 98 then [points] else []
    ensures reader.NoCovrPtrArray == old(reader.NoCovrPtrArray) + if kind == 99 then [points] else []
    ensures unchanged(reader`Name, reader`sdate000, reader`read_base_edtn, reader`LastUpdateDate)
    ensures unchanged(reader`read_last_applied_update, reader`readFileCreateDate, reader`SoundingDatum)
    ensures unchanged(reader`Chart_Scale, reader`extent, reader`serverStatus)
  {
    ghost var h := reader.View();
    points := CoverageRead(h.(version := v), kind, payload, n);
    OneRecord(h, unified, v, kind, payload, tail, [kind, 0] + LE(6 + |payload|, 4) + payload + tail);
    o := reader.IngestHeader(fpx, unified);
  }

  // The server status.

  lemma WordAt(data: seq<Byte>, at: nat, k: U16)
    requires at + 2 <= |data| && data[at] == k % 256 && data[at + 1] == k / 256
    ensures U16At(data, at) == k
  {
    TwoBytes(data[at..at + 2]);
  }

  lemma BaseRead(data: seq<Byte>, kind: U16, n: U32)
    requires |data| >= 6 && data[0] == kind % 256 && data[1] == kind / 256 && data[2..6] == LE(n, 4)
    ensures U16At(data, 0) == kind && U32At(data, 2) == n
  {
    WordAt(data, 0, kind);
    LEWidths();
    LERoundTrip(n, 4);
  }

  lemma StatusWordsAre(data: seq<Byte>, words: seq<U16>)
    requires |words| == 6 && |data| >= 18
    requires forall i :: 0 <= i < 6 ==> data[6 + 2 * i] == words[i] % 256 && data[7 + 2 * i] == words[i] / 256
    ensures StatusWords(data) == words
  {
    forall i | 0 <= i < 6 ensures U16At(data, 6 + 2 * i) == words[i] { WordAt(data, 6 + 2 * i, words[i]); }
  }

  /**
   * A file that starts with a status record of n bytes. The third word tells whether the license is current, the
   * second whether the chart can be decrypted; only unified charts may start so, and only with a short record.
   */
  lemma StatusRead(h: Header, unified: bool, words: seq<U16>, data: seq<Byte>, n: U32)
    requires |words| == 6 && |data| >= 18
    requires data[0] == 200 && data[1] == 0 && data[2..6] == LE(n, 4)
    requires forall i :: 0 <= i < 6 ==> data[6 + 2 * i] == words[i] % 256 && data[7 + 2 * i] == words[i] / 256
    ensures !unified || n < 6 || n >= 20 || n > |data| ==> Ingest(h, unified, data) == (Finished(10), h)
    ensures unified && 6 <= n < 18 ==> Ingest(h, unified, data) == (Overread, h)
    ensures unified && 18 <= n < 20 && n <= |data| ==>
              && (words[2] == 0 ==> Ingest(h, unified, data) == (Finished(12), h.(status := words)))
              && (words[2] != 0 && words[1] == 0 ==> Ingest(h, unified, data) == (Finished(11), h.(status := words)))
              && (words[2] != 0 && words[1] != 0 ==>
                    Ingest(h, unified, data) == Ingest(h.(status := words), false, data[n..]))
  {
    BaseRead(data, 200, n);
    StatusWordsAre(data, words);
  }

  /** A file that starts with a version record of n bytes. */
  lemma VersionRead(h: Header, unified: bool, v: U16, data: seq<Byte>, n: U32)
    requires |data| >= 8 && data[6] == v % 256 && data[7] == v / 256
    requires data[0] == 1 && data[1] == 0 && data[2..6] == LE(n, 4)
    ensures n < 6 || n >= 16 || n > |data| ==> Ingest(h, unified, data) == (Finished(10), h)
    ensures 6 <= n < 8 ==> Ingest(h, unified, data) == (Overread, h)
    ensures 8 <= n < 16 && n <= |data| ==>
              && (v == 1024 ==> Ingest(h, unified, data) == (Finished(11), h.(version := v)))
              && (v != 1024 && !(200 <= v <= 299) ==> Ingest(h, unified, data) == (Finished(2), h.(version := v)))
              && (200 <= v <= 299 ==> Ingest(h, unified, data) == ReadRecords(h.(version := v), data[n..]))
  {
    BaseRead(data, 1, n);
    WordAt(data, 6, v);
  }

  /** Status, version, any written records and what may follow them, on a unified chart. */
  lemma StatusRoundTrip(h: Header, words: seq<U16>, v: U16, rs: seq<Record>, tail: seq<Byte>, data: seq<Byte>)
    requires |words| == 6 && |data| >= 18 && AllWritable(rs) && Tail(tail)
    requires data[0] == 200 && data[1] == 0 && data[2..6] == [18, 0, 0, 0]
    requires forall i :: 0 <= i < 6 ==> data[6 + 2 * i] == words[i] % 256 && data[7 + 2 * i] == words[i] / 256
    requires data[18..] == [1, 0, 8, 0, 0, 0, v % 256, v / 256] + (EncodeAll(rs) + tail)
    ensures Ingest(h, true, data)
         == if words[2] == 0 then (Finished(12), h.(status := words))
            else if words[1] == 0 then (Finished(11), h.(status := words))
            else if v == 1024 then (Finished(11), h.(status := words, version := v))
            else if v < 200 || v > 299 then (Finished(2), h.(status := words, version := v))
            else (Finished(0), ApplyAll(h.(status := words, version := v), rs))
  {
    FieldBytes(18);
    StatusRead(h, true, words, data, 18);
    AfterVersion(h.(status := words), false, v, EncodeAll(rs) + tail);
    TailEnds(tail);
    ReadsWritten(h.(status := words, version := v), rs, tail);
  }

  lemma TailEnds(tail: seq<Byte>)
    requires Tail(tail)
    ensures Ends(tail)
  {
    if |tail| >= 6 { TwoBytes(tail[0..2]); }
  }

  /** A status record, a version record, and the end of the header. */
  method IngestStatus(reader: Osenc, fpx: InStream, unified: bool, words: seq<U16>, v: U16, tail: seq<Byte>)
    returns (o: Outcome)
    requires fpx.ok && |words| == 6 && |fpx.data| >= 18 && Tail(tail)
    requires fpx.data[0] == 200 && fpx.data[1] == 0 && fpx.data[2..6] == [18, 0, 0, 0]
    requires forall i :: 0 <= i < 6 ==> fpx.data[6 + 2 * i] == words[i] % 256 && fpx.data[7 + 2 * i] == words[i] / 256
    requires fpx.data[18..] == [1, 0, 8, 0, 0, 0, v % 256, v / 256] + tail
    modifies reader, fpx
    ensures !unified ==> o == Finished(10) && reader.serverStatus == old(reader.serverStatus)
    ensures unified ==> reader.serverStatus == words
    ensures unified && words[2] == 0 ==> o == Finished(12)
    ensures unified && words[2] != 0 && words[1] == 0 ==> o == Finished(11)
    ensures unified && words[2] != 0 && words[1] != 0 ==>
              o == Finished(if v == 1024 then 11 else if 200 <= v <= 299 then 0 else 2)
    ensures reader.senc_file_read_version
         == if unified && words[2] != 0 && words[1] != 0 then v else old(reader.senc_file_read_version)
    ensures unchanged(reader`Name, reader`sdate000, reader`read_base_edtn, reader`LastUpdateDate)
    ensures unchanged(reader`read_last_applied_update, reader`readFileCreateDate, reader`SoundingDatum)
    ensures unchanged(reader`Chart_Scale, reader`extent, reader`AuxPtrArray, reader`NoCovrPtrArray)
  {
    ghost var h := reader.View();
    FieldBytes(18);
    StatusRead(h, unified, words, fpx.data, 18);
    AfterVersion(h.(status := words), false, v, tail);
    TailReads(h.(status := words, version := v), tail);
    o := reader.IngestHeader(fpx, unified);
  }

  /** A version record alone, without a status. */
  method IngestVersion(reader: Osenc, fpx: InStream, unified: bool, v: U16, tail: seq<Byte>) returns (o: Outcome)
    requires fpx.ok && Tail(tail) && fpx.data == [1, 0, 8, 0, 0, 0, v % 256, v / 256] + tail
    modifies reader, fpx
    ensures o == Finished(if v == 1024 then 11 else if 200 <= v <= 299 then 0 else 2)
    ensures reader.senc_file_read_version == v
    ensures unchanged(reader`Name, reader`sdate000, reader`read_base_edtn, reader`LastUpdateDate)
    ensures unchanged(reader`read_last_applied_update, reader`readFileCreateDate, reader`SoundingDatum)
    ensures unchanged(reader`Chart_Scale, reader`extent, reader`AuxPtrArray, reader`NoCovrPtrArray)
    ensures unchanged(reader`serverStatus)
  {
    ghost var h := reader.View();
    AfterVersion(h, unified, v, tail);
    TailReads(h.(version := v), tail);
    o := reader.IngestHeader(fpx, unified);
  }

  // What is written for a cell.

  lemma {:induction false} TableAt(tables: seq<seq<U32>>, covered: bool, i: nat)
    requires i < |tables|
    ensures CoverageRecords(tables, covered)[i] == Coverage(covered, tables[i])
  {
    if i > 0 { TableAt(tables[1..], covered, i - 1); }
  }

  /** The records of a cell with the numbers of their kinds, those every cell has and those of a coverage. */
  lemma CellLayout(c: CellHeader)
    ensures HeaderRecords(c)[..8]
         == [Word(1, c.version % 65536), Text(2, c.name), Text(3, c.publishDate), Word(4, c.edition % 65536),
             Text(5, c.updateDate), Word(6, c.lastUpdate % 65536), Long(7, c.nativeScale % 0x1_0000_0000),
             Text(8, c.createDate)]
    ensures c.hasCoverage ==>
              HeaderRecords(c)[8..] ==
              [Cell(c.extent)]
              + seq(|c.covrTable|, i requires 0 <= i < |c.covrTable| => Coverage(true, c.covrTable[i]))
              + seq(|c.noCovrTable|, i requires 0 <= i < |c.noCovrTable| => Coverage(false, c.noCovrTable[i]))
    ensures !c.hasCoverage ==> HeaderRecords(c)[8..] == []
  {
    RecordsListed(c);
    FieldsInOrder(c, HeaderRecords(c)[..8]);
    CoverageListed(c, HeaderRecords(c)[8..]);
  }

  lemma FieldsInOrder(c: CellHeader, rs: seq<Record>)
    requires |rs| == 8 && Lists(rs, c)
    ensures rs == [Word(1, c.version % 65536), Text(2, c.name), Text(3, c.publishDate), Word(4, c.edition % 65536),
                   Text(5, c.updateDate), Word(6, c.lastUpdate % 65536), Long(7, c.nativeScale % 0x1_0000_0000),
                   Text(8, c.createDate)]
  {
  }

  lemma CoverageListed(c: CellHeader, rs: seq<Record>)
    requires rs == CoverageOf(c)
    ensures c.hasCoverage ==>
              rs == [Cell(c.extent)]
                    + seq(|c.covrTable|, i requires 0 <= i < |c.covrTable| => Coverage(true, c.covrTable[i]))
                    + seq(|c.noCovrTable|, i requires 0 <= i < |c.noCovrTable| => Coverage(false, c.noCovrTable[i]))
    ensures !c.hasCoverage ==> rs == []
  {
    TablesListed(c.covrTable, true);
    TablesListed(c.noCovrTable, false);
  }

  lemma TablesListed(tables: seq<seq<U32>>, covered: bool)
    ensures CoverageRecords(tables, covered)
         == seq(|tables|, i requires 0 <= i < |tables| => Coverage(covered, tables[i]))
  {
    forall i | 0 <= i < |tables| { TableAt(tables, covered, i); }
  }
}
