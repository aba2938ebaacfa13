/** The records of a SENC header: what is written for them, and what a stream of bytes is read as. */
module SencFormat {

  type Byte = b: int | 0 <= b < 0x100
  type U16 = n: int | 0 <= n < 0x1_0000
  type U32 = n: int | 0 <= n < 0x1_0000_0000
  type U64 = n: int | 0 <= n < 0x1_0000_0000_0000_0000

  const HEADER_SENC_VERSION: U16 := 1
  const HEADER_CELL_NAME: U16 := 2
  const HEADER_CELL_PUBLISHDATE: U16 := 3
  const HEADER_CELL_EDITION: U16 := 4
  const HEADER_CELL_UPDATEDATE: U16 := 5
  const HEADER_CELL_UPDATE: U16 := 6
  const HEADER_CELL_NATIVESCALE: U16 := 7
  const HEADER_CELL_SENCCREATEDATE: U16 := 8
  const HEADER_CELL_SOUNDINGDATUM: U16 := 9
  const FEATURE_ID_RECORD: U16 := 64
  const CELL_COVR_RECORD: U16 := 98
  const CELL_NOCOVR_RECORD: U16 := 99
  const CELL_EXTENT_RECORD: U16 := 100
  const SERVER_STATUS_RECORD: U16 := 200

  const SENC_NO_ERROR := 0
  const ERROR_SENC_VERSION_MISMATCH := 2
  const ERROR_SENC_CORRUPT := 10
  const ERROR_SIGNATURE_FAILURE := 11
  const ERROR_SENC_EXPIRED := 12

  // ---- Little-endian integers ----

  function LE(v: nat, n: nat): (s: seq<Byte>)
    ensures |s| == n
    decreases n
  {
    if n == 0 then [] else [v % 0x100] + LE(v / 0x100, n - 1)
  }

  function Pow256(n: nat): (p: nat)
    ensures p > 0
  {
    if n == 0 then 1 else 0x100 * Pow256(n - 1)
  }

  function UnLE(s: seq<Byte>): (v: nat)
    ensures v < Pow256(|s|)
  {
    if s == [] then 0 else s[0] + 0x100 * UnLE(s[1..])
  }

  lemma {:induction false} LERoundTrip(v: nat, n: nat)
    requires v < Pow256(n)
    ensures UnLE(LE(v, n)) == v
    decreases n
  {
    if n > 0 {
      LERoundTrip(v / 0x100, n - 1);
      assert LE(v, n)[1..] == LE(v / 0x100, n - 1);
    }
  }

  /** The other direction: any bytes are those of the number they are read as. */
  lemma {:induction false} LEInverse(s: seq<Byte>)
    ensures LE(UnLE(s), |s|) == s
  {
    if s != [] {
      LEInverse(s[1..]);
      assert UnLE(s) % 0x100 == s[0] && UnLE(s) / 0x100 == UnLE(s[1..]);
      assert s == [s[0]] + s[1..];
    }
  }

  lemma LEWidths()
    ensures Pow256(2) == 0x1_0000 && Pow256(4) == 0x1_0000_0000 && Pow256(8) == 0x1_0000_0000_0000_0000
  {
  }

  // ---- Records ----

  /** The chart's bounding box; the doubles are carried as their 64-bit patterns. */
  datatype Extent = Extent(SLAT: U64, NLAT: U64, WLON: U64, ELON: U64)

  /** What the writers write; the floats of a coverage are carried as their 32-bit patterns. */
  datatype Record =
    | Text(kind: U16, text: seq<Byte>)
    | Word(kind: U16, word: U16)
    | Long(kind: U16, long: U32)
    | Cell(extent: Extent)
    | Coverage(covered: bool, points: seq<U32>)

  function Floats(points: seq<U32>): (s: seq<Byte>)
    ensures |s| == 4 * |points|
  {
    if points == [] then [] else LE(points[0], 4) + Floats(points[1..])
  }

  function Doubles(ds: seq<U64>): (s: seq<Byte>)
    ensures |s| == 8 * |ds|
  {
    if ds == [] then [] else LE(ds[0], 8) + Doubles(ds[1..])
  }

  /** The four corners from the south-west clockwise, each with its latitude first. */
  function Corners(e: Extent): seq<U64> {
    [e.SLAT, e.WLON, e.NLAT, e.WLON, e.NLAT, e.ELON, e.SLAT, e.ELON]
  }

  function Kind(r: Record): U16 {
    match r
    case Cell(_) => CELL_EXTENT_RECORD
    case Coverage(covered, _) => if covered then CELL_COVR_RECORD else CELL_NOCOVR_RECORD
    case Text(kind, _) => kind
    case Word(kind, _) => kind
    case Long(kind, _) => kind
  }

  function Payload(r: Record): seq<Byte> {
    match r
    case Text(_, text) => text + [0]
    case Word(_, word) => LE(word, 2)
    case Long(_, long) => LE(long, 4)
    case Cell(e) => Doubles(Corners(e))
    case Coverage(_, points) => LE(|points| / 2, 4) + Floats(points)
  }

  /** A record base, type and total length, followed by the payload. */
  function Frame(kind: U16, payload: seq<Byte>): seq<Byte> {
    LE(kind, 2) + LE(6 + |payload|, 4) + payload
  }

  function Encode(r: Record): seq<Byte> { Frame(Kind(r), Payload(r)) }

  function EncodeAll(rs: seq<Record>): seq<Byte> {
    if rs == [] then [] else Encode(rs[0]) + EncodeAll(rs[1..])
  }

  predicate IsTextKind(kind: U16) {
    || kind == HEADER_CELL_NAME || kind == HEADER_CELL_PUBLISHDATE || kind == HEADER_CELL_UPDATEDATE
    || kind == HEADER_CELL_SENCCREATEDATE || kind == HEADER_CELL_SOUNDINGDATUM
  }

  predicate IsWordKind(kind: U16) {
    kind == HEADER_SENC_VERSION || kind == HEADER_CELL_EDITION || kind == HEADER_CELL_UPDATE
  }

  /** The record fits its length field, its kind matches its payload, and its text has no NUL. */
  predicate Writable(r: Record) {
    && 6 + |Payload(r)| < 0x1_0000_0000
    && match r
       case Text(kind, text) => IsTextKind(kind) && 0 !in text
       case Word(kind, _) => IsWordKind(kind)
       case Long(kind, _) => kind == HEADER_CELL_NATIVESCALE
       case Cell(_) => true
       case Coverage(_, points) => |points| % 2 == 0
  }

  predicate AllWritable(rs: seq<Record>) {
    forall i :: 0 <= i < |rs| ==> Writable(rs[i])
  }

  // ---- The fields the reader fills ----

  datatype Header = Header(
    version: U16,
    name: seq<Byte>,
    publishDate: seq<Byte>,
    edition: string,
    updateDate: seq<Byte>,
    lastUpdate: U16,
    scale: U32,
    createDate: seq<Byte>,
    soundingDatum: seq<Byte>,
    extent: Extent,
    covered: seq<seq<U32>>,
    notCovered: seq<seq<U32>>,
    status: seq<U16>)

  /** printf of a number with %d. */
  function Decimal(n: nat): (s: string)
    ensures s != []
  {
    (if n < 10 then [] else Decimal(n / 10)) + [('0' as int + n % 10) as char]
  }

  /** What a written record means for the fields: later records overwrite, coverages accumulate. */
  function Apply(h: Header, r: Record): Header {
    match r
    case Text(kind, text) =>
      if kind == HEADER_CELL_NAME then h.(name := text)
      else if kind == HEADER_CELL_PUBLISHDATE then h.(publishDate := text)
      else if kind == HEADER_CELL_UPDATEDATE then h.(updateDate := text)
      else if kind == HEADER_CELL_SENCCREATEDATE then h.(createDate := text)
      else h.(soundingDatum := text)
    case Word(kind, word) =>
      if kind == HEADER_SENC_VERSION then h.(version := word)
      else if kind == HEADER_CELL_EDITION then h.(edition := Decimal(word))
      else h.(lastUpdate := word)
    case Long(_, long) => h.(scale := long)
    case Cell(e) => h.(extent := e)
    case Coverage(covered, points) =>
      if covered then h.(covered := h.covered + [points]) else h.(notCovered := h.notCovered + [points])
  }

  function ApplyAll(h: Header, rs: seq<Record>): Header
    decreases |rs|
  {
    if rs == [] then h else ApplyAll(Apply(h, rs[0]), rs[1..])
  }

  // ---- What a whole list of records leaves ----

  datatype Value =
    Bytes(bytes: seq<Byte>) | Number(number: nat) | Digits(digits: string) | Range(range: Extent) | Nothing

  /** The field a kind of record is kept in. */
  function Slot(h: Header, kind: U16): Value {
    if kind == HEADER_SENC_VERSION then Number(h.version)
    else if kind == HEADER_CELL_NAME then Bytes(h.name)
    else if kind == HEADER_CELL_PUBLISHDATE then Bytes(h.publishDate)
    else if kind == HEADER_CELL_EDITION then Digits(h.edition)
    else if kind == HEADER_CELL_UPDATEDATE then Bytes(h.updateDate)
    else if kind == HEADER_CELL_UPDATE then Number(h.lastUpdate)
    else if kind == HEADER_CELL_NATIVESCALE then Number(h.scale)
    else if kind == HEADER_CELL_SENCCREATEDATE then Bytes(h.createDate)
    else if kind == HEADER_CELL_SOUNDINGDATUM then Bytes(h.soundingDatum)
    else if kind == CELL_EXTENT_RECORD then Range(h.extent)
    else Nothing
  }

  /** What a record carries. */
  function Carried(r: Record): Value {
    match r
    case Text(_, text) => Bytes(text)
    case Word(kind, word) => if kind == HEADER_CELL_EDITION then Digits(Decimal(word)) else Number(word)
    case Long(_, long) => Number(long)
    case Cell(e) => Range(e)
    case Coverage(_, _) => Nothing
  }

  lemma SlotWritten(h: Header, r: Record)
    requires Writable(r)
    ensures Slot(Apply(h, r), Kind(r)) == Carried(r)
  {
  }

  lemma SlotKept(h: Header, r: Record, kind: U16)
    requires Writable(r) && kind != Kind(r)
    ensures Slot(Apply(h, r), kind) == Slot(h, kind)
  {
  }

  lemma {:induction false} NotTouched(h: Header, rs: seq<Record>, kind: U16)
    requires AllWritable(rs) && forall j :: 0 <= j < |rs| ==> Kind(rs[j]) != kind
    ensures Slot(ApplyAll(h, rs), kind) == Slot(h, kind)
    decreases |rs|
  {
    if rs != [] {
      SlotKept(h, rs[0], kind);
      NotTouched(Apply(h, rs[0]), rs[1..], kind);
    }
  }

  lemma {:induction false} ApplyAllConcat(h: Header, rs: seq<Record>, ts: seq<Record>)
    ensures ApplyAll(h, rs + ts) == ApplyAll(ApplyAll(h, rs), ts)
    decreases |rs|
  {
    if rs == [] {
      assert rs + ts == ts;
    } else {
      assert (rs + ts)[1..] == rs[1..] + ts;
      ApplyAllConcat(Apply(h, rs[0]), rs[1..], ts);
    }
  }

  /** The last record of a kind decides its field. */
  lemma LastWriteWins(h: Header, before: seq<Record>, r: Record, after: seq<Record>)
    requires Writable(r) && AllWritable(after) && forall j :: 0 <= j < |after| ==> Kind(after[j]) != Kind(r)
    ensures Slot(ApplyAll(h, before + ([r] + after)), Kind(r)) == Carried(r)
  {
    var h' := ApplyAll(h, before);
    ApplyAllConcat(h, before, [r] + after);
    assert ([r] + after)[1..] == after;
    SlotWritten(h', r);
    NotTouched(Apply(h', r), after, Kind(r));
  }

  /** The coverages of one sort, in the order written. */
  function Coverages(rs: seq<Record>, covered: bool): seq<seq<U32>> {
    if rs == [] then []
    else (if rs[0].Coverage? && rs[0].covered == covered then [rs[0].points] else []) + Coverages(rs[1..], covered)
  }

  lemma {:induction false} CoveragesInOrder(h: Header, rs: seq<Record>)
    ensures ApplyAll(h, rs).covered == h.covered + Coverages(rs, true)
    ensures ApplyAll(h, rs).notCovered == h.notCovered + Coverages(rs, false)
    decreases |rs|
  {
    if rs != [] { CoveragesInOrder(Apply(h, rs[0]), rs[1..]); }
  }

  /** The number that a string of decimal digits stands for. */
  function Parsed(s: string): int {
    if s == [] then 0 else 10 * Parsed(s[..|s| - 1]) + s[|s| - 1] as int - '0' as int
  }

  /** The edition is kept as text, but as the text of the number written. */
  lemma {:induction false} DecimalParses(n: nat)
    ensures Parsed(Decimal(n)) == n
  {
    var s, q, d := Decimal(n), n / 10, n % 10;
    assert s[|s| - 1] as int - '0' as int == d;
    if n < 10 {
      assert s[..|s| - 1] == [];
    } else {
      DecimalParses(q);
      assert s[..|s| - 1] == Decimal(q);
    }
  }
}
