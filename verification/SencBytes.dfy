/** The bytes of a header file in numerals, and what reading them leaves in the fields of a reader. */
module SencBytes {
  import opened SencFormat
  import opened SencReading
  import opened SencFile

  /** The low byte comes first. */
  lemma FieldBytes(v: nat)
    ensures LE(v, 2) == [v % 256, v / 256 % 256]
    ensures LE(v, 4) == [v % 256, v / 256 % 256, v / 65536 % 256, v / 16777216 % 256]
  {
    var v1 := v / 256;
    var v2 := v1 / 256;
    var v3 := v2 / 256;
    assert v2 == v / 65536 && v3 == v / 16777216;
    assert LE(v3, 1) == [v3 % 256] + LE(v3 / 256, 0);
    assert LE(v2, 2) == [v2 % 256] + LE(v3, 1);
    assert LE(v1, 3) == [v1 % 256] + LE(v2, 2);
    assert LE(v, 4) == [v % 256] + LE(v1, 3);
    assert LE(v1, 1) == [v1 % 256] + LE(v2, 0);
    assert LE(v, 2) == [v % 256] + LE(v1, 1);
  }

  lemma QuotientOfQuotient(v: nat, b: nat)
    requires b > 0
    ensures v / 256 / b == v / (256 * b)
  {
    var q, r := v / 256, v % 256;
    var k, s := q / b, q % b;
    assert q == b * k + s;
    assert 256 * b * k == 256 * (b * k);
    QuotientIs(v, 256 * b, k, 256 * s + r);
  }

  lemma QuotientIs(v: int, n: int, k: int, r: int)
    requires n > 0 && v == n * k + r && 0 <= r < n
    ensures v / n == k
  {
    var d := v / n - k;
    assert n * d == r - v % n;
    assert (d >= 1 ==> n * d >= n) && (d <= -1 ==> n * d <= -n);
  }

  /** Byte i of a field of any width. */
  lemma {:induction false} ByteOfField(v: nat, n: nat, i: nat)
    requires i < n
    ensures Pow256(i) > 0 && LE(v, n)[i] == v / Pow256(i) % 256
    decreases i
  {
    if i > 0 {
      ByteOfField(v / 256, n - 1, i - 1);
      QuotientOfQuotient(v, Pow256(i - 1));
    }
  }

  lemma LongFieldBytes(v: nat)
    ensures LE(v, 8) == [v % 0x100, v / 0x100 % 0x100, v / 0x1_0000 % 0x100, v / 0x100_0000 % 0x100,
                         v / 0x1_0000_0000 % 0x100, v / 0x100_0000_0000 % 0x100, v / 0x1_0000_0000_0000 % 0x100,
                         v / 0x100_0000_0000_0000 % 0x100]
  {
    PowersOf256();
    forall i | 0 <= i < 8 { ByteOfField(v, 8, i); }
  }

  lemma PowersOf256()
    ensures Pow256(0) == 1 && Pow256(1) == 0x100 && Pow256(2) == 0x1_0000 && Pow256(3) == 0x100_0000
    ensures Pow256(4) == 0x1_0000_0000 && Pow256(5) == 0x100_0000_0000 && Pow256(6) == 0x1_0000_0000_0000
    ensures Pow256(7) == 0x100_0000_0000_0000
  {
    assert Pow256(3) == 0x100 * Pow256(2) && Pow256(2) == 0x100 * Pow256(1) && Pow256(1) == 0x100 * Pow256(0);
    assert Pow256(7) == 0x100 * Pow256(6) && Pow256(6) == 0x100 * Pow256(5) && Pow256(5) == 0x100 * Pow256(4);
    assert Pow256(4) == 0x100 * Pow256(3);
  }

  // Frames.

  /** A record: its kind, its whole length in four bytes, its payload. */
  lemma FrameBytes(kind: Byte, payload: seq<Byte>, n: nat)
    requires n == 6 + |payload| < 0x1_0000_0000
    ensures Frame(kind, payload) == [kind, 0] + LE(n, 4) + payload
  {
    KindBytes(kind);
  }

  lemma KindBytes(kind: Byte)
    ensures LE(kind, 2) == [kind, 0]
  {
    FieldBytes(kind);
  }

  lemma VersionBytes(v: U16)
    ensures Encode(Word(HEADER_SENC_VERSION, v)) == [1, 0, 8, 0, 0, 0, v % 256, v / 256]
  {
    FrameBytes(1, LE(v, 2), 8);
    FieldBytes(v);
    FieldBytes(8);
  }

  // What is written, kind by kind.

  lemma TextBytes(kind: U16, text: seq<Byte>)
    requires Writable(Text(kind, text))
    ensures kind == 2 || kind == 3 || kind == 5 || kind == 8 || kind == 9
    ensures Encode(Text(kind, text)) == [kind, 0] + LE(|text| + 7, 4) + (text + [0])
  {
    FrameBytes(kind, text + [0], |text| + 7);
  }

  lemma WordBytes(kind: U16, word: U16)
    requires Writable(Word(kind, word))
    ensures kind == 1 || kind == 4 || kind == 6
    ensures Encode(Word(kind, word)) == [kind, 0, 8, 0, 0, 0, word % 256, word / 256]
  {
    FrameBytes(kind, LE(word, 2), 8);
    FieldBytes(word);
    FieldBytes(8);
  }

  lemma LongBytes(kind: U16, long: U32)
    requires Writable(Long(kind, long))
    ensures kind == 7
    ensures Encode(Long(kind, long)) == [7, 0, 10, 0, 0, 0] + LE(long, 4)
  {
    FrameBytes(7, LE(long, 4), 10);
    FieldBytes(10);
  }

  lemma ExtentBytes(e: Extent)
    ensures Encode(Cell(e)) == [100, 0, 70, 0, 0, 0]
                             + Doubles([e.SLAT, e.WLON, e.NLAT, e.WLON, e.NLAT, e.ELON, e.SLAT, e.ELON])
  {
    ExtentFrame(Doubles(Corners(e)));
  }

  lemma ExtentFrame(payload: seq<Byte>)
    requires |payload| == 64
    ensures Frame(100, payload) == [100, 0, 70, 0, 0, 0] + payload
  {
    FrameBytes(100, payload, 70);
    FieldBytes(70);
  }

  lemma CoverageBytes(covered: bool, points: seq<U32>)
    requires Writable(Coverage(covered, points))
    ensures Encode(Coverage(covered, points))
         == [if covered then 98 else 99, 0] + LE(10 + 4 * |points|, 4) + (LE(|points| / 2, 4) + Floats(points))
  {
    CoverageFrame(if covered then 98 else 99, LE(|points| / 2, 4), Floats(points), 10 + 4 * |points|);
  }

  lemma CoverageFrame(kind: Byte, count: seq<Byte>, floats: seq<Byte>, n: nat)
    requires |count| == 4 && n == 10 + |floats| < 0x1_0000_0000
    ensures Frame(kind, count + floats) == [kind, 0] + LE(n, 4) + (count + floats)
  {
    FrameBytes(kind, count + floats, n);
  }

  /** Entry i of fields of width w, the first one set apart. */
  lemma FieldBehind(whole: seq<Byte>, first: seq<Byte>, rest: seq<Byte>, w: nat, i: nat, field: seq<Byte>)
    requires whole == first + rest && |first| == w && i > 0 && 0 <= w * (i - 1) <= w * i <= |rest|
    requires w * i == w * (i - 1) + w && rest[w * (i - 1)..w * i] == field
    ensures w * i + w <= |whole| && whole[w * i..w * i + w] == field
  {
  }

  lemma FrontSlice(whole: seq<Byte>, first: seq<Byte>, rest: seq<Byte>)
    requires whole == first + rest
    ensures whole[0..|first|] == first
  {
  }

  lemma SliceOfRest(s: seq<Byte>, d: nat, k: nat, n: nat)
    requires d + k + n <= |s|
    ensures s[d..][k..k + n] == s[d + k..d + k + n]
  {
  }

  lemma FrontDouble(ds: seq<U64>, w: nat) returns (first: seq<Byte>, rest: seq<Byte>)
    requires ds != [] && w == 8
    ensures Doubles(ds) == first + rest && first == LE(ds[0], w) && |first| == 8 && rest == Doubles(ds[1..])
  {
    first, rest := LE(ds[0], w), Doubles(ds[1..]);
  }

  lemma FrontFloat(points: seq<U32>, w: nat) returns (first: seq<Byte>, rest: seq<Byte>)
    requires points != [] && w == 4
    ensures Floats(points) == first + rest && first == LE(points[0], w) && |first| == 4 && rest == Floats(points[1..])
  {
    first, rest := LE(points[0], w), Floats(points[1..]);
  }

  /** The numbers of a list lie one behind the other, w bytes each. */
  lemma {:induction false} DoubleAt(ds: seq<U64>, i: nat, w: nat) returns (field: seq<Byte>)
    requires i < |ds| && w == 8
    ensures field == LE(ds[i], w) && Doubles(ds)[8 * i..8 * i + 8] == field
    decreases i
  {
    var first, rest := FrontDouble(ds, w);
    if i == 0 {
      field := first;
      FrontSlice(Doubles(ds), first, rest);
    } else {
      field := DoubleAt(ds[1..], i - 1, w);
      FieldBehind(Doubles(ds), first, rest, 8, i, field);
    }
  }

  lemma {:induction false} FloatAt(points: seq<U32>, i: nat, w: nat) returns (field: seq<Byte>)
    requires i < |points| && w == 4
    ensures field == LE(points[i], w) && Floats(points)[4 * i..4 * i + 4] == field
    decreases i
  {
    var first, rest := FrontFloat(points, w);
    if i == 0 {
      field := first;
      FrontSlice(Floats(points), first, rest);
    } else {
      field := FloatAt(points[1..], i - 1, w);
      FieldBehind(Floats(points), first, rest, 4, i, field);
    }
  }

  // What is read.

  lemma ReadsFrame(h: Header, kind: Byte, payload: seq<Byte>, tail: seq<Byte>, data: seq<Byte>)
    requires 6 + |payload| < 0x1_0000_0000 && IsHeaderKind(kind) && IngestRecord(h, kind, payload).Some?
    requires data == [kind, 0] + LE(6 + |payload|, 4) + payload + tail
    ensures ReadRecords(h, data) == ReadRecords(IngestRecord(h, kind, payload).value, tail)
  {
    FrameBytes(kind, payload, 6 + |payload|);
    FieldOfFrame(kind, payload, tail);
  }

  /** What may end a header: fewer than six bytes, or the first feature. */
  predicate Tail(tail: seq<Byte>) {
    |tail| < 6 || (tail[0] == 64 && tail[1] == 0)
  }

  lemma TailReads(h: Header, tail: seq<Byte>)
    requires Tail(tail)
    ensures ReadRecords(h, tail) == (Finished(0), h)
  {
    if |tail| >= 6 { TwoBytes(tail[0..2]); }
  }

  lemma TwoBytes(s: seq<Byte>)
    requires |s| == 2
    ensures UnLE(s) == s[0] as int + 256 * (s[1] as int)
  {
    assert UnLE(s) == s[0] + 256 * UnLE(s[1..]);
    assert s[1..][0] == s[1] && s[1..][1..] == [];
    assert UnLE(s[1..]) == s[1] + 256 * UnLE([]);
  }

  /** After the version record, 01 00 08 00 00 00 and the version, the records are read. */
  lemma AfterVersion(h: Header, unified: bool, v: U16, rest: seq<Byte>)
    ensures Ingest(h, unified, [1, 0, 8, 0, 0, 0, v % 256, v / 256] + rest)
         == if v == 1024 then (Finished(11), h.(version := v))
            else if v < 200 || v > 299 then (Finished(2), h.(version := v))
            else ReadRecords(h.(version := v), rest)
  {
    VersionBytes(v);
    VersionPart(v, rest);
  }

  /** One record between the version and the end. */
  lemma OneRecord(h: Header, unified: bool, v: U16, kind: Byte, payload: seq<Byte>, tail: seq<Byte>, rest: seq<Byte>)
    requires 200 <= v <= 299 && 6 + |payload| < 0x1_0000_0000 && Tail(tail)
    requires IsHeaderKind(kind) && IngestRecord(h.(version := v), kind, payload).Some?
    requires rest == [kind, 0] + LE(6 + |payload|, 4) + payload + tail
    ensures Ingest(h, unified, [1, 0, 8, 0, 0, 0, v % 256, v / 256] + rest)
         == (Finished(0), IngestRecord(h.(version := v), kind, payload).value)
  {
    AfterVersion(h, unified, v, rest);
    ReadsFrame(h.(version := v), kind, payload, tail, rest);
    TailReads(IngestRecord(h.(version := v), kind, payload).value, tail);
  }

  /** The points of an area lie behind their number. */
  predicate PointsIn(payload: seq<Byte>, n: nat, points: seq<U32>)
    requires |payload| >= 4 + 8 * n
  {
    |points| == 2 * n && forall i :: 0 <= i < 2 * n ==> payload[4 + 4 * i..8 + 4 * i] == LE(points[i], 4)
  }

  lemma {:induction false} CStringEnds(s: seq<Byte>, n: nat)
    requires n < |s| && s[n] == 0 && 0 !in s[..n]
    ensures CString(s) == Some(s[..n])
  {
    if n > 0 {
      assert s[0] == s[..n][0] && s[1..][..n - 1] == s[..n][1..];
      CStringEnds(s[1..], n - 1);
      assert s[..n] == [s[0]] + s[1..][..n - 1];
    }
  }

  lemma WordIsRead(s: seq<Byte>, at: nat)
    requires at + 2 <= |s|
    ensures s[at..at + 2] == LE(U16At(s, at), 2)
  {
    LEInverse(s[at..at + 2]);
  }

  lemma LongIsRead(s: seq<Byte>, at: nat)
    requires at + 4 <= |s|
    ensures s[at..at + 4] == LE(U32At(s, at), 4)
  {
    LEInverse(s[at..at + 4]);
  }

  lemma DoubleIsRead(s: seq<Byte>, at: nat, w: nat)
    requires at + 8 <= |s| && w == 8
    ensures s[at..at + 8] == LE(U64At(s, at), w)
  {
    LEInverse(s[at..at + 8]);
  }

  lemma {:induction false} DoublesRead(s: seq<Byte>, n: nat, i: nat, w: nat) returns (field: seq<Byte>)
    requires 8 * n <= |s| && i < n && w == 8
    ensures s[8 * i..8 * i + 8] == field == LE(DoublesOf(s, n)[i], w)
    decreases n
  {
    if i == 0 {
      DoubleIsRead(s, 0, w);
      field := s[0..8];
    } else {
      field := DoublesRead(s[8..], n - 1, i - 1, w);
      SliceOfRest(s, 8, 8 * (i - 1), 8);
    }
  }

  lemma {:induction false} PointsRead(s: seq<Byte>, n: nat, i: nat)
    requires 4 * n <= |s| && i < n
    ensures s[4 * i..4 * i + 4] == LE(Points(s, n)[i], 4)
    decreases n
  {
    if i == 0 {
      LongIsRead(s, 0);
    } else {
      PointsRead(s[4..], n - 1, i - 1);
      SliceOfRest(s, 4, 4 * (i - 1), 4);
    }
  }

  lemma CountIsRead(payload: seq<Byte>, n: nat)
    requires |payload| >= 4 + 8 * n && |payload| < 0x1_0000_0000 && payload[0..4] == LE(n, 4)
    ensures U32At(payload, 0) == n && PointsIn(payload, n, Points(payload[4..], 2 * n))
  {
    LEWidths();
    LERoundTrip(n, 4);
    forall i | 0 <= i < 2 * n ensures payload[4 + 4 * i..8 + 4 * i] == LE(Points(payload[4..], 2 * n)[i], 4) {
      PointsRead(payload[4..], 2 * n, i);
      SliceOfRest(payload, 4, 4 * i, 4);
    }
  }

  lemma TextRead(h: Header, kind: Byte, payload: seq<Byte>, n: nat)
    requires kind == 2 || kind == 3 || kind == 5 || kind == 8 || kind == 9
    requires n < |payload| && payload[n] == 0 && 0 !in payload[..n]
    ensures IsHeaderKind(kind)
    ensures IngestRecord(h, kind, payload)
         == Some(if kind == 2 then h.(name := payload[..n]) else if kind == 3 then h.(publishDate := payload[..n])
                 else if kind == 5 then h.(updateDate := payload[..n])
                 else if kind == 8 then h.(createDate := payload[..n]) else h.(soundingDatum := payload[..n]))
  {
    CStringEnds(payload, n);
  }

  lemma WordInBytes(s: seq<Byte>)
    requires |s| >= 2
    ensures s[0] == U16At(s, 0) % 256 && s[1] == U16At(s, 0) / 256
  {
    WordIsRead(s, 0);
    FieldBytes(U16At(s, 0));
    assert s[0] == s[0..2][0] && s[1] == s[0..2][1];
  }

  lemma LongInBytes(s: seq<Byte>)
    requires |s| >= 4
    ensures s[0..4] == [U32At(s, 0) % 0x100, U32At(s, 0) / 0x100 % 0x100, U32At(s, 0) / 0x1_0000 % 0x100,
                        U32At(s, 0) / 0x100_0000]
  {
    LongIsRead(s, 0);
    FieldBytes(U32At(s, 0));
  }

  lemma WordRead(h: Header, kind: Byte, payload: seq<Byte>) returns (k: U16)
    requires |payload| >= 2 && (kind == 1 || kind == 4 || kind == 6)
    ensures IsHeaderKind(kind) && payload[0] == k % 256 && payload[1] == k / 256
    ensures IngestRecord(h, kind, payload)
         == Some(if kind == 1 then h.(version := k) else if kind == 4 then h.(edition := Decimal(k))
                 else h.(lastUpdate := k))
  {
    k := U16At(payload, 0);
    WordInBytes(payload);
  }

  lemma LongRead(h: Header, payload: seq<Byte>) returns (k: U32)
    requires |payload| >= 4
    ensures payload[0..4] == [k % 0x100, k / 0x100 % 0x100, k / 0x1_0000 % 0x100, k / 0x100_0000]
    ensures IsHeaderKind(7) && IngestRecord(h, 7, payload) == Some(h.(scale := k))
  {
    k := U32At(payload, 0);
    LongInBytes(payload);
  }

  /** The edition is printed in decimal, without leading zeros. */
  lemma LastDigit(k: nat)
    ensures Decimal(k) == (if k < 10 then [] else Decimal(k / 10)) + ["0123456789"[k % 10]]
  {
    DigitOf(k % 10);
  }

  lemma DigitOf(i: nat)
    requires i < 10
    ensures "0123456789"[i] == ('0' as int + i) as char
  {
  }

  /** The eight bytes from `at` on are those of a number, low byte first. */
  predicate EightBytes(s: seq<Byte>, at: nat, v: nat)
    requires at + 8 <= |s|
  {
    forall i :: 0 <= i < 8 ==> s[at + i] == v / Pow256(i) % 256
  }

  lemma EightBytesRead(s: seq<Byte>, n: nat, k: nat, w: nat)
    requires w == 8 && 8 * n <= |s| && k < n
    ensures EightBytes(s, 8 * k, DoublesOf(s, n)[k])
  {
    var at, d := 8 * k, DoublesOf(s, n)[k];
    var field := DoublesRead(s, n, k, w);
    forall i | 0 <= i < 8 ensures s[at + i] == d / Pow256(i) % 256 {
      ByteOfField(d, w, i);
      assert field[i] == s[at + i];
    }
  }

  lemma ExtentIs(h: Header, payload: seq<Byte>, n: nat, ds: seq<U64>)
    requires |payload| >= 64 && n == 8 && ds == DoublesOf(payload, n)
    ensures IsHeaderKind(100)
    ensures IngestRecord(h, 100, payload) == Some(h.(extent := Extent(ds[6], ds[2], ds[3], ds[7])))
  {
  }

  /** The corners used are the second and the fourth: their places are 16 and 24, 48 and 56. */
  lemma ExtentRead(h: Header, payload: seq<Byte>, n: nat) returns (e: Extent)
    requires |payload| >= 64 && n == 8
    ensures EightBytes(payload, 16, e.NLAT) && EightBytes(payload, 24, e.WLON)
    ensures EightBytes(payload, 48, e.SLAT) && EightBytes(payload, 56, e.ELON)
    ensures IsHeaderKind(100) && IngestRecord(h, 100, payload) == Some(h.(extent := e))
  {
    var ds := DoublesOf(payload, n);
    ExtentIs(h, payload, n, ds);
    e := Extent(ds[6], ds[2], ds[3], ds[7]);
    EightBytesRead(payload, n, 2, n);
    EightBytesRead(payload, n, 3, n);
    EightBytesRead(payload, n, 6, n);
    EightBytesRead(payload, n, 7, n);
  }

  lemma CoverageRead(h: Header, kind: Byte, payload: seq<Byte>, n: nat) returns (points: seq<U32>)
    requires (kind == 98 || kind == 99) && 4 + 8 * n <= |payload| < 0x1_0000_0000 && payload[0..4] == LE(n, 4)
    ensures IsHeaderKind(kind) && PointsIn(payload, n, points)
    ensures IngestRecord(h, kind, payload)
         == Some(if kind == 98 then h.(covered := h.covered + [points]) else h.(notCovered := h.notCovered + [points]))
  {
    CountIsRead(payload, n);
    points := Points(payload[4..], 2 * n);
  }
}
