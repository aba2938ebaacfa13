/** The table-driven CRC-32 of a buffer and the bit-serial one of section 8 of RFC 1952. */
module Crc {

  function Iterate<T>(f: T -> T, n: nat, x: T): T
    decreases n
  {
    if n == 0 then x else Iterate(f, n - 1, f(x))
  }

  /** One bit of the reflected division by the polynomial 0xEDB88320. */
  function Bit(c: bv32): bv32 {
    if c & 1 == 1 then (c >> 1) ^ 0xEDB88320 else c >> 1
  }

  /** Eight bits: what a byte does once it is mixed into the register. */
  function Octet(c: bv32): bv32 {
    Iterate(Bit, 8, c)
  }

  function Fold<R, B>(step: (R, B) -> R, start: R, s: seq<B>): R {
    if s == [] then start else step(Fold(step, start, s[..|s| - 1]), s[|s| - 1])
  }

  function Mix(c: bv32, octet: bv8): bv32 {
    Octet(c ^ (octet as bv32))
  }

  /** The register after a buffer, one bit at a time: it starts with all ones. */
  function Register(buf: seq<bv8>): bv32 {
    Fold(Mix, 0xFFFFFFFF, buf)
  }

  /** The check value: the register, complemented. */
  function BitSerial(buf: seq<bv8>): bv32 {
    Register(buf) ^ 0xFFFFFFFF
  }

  // crc_32_tab, sixteen entries to a row.
  const ROW_0: seq<bv32> := [
    0x00000000, 0x77073096, 0xEE0E612C, 0x990951BA, 0x076DC419, 0x706AF48F, 0xE963A535, 0x9E6495A3,
    0x0EDB8832, 0x79DCB8A4, 0xE0D5E91E, 0x97D2D988, 0x09B64C2B, 0x7EB17CBD, 0xE7B82D07, 0x90BF1D91]
  const ROW_1: seq<bv32> := [
    0x1DB71064, 0x6AB020F2, 0xF3B97148, 0x84BE41DE, 0x1ADAD47D, 0x6DDDE4EB, 0xF4D4B551, 0x83D385C7,
    0x136C9856, 0x646BA8C0, 0xFD62F97A, 0x8A65C9EC, 0x14015C4F, 0x63066CD9, 0xFA0F3D63, 0x8D080DF5]
  const ROW_2: seq<bv32> := [
    0x3B6E20C8, 0x4C69105E, 0xD56041E4, 0xA2677172, 0x3C03E4D1, 0x4B04D447, 0xD20D85FD, 0xA50AB56B,
    0x35B5A8FA, 0x42B2986C, 0xDBBBC9D6, 0xACBCF940, 0x32D86CE3, 0x45DF5C75, 0xDCD60DCF, 0xABD13D59]
  const ROW_3: seq<bv32> := [
    0x26D930AC, 0x51DE003A, 0xC8D75180, 0xBFD06116, 0x21B4F4B5, 0x56B3C423, 0xCFBA9599, 0xB8BDA50F,
    0x2802B89E, 0x5F058808, 0xC60CD9B2, 0xB10BE924, 0x2F6F7C87, 0x58684C11, 0xC1611DAB, 0xB6662D3D]
  const ROW_4: seq<bv32> := [
    0x76DC4190, 0x01DB7106, 0x98D220BC, 0xEFD5102A, 0x71B18589, 0x06B6B51F, 0x9FBFE4A5, 0xE8B8D433,
    0x7807C9A2, 0x0F00F934, 0x9609A88E, 0xE10E9818, 0x7F6A0DBB, 0x086D3D2D, 0x91646C97, 0xE6635C01]
  const ROW_5: seq<bv32> := [
    0x6B6B51F4, 0x1C6C6162, 0x856530D8, 0xF262004E, 0x6C0695ED, 0x1B01A57B, 0x8208F4C1, 0xF50FC457,
    0x65B0D9C6, 0x12B7E950, 0x8BBEB8EA, 0xFCB9887C, 0x62DD1DDF, 0x15DA2D49, 0x8CD37CF3, 0xFBD44C65]
  const ROW_6: seq<bv32> := [
    0x4DB26158, 0x3AB551CE, 0xA3BC0074, 0xD4BB30E2, 0x4ADFA541, 0x3DD895D7, 0xA4D1C46D, 0xD3D6F4FB,
    0x4369E96A, 0x346ED9FC, 0xAD678846, 0xDA60B8D0, 0x44042D73, 0x33031DE5, 0xAA0A4C5F, 0xDD0D7CC9]
  const ROW_7: seq<bv32> := [
    0x5005713C, 0x270241AA, 0xBE0B1010, 0xC90C2086, 0x5768B525, 0x206F85B3, 0xB966D409, 0xCE61E49F,
    0x5EDEF90E, 0x29D9C998, 0xB0D09822, 0xC7D7A8B4, 0x59B33D17, 0x2EB40D81, 0xB7BD5C3B, 0xC0BA6CAD]
  const ROW_8: seq<bv32> := [
    0xEDB88320, 0x9ABFB3B6, 0x03B6E20C, 0x74B1D29A, 0xEAD54739, 0x9DD277AF, 0x04DB2615, 0x73DC1683,
    0xE3630B12, 0x94643B84, 0x0D6D6A3E, 0x7A6A5AA8, 0xE40ECF0B, 0x9309FF9D, 0x0A00AE27, 0x7D079EB1]
  const ROW_9: seq<bv32> := [
    0xF00F9344, 0x8708A3D2, 0x1E01F268, 0x6906C2FE, 0xF762575D, 0x806567CB, 0x196C3671, 0x6E6B06E7,
    0xFED41B76, 0x89D32BE0, 0x10DA7A5A, 0x67DD4ACC, 0xF9B9DF6F, 0x8EBEEFF9, 0x17B7BE43, 0x60B08ED5]
  const ROW_A: seq<bv32> := [
    0xD6D6A3E8, 0xA1D1937E, 0x38D8C2C4, 0x4FDFF252, 0xD1BB67F1, 0xA6BC5767, 0x3FB506DD, 0x48B2364B,
    0xD80D2BDA, 0xAF0A1B4C, 0x36034AF6, 0x41047A60, 0xDF60EFC3, 0xA867DF55, 0x316E8EEF, 0x4669BE79]
  const ROW_B: seq<bv32> := [
    0xCB61B38C, 0xBC66831A, 0x256FD2A0, 0x5268E236, 0xCC0C7795, 0xBB0B4703, 0x220216B9, 0x5505262F,
    0xC5BA3BBE, 0xB2BD0B28, 0x2BB45A92, 0x5CB36A04, 0xC2D7FFA7, 0xB5D0CF31, 0x2CD99E8B, 0x5BDEAE1D]
  const ROW_C: seq<bv32> := [
    0x9B64C2B0, 0xEC63F226, 0x756AA39C, 0x026D930A, 0x9C0906A9, 0xEB0E363F, 0x72076785, 0x05005713,
    0x95BF4A82, 0xE2B87A14, 0x7BB12BAE, 0x0CB61B38, 0x92D28E9B, 0xE5D5BE0D, 0x7CDCEFB7, 0x0BDBDF21]
  const ROW_D: seq<bv32> := [
    0x86D3D2D4, 0xF1D4E242, 0x68DDB3F8, 0x1FDA836E, 0x81BE16CD, 0xF6B9265B, 0x6FB077E1, 0x18B74777,
    0x88085AE6, 0xFF0F6A70, 0x66063BCA, 0x11010B5C, 0x8F659EFF, 0xF862AE69, 0x616BFFD3, 0x166CCF45]
  const ROW_E: seq<bv32> := [
    0xA00AE278, 0xD70DD2EE, 0x4E048354, 0x3903B3C2, 0xA7672661, 0xD06016F7, 0x4969474D, 0x3E6E77DB,
    0xAED16A4A, 0xD9D65ADC, 0x40DF0B66, 0x37D83BF0, 0xA9BCAE53, 0xDEBB9EC5, 0x47B2CF7F, 0x30B5FFE9]
  const ROW_F: seq<bv32> := [
    0xBDBDF21C, 0xCABAC28A, 0x53B39330, 0x24B4A3A6, 0xBAD03605, 0xCDD70693, 0x54DE5729, 0x23D967BF,
    0xB3667A2E, 0xC4614AB8, 0x5D681B02, 0x2A6F2B94, 0xB40BBE37, 0xC30C8EA1, 0x5A05DF1B, 0x2D02EF8D]

  const CRC_32_TAB: seq<seq<bv32>> :=
    [ROW_0, ROW_1, ROW_2, ROW_3, ROW_4, ROW_5, ROW_6, ROW_7, ROW_8, ROW_9, ROW_A, ROW_B, ROW_C, ROW_D, ROW_E, ROW_F]

  function Entry(i: bv32): bv32
    requires i <= 0xFF
  {
    CRC_32_TAB[i >> 4][i & 0xF]
  }

  lemma Row0(j: bv32)
    requires j <= 0xF
    ensures Entry(0x00 + j) == Octet(0x00 + j)
  {
    var i: bv32 := 0x00 + j;
    assert i >> 4 == 0x0 && i & 0xF == j;
  }

  lemma Row1(j: bv32)
    requires j <= 0xF
    ensures Entry(0x10 + j) == Octet(0x10 + j)
  {
    var i: bv32 := 0x10 + j;
    assert i >> 4 == 0x1 && i & 0xF == j;
  }

  lemma Row2(j: bv32)
    requires j <= 0xF
    ensures Entry(0x20 + j) == Octet(0x20 + j)
  {
    var i: bv32 := 0x20 + j;
    assert i >> 4 == 0x2 && i & 0xF == j;
  }

  lemma Row3(j: bv32)
    requires j <= 0xF
    ensures Entry(0x30 + j) == Octet(0x30 + j)
  {
    var i: bv32 := 0x30 + j;
    assert i >> 4 == 0x3 && i & 0xF == j;
  }

  lemma Row4(j: bv32)
    requires j <= 0xF
    ensures Entry(0x40 + j) == Octet(0x40 + j)
  {
    var i: bv32 := 0x40 + j;
    assert i >> 4 == 0x4 && i & 0xF == j;
  }

  lemma Row5(j: bv32)
    requires j <= 0xF
    ensures Entry(0x50 + j) == Octet(0x50 + j)
  {
    var i: bv32 := 0x50 + j;
    assert i >> 4 == 0x5 && i & 0xF == j;
  }

  lemma Row6(j: bv32)
    requires j <= 0xF
    ensures Entry(0x60 + j) == Octet(0x60 + j)
  {
    var i: bv32 := 0x60 + j;
    assert i >> 4 == 0x6 && i & 0xF == j;
  }

  lemma Row7(j: bv32)
    requires j <= 0xF
    ensures Entry(0x70 + j) == Octet(0x70 + j)
  {
    var i: bv32 := 0x70 + j;
    assert i >> 4 == 0x7 && i & 0xF == j;
  }

  lemma Row8(j: bv32)
    requires j <= 0xF
    ensures Entry(0x80 + j) == Octet(0x80 + j)
  {
    var i: bv32 := 0x80 + j;
    assert i >> 4 == 0x8 && i & 0xF == j;
  }

  lemma Row9(j: bv32)
    requires j <= 0xF
    ensures Entry(0x90 + j) == Octet(0x90 + j)
  {
    var i: bv32 := 0x90 + j;
    assert i >> 4 == 0x9 && i & 0xF == j;
  }

  lemma RowA(j: bv32)
    requires j <= 0xF
    ensures Entry(0xA0 + j) == Octet(0xA0 + j)
  {
    var i: bv32 := 0xA0 + j;
    assert i >> 4 == 0xA && i & 0xF == j;
  }

  lemma RowB(j: bv32)
    requires j <= 0xF
    ensures Entry(0xB0 + j) == Octet(0xB0 + j)
  {
    var i: bv32 := 0xB0 + j;
    assert i >> 4 == 0xB && i & 0xF == j;
  }

  lemma RowC(j: bv32)
    requires j <= 0xF
    ensures Entry(0xC0 + j) == Octet(0xC0 + j)
  {
    var i: bv32 := 0xC0 + j;
    assert i >> 4 == 0xC && i & 0xF == j;
  }

  lemma RowD(j: bv32)
    requires j <= 0xF
    ensures Entry(0xD0 + j) == Octet(0xD0 + j)
  {
    var i: bv32 := 0xD0 + j;
    assert i >> 4 == 0xD && i & 0xF == j;
  }

  lemma RowE(j: bv32)
    requires j <= 0xF
    ensures Entry(0xE0 + j) == Octet(0xE0 + j)
  {
    var i: bv32 := 0xE0 + j;
    assert i >> 4 == 0xE && i & 0xF == j;
  }

  lemma RowF(j: bv32)
    requires j <= 0xF
    ensures Entry(0xF0 + j) == Octet(0xF0 + j)
  {
    var i: bv32 := 0xF0 + j;
    assert i >> 4 == 0xF && i & 0xF == j;
  }

  /** Every table entry is the bit-serial division of its index. */
  lemma TableIsDivision(i: bv32)
    requires i <= 0xFF
    ensures Entry(i) == Octet(i)
  {
    var k, j := i >> 4, i & 0xF;
    if k == 0x0 { Row0(j); assert i == 0x00 + j; }
    if k == 0x1 { Row1(j); assert i == 0x10 + j; }
    if k == 0x2 { Row2(j); assert i == 0x20 + j; }
    if k == 0x3 { Row3(j); assert i == 0x30 + j; }
    if k == 0x4 { Row4(j); assert i == 0x40 + j; }
    if k == 0x5 { Row5(j); assert i == 0x50 + j; }
    if k == 0x6 { Row6(j); assert i == 0x60 + j; }
    if k == 0x7 { Row7(j); assert i == 0x70 + j; }
    if k == 0x8 { Row8(j); assert i == 0x80 + j; }
    if k == 0x9 { Row9(j); assert i == 0x90 + j; }
    if k == 0xA { RowA(j); assert i == 0xA0 + j; }
    if k == 0xB { RowB(j); assert i == 0xB0 + j; }
    if k == 0xC { RowC(j); assert i == 0xC0 + j; }
    if k == 0xD { RowD(j); assert i == 0xD0 + j; }
    if k == 0xE { RowE(j); assert i == 0xE0 + j; }
    if k == 0xF { RowF(j); assert i == 0xF0 + j; }
  }

  function Half(c: bv32): bv32 { c >> 1 }

  predicate Even(c: bv32) { c & 1 == 0 }

  function Xor(c: bv32, d: bv32): bv32 { c ^ d }

  /** The first n values that `down` makes of h, h included, satisfy `zero`. */
  ghost predicate Stays<T>(zero: T -> bool, down: T -> T, h: T, n: nat)
    decreases n
  {
    n == 0 || (zero(h) && Stays(zero, down, down(h), n - 1))
  }

  /** A summand that satisfies `zero` passes through f as `down` moves it. */
  ghost predicate Passes<T(!new)>(f: T -> T, g: (T, T) -> T, zero: T -> bool, down: T -> T) {
    forall l, h :: zero(h) ==> f(g(l, h)) == g(f(l), down(h))
  }

  lemma {:induction false} IteratePasses<T(!new)>(f: T -> T, g: (T, T) -> T, zero: T -> bool, down: T -> T, n: nat,
          l: T, h: T)
    requires Passes(f, g, zero, down) && Stays(zero, down, h, n)
    ensures Iterate(f, n, g(l, h)) == g(Iterate(f, n, l), Iterate(down, n, h))
  {
    if n > 0 { IteratePasses(f, g, zero, down, n - 1, f(l), down(h)); }
  }

  lemma PassesOdd(l: bv32, h: bv32)
    requires h & 1 == 0 && l & 1 == 1
    ensures Bit(l ^ h) == Bit(l) ^ (h >> 1)
  {
    assert (l ^ h) & 1 == 1;
  }

  lemma ShiftXor(l: bv32, h: bv32)
    ensures (l ^ h) >> 1 == (l >> 1) ^ (h >> 1)
  {
  }

  lemma EvenXor(l: bv32, h: bv32)
    requires h & 1 == 0 && l & 1 == 0
    ensures (l ^ h) & 1 == 0
  {
  }

  lemma BitOfEven(c: bv32)
    requires c & 1 == 0
    ensures Bit(c) == c >> 1
  {
  }

  lemma PassesEven(l: bv32, h: bv32)
    requires h & 1 == 0 && l & 1 == 0
    ensures Bit(l ^ h) == Bit(l) ^ (h >> 1)
  {
    ShiftXor(l, h);
    EvenXor(l, h);
    BitOfEven(l ^ h);
    BitOfEven(l);
  }

  lemma EvenPassesBit(l: bv32, h: bv32)
    requires h & 1 == 0
    ensures Bit(l ^ h) == Bit(l) ^ (h >> 1)
  {
    LowBit(l);
    if l & 1 == 1 { PassesOdd(l, h); } else { PassesEven(l, h); }
  }

  lemma LowBit(l: bv32)
    ensures l & 1 == 1 || l & 1 == 0
  {
  }

  lemma BitPasses()
    ensures Passes(Bit, Xor, Even, Half)
  {
    forall l, h | Even(h) ensures Bit(Xor(l, h)) == Xor(Bit(l), Half(h)) { EvenPassesBit(l, h); }
  }

  lemma EightHalves(h: bv32, n: nat)
    requires n == 8 && h & 0xFF == 0
    ensures Stays(Even, Half, h, n) && Iterate(Half, n, h) == h >> 8
  {
    var h1 := Half(h);
    var h2 := Half(h1);
    var h3 := Half(h2);
    var h4 := Half(h3);
    var h5 := Half(h4);
    var h6 := Half(h5);
    var h7 := Half(h6);
    assert Even(h) && Even(h1) && Even(h2) && Even(h3) && Even(h4) && Even(h5) && Even(h6) && Even(h7);
  }

  lemma HighPartMovesDown(l: bv32, h: bv32, n: nat)
    requires 7 < n < 9 && h & 0xFF == 0
    ensures Iterate(Bit, n, Xor(l, h)) == Xor(Iterate(Bit, n, l), h >> 8)
  {
    BitPasses();
    EightHalves(h, n);
    IteratePasses(Bit, Xor, Even, Half, n, l, h);
  }

  lemma Parts(c: bv32)
    ensures (c & 0xFF) ^ (c & 0xFFFFFF00) == c
    ensures c & 0xFFFFFF00 & 0xFF == 0 && (c & 0xFFFFFF00) >> 8 == c >> 8
  {
  }

  /** Eight bits of division look at the low byte only; the rest of the register moves down. */
  lemma LowByteDecides(c: bv32)
    ensures Octet(c) == Octet(c & 0xFF) ^ (c >> 8)
  {
    Parts(c);
    HighPartMovesDown(c & 0xFF, c & 0xFFFFFF00, 8);
  }

  lemma SameHighPart(crc: bv32, octet: bv32)
    requires octet <= 0xFF
    ensures (crc ^ octet) >> 8 == crc >> 8
  {
  }

  /** One look into the table does eight bits of division. */
  method LookUp(i: bv32) returns (e: bv32)
    requires i <= 0xFF
    ensures e == Octet(i)
  {
    e := CRC_32_TAB[i >> 4][i & 0xF];
    TableIsDivision(i);
  }

  /** UPDC32: a table entry for the low byte, and the rest of the register moved down. */
  method Update(octet: bv8, crc: bv32) returns (r: bv32)
    ensures r == Mix(crc, octet)
  {
    var mixed := crc ^ (octet as bv32);
    var e := LookUp(mixed & 0xFF);
    SameHighPart(crc, octet as bv32);
    LowByteDecides(mixed);
    r := e ^ (crc >> 8);
  }

  lemma Complement(c: bv32)
    ensures !c == c ^ 0xFFFFFFFF
  {
  }

  lemma FoldNext<R, B>(step: (R, B) -> R, start: R, s: seq<B>, i: nat)
    requires i < |s|
    ensures Fold(step, start, s[..i + 1]) == step(Fold(step, start, s[..i]), s[i])
  {
    assert s[..i + 1][..i] == s[..i];
  }

  method UpdateAt(buf: seq<bv8>, i: nat, oldcrc32: bv32) returns (r: bv32)
    requires i < |buf| && oldcrc32 == Register(buf[..i])
    ensures r == Register(buf[..i + 1])
  {
    FoldNext(Mix, 0xFFFFFFFF, buf, i);
    r := Update(buf[i], oldcrc32);
  }

  /** The loop of crc32buf. */
  method UpdateAll(buf: seq<bv8>) returns (oldcrc32: bv32)
    ensures oldcrc32 == Register(buf)
  {
    oldcrc32 := 0xFFFFFFFF;
    var i := 0;
    while i < |buf|
      invariant 0 <= i <= |buf| && oldcrc32 == Register(buf[..i])
    {
      oldcrc32 := UpdateAt(buf, i, oldcrc32);
      i := i + 1;
    }
    assert buf[..|buf|] == buf;
  }

  /** crc32buf: the table-driven check value is the bit-serial one. */
  method Crc32Buf(buf: seq<bv8>) returns (crc: bv32)
    ensures crc == BitSerial(buf)
  {
    var oldcrc32 := UpdateAll(buf);
    Complement(oldcrc32);
    return !oldcrc32;
  }

  ghost predicate Injective<T(!new)>(f: T -> T) {
    forall x, y :: f(x) == f(y) ==> x == y
  }

  lemma {:induction false} IterateInjective<T(!new)>(f: T -> T, n: nat, x: T, y: T)
    requires Injective(f) && Iterate(f, n, x) == Iterate(f, n, y)
    ensures x == y
  {
    if n > 0 { IterateInjective(f, n - 1, f(x), f(y)); }
  }

  lemma InverseMeansInjective<T(!new)>(f: T -> T, g: T -> T)
    requires forall x :: g(f(x)) == x
    ensures Injective(f)
  {
    forall x, y | f(x) == f(y) ensures x == y { assert g(f(x)) == x && g(f(y)) == y; }
  }

  /** The bit shifted out can be read off the top bit, so a division step can be undone. */
  function Undo(c: bv32): bv32 {
    if c >> 31 == 1 then ((c ^ 0xEDB88320) << 1) | 1 else c << 1
  }

  lemma UndoBit(c: bv32)
    ensures Undo(Bit(c)) == c
  {
    LowBit(c);
    if c & 1 == 1 { assert Bit(c) == (c >> 1) ^ 0xEDB88320; } else { BitOfEven(c); }
  }

  lemma OctetInjective(c: bv32, d: bv32)
    requires c != d
    ensures Octet(c) != Octet(d)
  {
    forall x ensures Undo(Bit(x)) == x { UndoBit(x); }
    InverseMeansInjective(Bit, Undo);
    if Octet(c) == Octet(d) { IterateInjective(Bit, 8, c, d); }
  }

  lemma XorDiffers(r: bv32, s: bv32, x: bv32, y: bv32)
    requires (r == s) != (x == y)
    ensures r ^ x != s ^ y
  {
    if r == s { XorInjective(r, x, y); } else { XorInjective(x, r, s); Commute(x, r); Commute(x, s); }
  }

  lemma XorInjective(r: bv32, x: bv32, y: bv32)
    requires x != y
    ensures r ^ x != r ^ y
  {
    if r ^ x == r ^ y { Cancel(r ^ x, r, x); Cancel(r ^ x, r, y); }
  }

  lemma Commute(r: bv32, x: bv32)
    ensures r ^ x == x ^ r
  {
  }

  lemma Cancel(z: bv32, r: bv32, x: bv32)
    requires z == r ^ x
    ensures r ^ z == x
  {
  }

  lemma WidenDiffers(x: bv8, y: bv8)
    ensures x == y <==> (x as bv32) == (y as bv32)
  {
  }

  lemma MixDiffers(r: bv32, s: bv32, x: bv8, y: bv8)
    requires (r == s) != (x == y)
    ensures Mix(r, x) != Mix(s, y)
  {
    MixedDiffers(r, s, x, y);
    OctetInjective(r ^ (x as bv32), s ^ (y as bv32));
  }

  lemma MixedDiffers(r: bv32, s: bv32, x: bv8, y: bv8)
    requires (r == s) != (x == y)
    ensures r ^ (x as bv32) != s ^ (y as bv32)
  {
    WidenDiffers(x, y);
    XorDiffers(r, s, x as bv32, y as bv32);
  }

  /** A step that differs when just one of its arguments does. */
  ghost predicate Distinguishes<R(!new), B(!new)>(step: (R, B) -> R) {
    forall r, s, x, y :: (r == s) != (x == y) ==> step(r, x) != step(s, y)
  }

  lemma {:induction false} FoldNotices<R(!new), B(!new)>(step: (R, B) -> R, start: R, a: seq<B>, b: seq<B>, i: nat)
    requires Distinguishes(step)
    requires |a| == |b| && i < |a| && a[i] != b[i] && a[..i] == b[..i] && a[i + 1..] == b[i + 1..]
    ensures Fold(step, start, a) != Fold(step, start, b)
    decreases |a|
  {
    var n := |a| - 1;
    if i < n {
      assert a[n] == a[i + 1..][n - i - 1] && b[n] == b[i + 1..][n - i - 1];
      assert a[..n][i + 1..] == a[i + 1..][..n - i - 1] && b[..n][i + 1..] == b[i + 1..][..n - i - 1];
      assert a[..n][..i] == a[..i] && b[..n][..i] == b[..i];
      FoldNotices(step, start, a[..n], b[..n], i);
    }
  }

  /** Changing exactly one byte of a buffer always changes its check value. */
  lemma OneByteIsNoticed(a: seq<bv8>, b: seq<bv8>, i: nat)
    requires |a| == |b| && i < |a| && a[i] != b[i] && a[..i] == b[..i] && a[i + 1..] == b[i + 1..]
    ensures BitSerial(a) != BitSerial(b)
  {
    forall r, s, x, y | (r == s) != (x == y) ensures Mix(r, x) != Mix(s, y) { MixDiffers(r, s, x, y); }
    FoldNotices(Mix, 0xFFFFFFFF, a, b, i);
    XorDiffers(Register(a), Register(b), 0xFFFFFFFF, 0xFFFFFFFF);
  }

  // A buffer followed by its check value.

  /** Where the register meets its own complement, only ones are left. */
  lemma MeetsComplement(t: bv32, r: bv32, octet: bv32)
    requires octet == !r & 0xFF
    ensures (t ^ r) ^ octet == (t ^ 0xFF) ^ (r & 0xFFFFFF00)
  {
    var low, high := r & 0xFF, r & 0xFFFFFF00;
    assert low ^ octet == 0xFF && low ^ high == r;
    assert (t ^ (low ^ high)) ^ octet == (t ^ (low ^ octet)) ^ high;
  }

  lemma HighMoves(t: bv32, r: bv32)
    ensures Octet((t ^ 0xFF) ^ (r & 0xFFFFFF00)) == Octet(t ^ 0xFF) ^ (r >> 8)
  {
    Parts(r);
    HighPartMovesDown(t ^ 0xFF, r & 0xFFFFFF00, 8);
  }

  lemma MixComplement(cur: bv32, t: bv32, r: bv32, octet: bv8, t': bv32, r': bv32)
    requires cur == t ^ r && octet as bv32 == !r & 0xFF && t' == Octet(t ^ 0xFF) && r' == r >> 8
    ensures Mix(cur, octet) == t' ^ r'
  {
    MeetsComplement(t, r, octet as bv32);
    HighMoves(t, r);
  }

  lemma RegisterMeets(buf: seq<bv8>, i: nat, t: bv32, r: bv32, t': bv32, r': bv32)
    requires i < |buf| && Register(buf[..i]) == t ^ r && buf[i] as bv32 == !r & 0xFF
    requires t' == Octet(t ^ 0xFF) && r' == r >> 8
    ensures Register(buf[..i + 1]) == t' ^ r'
  {
    MixComplement(Register(buf[..i]), t, r, buf[i], t', r');
    FoldNext(Mix, 0xFFFFFFFF, buf, i);
  }

  lemma OctetAt(c: bv32, i: bv32, e: bv32)
    requires i == c & 0xFF && Entry(i) == e
    ensures Octet(c) == e ^ (c >> 8)
  {
    TableIsDivision(i);
    LowByteDecides(c);
  }

  lemma OctetsOfOnes(t0: bv32) returns (t1: bv32, t2: bv32, t3: bv32, t4: bv32)
    requires t0 == 0
    ensures t1 == Octet(t0 ^ 0xFF) && t2 == Octet(t1 ^ 0xFF) && t3 == Octet(t2 ^ 0xFF) && t4 == Octet(t3 ^ 0xFF)
    ensures t4 == 0xDEBB20E3
  {
    t1, t2, t3, t4 := 0x2D02EF8D, 0xBE2612FF, 0x00BE2612, 0xDEBB20E3;
    OctetAt(0x000000FF, 0xFF, 0x2D02EF8D);
    OctetAt(0x2D02EF72, 0x72, 0xBE0B1010);
    OctetAt(0xBE261200, 0x00, 0x00000000);
    OctetAt(0x00BE26ED, 0xED, 0xDEBB9EC5);
  }

  lemma SecondByte(r: bv32, c: bv32) returns (r1: bv32)
    requires c == r ^ 0xFFFFFFFF
    ensures r1 == r >> 8 && (c >> 8) & 0xFF == !r1 & 0xFF
  {
    r1 := r >> 8;
  }

  lemma ThirdByte(r: bv32, r1: bv32, c: bv32) returns (r2: bv32)
    requires c == r ^ 0xFFFFFFFF && r1 == r >> 8
    ensures r2 == r1 >> 8 && r2 == r >> 16 && (c >> 16) & 0xFF == !r2 & 0xFF
  {
    r2 := r >> 16;
  }

  lemma FourthByte(r: bv32, r2: bv32, c: bv32) returns (r3: bv32)
    requires c == r ^ 0xFFFFFFFF && r2 == r >> 16
    ensures r3 == r2 >> 8 && r3 >> 8 == 0 && (c >> 24) & 0xFF == !r3 & 0xFF
  {
    r3 := r >> 24;
  }

  lemma FirstByte(r: bv32, c: bv32) returns (t0: bv32)
    requires c == r ^ 0xFFFFFFFF
    ensures t0 == 0 && r == t0 ^ r && c & 0xFF == !r & 0xFF
  {
    t0 := 0;
  }

  /** The complement of a register, and the four bytes it is shifted out by. */
  lemma BytesOfComplement(r: bv32, c: bv32) returns (t0: bv32, r1: bv32, r2: bv32, r3: bv32, r4: bv32)
    requires c == r ^ 0xFFFFFFFF
    ensures r == t0 ^ r && t0 == 0 && r1 == r >> 8 && r2 == r1 >> 8 && r3 == r2 >> 8 && r4 == r3 >> 8 && r4 == 0
    ensures c & 0xFF == !r & 0xFF && (c >> 8) & 0xFF == !r1 & 0xFF
    ensures (c >> 16) & 0xFF == !r2 & 0xFF && (c >> 24) & 0xFF == !r3 & 0xFF
  {
    t0 := FirstByte(r, c);
    r1 := SecondByte(r, c);
    r2 := ThirdByte(r, r1, c);
    r3 := FourthByte(r, r2, c);
    r4 := 0;
  }

  lemma LeftOver(e: bv32, t4: bv32, r4: bv32)
    requires e == t4 ^ r4 && t4 == 0xDEBB20E3 && r4 == 0
    ensures e ^ 0xFFFFFFFF == 0x2144DF1C
  {
  }

  lemma TwoMeet(buf: seq<bv8>, n: nat, t: bv32, r: bv32, r1: bv32, r2: bv32, t1: bv32, t2: bv32)
    requires n + 2 <= |buf| && Register(buf[..n]) == t ^ r && r1 == r >> 8 && r2 == r1 >> 8
    requires buf[n] as bv32 == !r & 0xFF && buf[n + 1] as bv32 == !r1 & 0xFF
    requires t1 == Octet(t ^ 0xFF) && t2 == Octet(t1 ^ 0xFF)
    ensures Register(buf[..n + 2]) == t2 ^ r2
  {
    RegisterMeets(buf, n, t, r, t1, r1);
    RegisterMeets(buf, n + 1, t1, r1, t2, r2);
  }

  lemma FourMeet(buf: seq<bv8>, n: nat, r: bv32, r1: bv32, r2: bv32, r3: bv32, r4: bv32, t0: bv32) returns (t4: bv32)
    requires n + 4 == |buf| && Register(buf[..n]) == t0 ^ r && t0 == 0
    requires r1 == r >> 8 && r2 == r1 >> 8 && r3 == r2 >> 8 && r4 == r3 >> 8
    requires buf[n] as bv32 == !r & 0xFF && buf[n + 1] as bv32 == !r1 & 0xFF
    requires buf[n + 2] as bv32 == !r2 & 0xFF && buf[n + 3] as bv32 == !r3 & 0xFF
    ensures Register(buf) == t4 ^ r4 && t4 == 0xDEBB20E3
  {
    var t1, t2, t3;
    t1, t2, t3, t4 := OctetsOfOnes(t0);
    TwoMeet(buf, n, t0, r, r1, r2, t1, t2);
    TwoMeet(buf, n + 2, t2, r2, r3, r4, t3, t4);
    assert buf[..n + 4] == buf;
  }

  lemma ComplementOfRegister(buf: seq<bv8>) returns (r: bv32, c: bv32)
    ensures r == Register(buf) && c == BitSerial(buf) && c == r ^ 0xFFFFFFFF
  {
    r, c := Register(buf), BitSerial(buf);
  }

  lemma ComplementLeaves(buf: seq<bv8>, n: nat, r: bv32, c: bv32)
    requires |buf| == n + 4 && Register(buf[..n]) == r && c == r ^ 0xFFFFFFFF
    requires buf[n] as bv32 == c & 0xFF && buf[n + 1] as bv32 == (c >> 8) & 0xFF
    requires buf[n + 2] as bv32 == (c >> 16) & 0xFF && buf[n + 3] as bv32 == (c >> 24) & 0xFF
    ensures BitSerial(buf) == 0x2144DF1C
  {
    var t0, r1, r2, r3, r4 := BytesOfComplement(r, c);
    var t4 := FourMeet(buf, n, r, r1, r2, r3, r4, t0);
    LeftOver(Register(buf), t4, r4);
  }

  /** Any buffer followed by its check value, low byte first, has the check value 0x2144DF1C. */
  lemma Residue(buf: seq<bv8>, c: bv32, s: seq<bv8>)
    requires c == BitSerial(buf) && |s| == 4 && s[0] as bv32 == c & 0xFF && s[1] as bv32 == (c >> 8) & 0xFF
    requires s[2] as bv32 == (c >> 16) & 0xFF && s[3] as bv32 == (c >> 24) & 0xFF
    ensures BitSerial(buf + s) == 0x2144DF1C
  {
    var r, c' := ComplementOfRegister(buf);
    assert (buf + s)[..|buf|] == buf;
    ComplementLeaves(buf + s, |buf|, r, c);
  }

  lemma EmptyBuffer()
    ensures BitSerial([]) == 0
  {
  }
}
