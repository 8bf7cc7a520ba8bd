/**
 * The table-driven checksum of the executable format
 * (tools/ohlink-toolchain/crates/ohlink-format/src/crc32.rs) against the bitwise reflected
 * cyclic redundancy check of section 8 of RFC 1952.
 */
module Crc32 {
  type byte = x: int | 0 <= x < 256

  const POLY: bv32 := 0xEDB88320

  /** The table, eight entries to a line as in the source: line `k`. */
  function Line(k: bv32): (r: seq<bv32>)
    ensures |r| == 8
  {
    if k == 0 then [0x00000000, 0x77073096, 0xEE0E612C, 0x990951BA, 0x076DC419, 0x706AF48F, 0xE963A535, 0x9E6495A3]
    else if k == 1 then [0x0EDB8832, 0x79DCB8A4, 0xE0D5E91E, 0x97D2D988, 0x09B64C2B, 0x7EB17CBD, 0xE7B82D07, 0x90BF1D91]
    else if k == 2 then [0x1DB71064, 0x6AB020F2, 0xF3B97148, 0x84BE41DE, 0x1ADAD47D, 0x6DDDE4EB, 0xF4D4B551, 0x83D385C7]
    else if k == 3 then [0x136C9856, 0x646BA8C0, 0xFD62F97A, 0x8A65C9EC, 0x14015C4F, 0x63066CD9, 0xFA0F3D63, 0x8D080DF5]
    else if k == 4 then [0x3B6E20C8, 0x4C69105E, 0xD56041E4, 0xA2677172, 0x3C03E4D1, 0x4B04D447, 0xD20D85FD, 0xA50AB56B]
    else if k == 5 then [0x35B5A8FA, 0x42B2986C, 0xDBBBC9D6, 0xACBCF940, 0x32D86CE3, 0x45DF5C75, 0xDCD60DCF, 0xABD13D59]
    else if k == 6 then [0x26D930AC, 0x51DE003A, 0xC8D75180, 0xBFD06116, 0x21B4F4B5, 0x56B3C423, 0xCFBA9599, 0xB8BDA50F]
    else if k == 7 then [0x2802B89E, 0x5F058808, 0xC60CD9B2, 0xB10BE924, 0x2F6F7C87, 0x58684C11, 0xC1611DAB, 0xB6662D3D]
    else if k == 8 then [0x76DC4190, 0x01DB7106, 0x98D220BC, 0xEFD5102A, 0x71B18589, 0x06B6B51F, 0x9FBFE4A5, 0xE8B8D433]
    else if k == 9 then [0x7807C9A2, 0x0F00F934, 0x9609A88E, 0xE10E9818, 0x7F6A0DBB, 0x086D3D2D, 0x91646C97, 0xE6635C01]
    else if k == 10 then [0x6B6B51F4, 0x1C6C6162, 0x856530D8, 0xF262004E, 0x6C0695ED, 0x1B01A57B, 0x8208F4C1, 0xF50FC457]
    else if k == 11 then [0x65B0D9C6, 0x12B7E950, 0x8BBEB8EA, 0xFCB9887C, 0x62DD1DDF, 0x15DA2D49, 0x8CD37CF3, 0xFBD44C65]
    else if k == 12 then [0x4DB26158, 0x3AB551CE, 0xA3BC0074, 0xD4BB30E2, 0x4ADFA541, 0x3DD895D7, 0xA4D1C46D, 0xD3D6F4FB]
    else if k == 13 then [0x4369E96A, 0x346ED9FC, 0xAD678846, 0xDA60B8D0, 0x44042D73, 0x33031DE5, 0xAA0A4C5F, 0xDD0D7CC9]
    else if k == 14 then [0x5005713C, 0x270241AA, 0xBE0B1010, 0xC90C2086, 0x5768B525, 0x206F85B3, 0xB966D409, 0xCE61E49F]
    else if k == 15 then [0x5EDEF90E, 0x29D9C998, 0xB0D09822, 0xC7D7A8B4, 0x59B33D17, 0x2EB40D81, 0xB7BD5C3B, 0xC0BA6CAD]
    else if k == 16 then [0xEDB88320, 0x9ABFB3B6, 0x03B6E20C, 0x74B1D29A, 0xEAD54739, 0x9DD277AF, 0x04DB2615, 0x73DC1683]
    else if k == 17 then [0xE3630B12, 0x94643B84, 0x0D6D6A3E, 0x7A6A5AA8, 0xE40ECF0B, 0x9309FF9D, 0x0A00AE27, 0x7D079EB1]
    else if k == 18 then [0xF00F9344, 0x8708A3D2, 0x1E01F268, 0x6906C2FE, 0xF762575D, 0x806567CB, 0x196C3671, 0x6E6B06E7]
    else if k == 19 then [0xFED41B76, 0x89D32BE0, 0x10DA7A5A, 0x67DD4ACC, 0xF9B9DF6F, 0x8EBEEFF9, 0x17B7BE43, 0x60B08ED5]
    else if k == 20 then [0xD6D6A3E8, 0xA1D1937E, 0x38D8C2C4, 0x4FDFF252, 0xD1BB67F1, 0xA6BC5767, 0x3FB506DD, 0x48B2364B]
    else if k == 21 then [0xD80D2BDA, 0xAF0A1B4C, 0x36034AF6, 0x41047A60, 0xDF60EFC3, 0xA867DF55, 0x316E8EEF, 0x4669BE79]
    else if k == 22 then [0xCB61B38C, 0xBC66831A, 0x256FD2A0, 0x5268E236, 0xCC0C7795, 0xBB0B4703, 0x220216B9, 0x5505262F]
    else if k == 23 then [0xC5BA3BBE, 0xB2BD0B28, 0x2BB45A92, 0x5CB36A04, 0xC2D7FFA7, 0xB5D0CF31, 0x2CD99E8B, 0x5BDEAE1D]
    else if k == 24 then [0x9B64C2B0, 0xEC63F226, 0x756AA39C, 0x026D930A, 0x9C0906A9, 0xEB0E363F, 0x72076785, 0x05005713]
    else if k == 25 then [0x95BF4A82, 0xE2B87A14, 0x7BB12BAE, 0x0CB61B38, 0x92D28E9B, 0xE5D5BE0D, 0x7CDCEFB7, 0x0BDBDF21]
    else if k == 26 then [0x86D3D2D4, 0xF1D4E242, 0x68DDB3F8, 0x1FDA836E, 0x81BE16CD, 0xF6B9265B, 0x6FB077E1, 0x18B74777]
    else if k == 27 then [0x88085AE6, 0xFF0F6A70, 0x66063BCA, 0x11010B5C, 0x8F659EFF, 0xF862AE69, 0x616BFFD3, 0x166CCF45]
    else if k == 28 then [0xA00AE278, 0xD70DD2EE, 0x4E048354, 0x3903B3C2, 0xA7672661, 0xD06016F7, 0x4969474D, 0x3E6E77DB]
    else if k == 29 then [0xAED16A4A, 0xD9D65ADC, 0x40DF0B66, 0x37D83BF0, 0xA9BCAE53, 0xDEBB9EC5, 0x47B2CF7F, 0x30B5FFE9]
    else if k == 30 then [0xBDBDF21C, 0xCABAC28A, 0x53B39330, 0x24B4A3A6, 0xBAD03605, 0xCDD70693, 0x54DE5729, 0x23D967BF]
    else [0xB3667A2E, 0xC4614AB8, 0x5D681B02, 0x2A6F2B94, 0xB40BBE37, 0xC30C8EA1, 0x5A05DF1B, 0x2D02EF8D]
  }

  /** Entry `v` of the table. */
  function Table(v: bv32): bv32 {
    Line(v >> 3)[(v & 7) as int]
  }

  // ----- the bitwise form -----

  function Xor(a: bv32, b: bv32): bv32 {
    a ^ b
  }

  /** One bit. */
  function Step(x: bv32): bv32 {
    if x & 1 == 1 then (x >> 1) ^ POLY else x >> 1
  }

  predicate Odd(x: bv32) {
    x & 1 == 1
  }

  function Half(x: bv32): bv32 {
    x >> 1
  }

  function Step8(x: bv32): bv32 {
    Step(Step(Step(Step(Step(Step(Step(Step(x))))))))
  }

  function Widen(b: byte): bv32 {
    b as bv8 as bv32
  }

  function BitwiseByte(crc: bv32, b: byte): bv32 {
    Step8(Xor(crc, Widen(b)))
  }

  /** The register after all the bytes. */
  function Bitwise(crc: bv32, s: seq<byte>): bv32 {
    if s == [] then crc else BitwiseByte(Bitwise(crc, s[..|s| - 1]), s[|s| - 1])
  }

  // ----- the step is linear and injective -----

  lemma HalfXor(x: bv32, y: bv32)
    ensures Half(Xor(x, y)) == Xor(Half(x), Half(y))
  {
    assert (x ^ y) >> 1 == (x >> 1) ^ (y >> 1);
  }

  lemma OddXor(x: bv32, y: bv32)
    ensures Odd(Xor(x, y)) <==> Odd(x) != Odd(y)
  {
    assert (x ^ y) & 1 == (x & 1) ^ (y & 1);
    assert (x & 1 == 0 || x & 1 == 1) && (y & 1 == 0 || y & 1 == 1);
  }

  lemma Associates(a: bv32, b: bv32, c: bv32)
    ensures (a ^ b) ^ c == a ^ (b ^ c)
  {
  }

  lemma XorAssociates(a: bv32, b: bv32, c: bv32)
    ensures Xor(Xor(a, b), c) == Xor(a, Xor(b, c))
  {
    Associates(a, b, c);
  }

  lemma XorLaws(a: bv32, b: bv32, c: bv32)
    ensures Xor(a, b) == Xor(b, a) && Xor(Xor(a, b), c) == Xor(a, Xor(b, c))
    ensures Xor(a, a) == 0 && Xor(a, 0) == a
  {
    XorAssociates(a, b, c);
  }

  lemma XorSwap(a: bv32, b: bv32, p: bv32)
    ensures Xor(Xor(a, p), b) == Xor(Xor(a, b), p) && Xor(a, Xor(b, p)) == Xor(Xor(a, b), p)
      && Xor(Xor(a, p), Xor(b, p)) == Xor(a, b)
  {
    hide Xor;
    XorLaws(a, p, b);
    XorLaws(p, b, a);
    XorLaws(a, b, p);
    XorLaws(a, p, Xor(b, p));
    XorLaws(p, b, p);
    XorLaws(b, p, p);
    XorLaws(p, p, b);
    XorLaws(b, a, p);
  }

  lemma StepIs(x: bv32)
    ensures Step(x) == if Odd(x) then Xor(Half(x), POLY) else Half(x)
  {
  }

  lemma StepXor(x: bv32, y: bv32)
    ensures Step(Xor(x, y)) == Xor(Step(x), Step(y))
  {
    hide Xor, Half, Odd, Step;
    StepIs(x);
    StepIs(y);
    StepIs(Xor(x, y));
    HalfXor(x, y);
    OddXor(x, y);
    XorSwap(Half(x), Half(y), POLY);
  }

  lemma StepInjective(x: bv32, y: bv32)
    requires Step(x) == Step(y)
    ensures x == y
  {
  }

  // ----- the table holds eight steps of every byte -----

  lemma Lines0to3(v: bv32)
    requires 0x00 <= v <= 0x1F
    ensures Table(v) == Step8(v)
  {
  }

  lemma Lines4to7(v: bv32)
    requires 0x20 <= v <= 0x3F
    ensures Table(v) == Step8(v)
  {
  }

  lemma Lines8to11(v: bv32)
    requires 0x40 <= v <= 0x5F
    ensures Table(v) == Step8(v)
  {
  }

  lemma Lines12to15(v: bv32)
    requires 0x60 <= v <= 0x7F
    ensures Table(v) == Step8(v)
  {
  }

  lemma Lines16to19(v: bv32)
    requires 0x80 <= v <= 0x9F
    ensures Table(v) == Step8(v)
  {
  }

  lemma Lines20to23(v: bv32)
    requires 0xA0 <= v <= 0xBF
    ensures Table(v) == Step8(v)
  {
  }

  lemma Lines24to27(v: bv32)
    requires 0xC0 <= v <= 0xDF
    ensures Table(v) == Step8(v)
  {
  }

  lemma Lines28to31(v: bv32)
    requires 0xE0 <= v <= 0xFF
    ensures Table(v) == Step8(v)
  {
  }

  lemma TableIsStep8(v: bv32)
    requires v <= 0xFF
    ensures Table(v) == Step8(v)
  {
    hide Table, Step8;
    if v <= 0x1F {
      Lines0to3(v);
    } else if v <= 0x3F {
      Lines4to7(v);
    } else if v <= 0x5F {
      Lines8to11(v);
    } else if v <= 0x7F {
      Lines12to15(v);
    } else if v <= 0x9F {
      Lines16to19(v);
    } else if v <= 0xBF {
      Lines20to23(v);
    } else if v <= 0xDF {
      Lines24to27(v);
    } else {
      Lines28to31(v);
    }
  }

  lemma Step8Xor(x: bv32, y: bv32)
    ensures Step8(Xor(x, y)) == Xor(Step8(x), Step8(y))
  {
    hide Step, Xor;
    StepXor(x, y);
    var (a, b) := (Step(x), Step(y));
    StepXor(a, b);
    var (c, d) := (Step(a), Step(b));
    StepXor(c, d);
    var (e, f) := (Step(c), Step(d));
    StepXor(e, f);
    var (g, h) := (Step(e), Step(f));
    StepXor(g, h);
    var (i, j) := (Step(g), Step(h));
    StepXor(i, j);
    var (k, l) := (Step(i), Step(j));
    StepXor(k, l);
    StepXor(Step(k), Step(l));
  }

  lemma Step8Injective(x: bv32, y: bv32)
    requires Step8(x) == Step8(y)
    ensures x == y
  {
    hide Step;
    var (a, b) := (Step(x), Step(y));
    var (c, d) := (Step(a), Step(b));
    var (e, f) := (Step(c), Step(d));
    var (g, h) := (Step(e), Step(f));
    var (i, j) := (Step(g), Step(h));
    var (k, l) := (Step(i), Step(j));
    StepInjective(Step(k), Step(l));
    StepInjective(k, l);
    StepInjective(i, j);
    StepInjective(g, h);
    StepInjective(e, f);
    StepInjective(c, d);
    StepInjective(a, b);
    StepInjective(x, y);
  }

  /** Eight zero bits shift out unchanged. */
  lemma Step8High(x: bv32)
    requires Low(x) == 0
    ensures Step8(x) == High(x)
  {
    assert Step(x) == x >> 1;
    assert Step(x >> 1) == x >> 2;
    assert Step(x >> 2) == x >> 3;
    assert Step(x >> 3) == x >> 4;
    assert Step(x >> 4) == x >> 5;
    assert Step(x >> 5) == x >> 6;
    assert Step(x >> 6) == x >> 7;
    assert Step(x >> 7) == x >> 8;
  }

  // ----- the table-driven form -----

  /** One byte, by table. */
  function TableByte(crc: bv32, b: byte): bv32 {
    Xor(High(crc), Table(Low(Xor(crc, Widen(b)))))
  }

  function High(x: bv32): bv32 {
    x >> 8
  }

  function Low(x: bv32): (r: bv32)
    ensures r <= 0xFF
  {
    x & 0xFF
  }

  function Upper(x: bv32): bv32 {
    x & 0xFFFF_FF00
  }

  lemma SplitBits(x: bv32)
    ensures x == (x & 0xFFFF_FF00) ^ (x & 0xFF) && (x & 0xFFFF_FF00) & 0xFF == 0
  {
  }

  lemma UpperBits(crc: bv32, w: bv32)
    requires w <= 0xFF
    ensures ((crc ^ w) & 0xFFFF_FF00) >> 8 == crc >> 8
  {
  }

  lemma SplitLow(crc: bv32, w: bv32)
    requires w <= 0xFF
    ensures var x := Xor(crc, w);
      x == Xor(Upper(x), Low(x)) && Low(Upper(x)) == 0 && High(Upper(x)) == High(crc)
  {
    SplitBits(crc ^ w);
    UpperBits(crc, w);
  }

  lemma WidenSmall(b: byte)
    ensures Widen(b) <= 0xFF
  {
  }

  /** One table step is eight bit steps. */
  lemma TableByteIsBitwise(crc: bv32, b: byte)
    ensures TableByte(crc, b) == BitwiseByte(crc, b)
  {
    hide Step8, Table, Widen, Xor, High, Low, Upper;
    var x := Xor(crc, Widen(b));
    WidenSmall(b);
    SplitLow(crc, Widen(b));
    Step8Xor(Upper(x), Low(x));
    Step8High(Upper(x));
    TableIsStep8(Low(x));
  }

  lemma WidenInjective(b: byte, c: byte)
    requires Widen(b) == Widen(c)
    ensures b == c
  {
    ByteBack(b);
    ByteBack(c);
    NarrowWiden(b as bv8);
    NarrowWiden(c as bv8);
  }

  /** The bit pattern of a byte, by counting up. */
  ghost function Pattern(b: byte): bv8
    decreases b
  {
    if b == 0 then 0 else Pattern(b - 1) + 1
  }

  lemma {:induction false} PatternValue(b: byte)
    ensures Pattern(b) as int == b
    decreases b
  {
    if b != 0 {
      PatternValue(b - 1);
    }
  }

  lemma ValueDecides(b: byte, x: bv8)
    requires x as int == b
    ensures b as bv8 == x
  {
  }

  lemma ByteBack(b: byte)
    ensures b as bv8 as int == b
  {
    PatternValue(b);
    ValueDecides(b, Pattern(b));
  }

  lemma NarrowWiden(x: bv8)
    ensures ((x as bv32) & 0xFF) as bv8 == x
  {
  }

  lemma XorInjective(a: bv32, b: bv32, c: bv32)
    requires Xor(a, b) == Xor(a, c) || Xor(b, a) == Xor(c, a)
    ensures b == c
  {
  }

  /** The byte step loses nothing: neither of the register nor of the byte. */
  lemma ByteStepInjective(c: bv32, d: bv32, b: byte, e: byte)
    requires BitwiseByte(c, b) == BitwiseByte(d, e) && (b == e || c == d)
    ensures b == e && c == d
  {
    hide Step8, Widen, Xor;
    Step8Injective(Xor(c, Widen(b)), Xor(d, Widen(e)));
    if b == e {
      XorInjective(Widen(b), c, d);
    } else {
      XorInjective(c, Widen(b), Widen(e));
      WidenInjective(b, e);
    }
  }

  /** The checksum loop. */
  method Crc32Ieee(data: seq<byte>) returns (crc: bv32)
    ensures crc == Checksum(data)
  {
    hide TableByte, BitwiseByte;
    crc := 0xFFFF_FFFF;
    for i := 0 to |data|
      invariant crc == Bitwise(0xFFFF_FFFF, data[..i])
    {
      assert data[..i + 1] == data[..i] + [data[i]];
      TableByteIsBitwise(crc, data[i]);
      crc := TableByte(crc, data[i]);
    }
    assert data[..|data|] == data;
    crc := !crc;
  }

  /** The checksum: preset register, bitwise division, complement. */
  function Checksum(data: seq<byte>): bv32 {
    !Bitwise(0xFFFF_FFFF, data)
  }

  lemma ComplementInjective(a: bv32, b: bv32)
    requires !a == !b
    ensures a == b
  {
  }

  /** Runs that differ in their registers still differ after the same bytes. */
  lemma {:induction false} TailKeepsDifference(c: bv32, d: bv32, s: seq<byte>)
    requires c != d
    ensures Bitwise(c, s) != Bitwise(d, s)
    decreases |s|
  {
    hide BitwiseByte;
    if s != [] {
      var front, last := s[..|s| - 1], s[|s| - 1];
      TailKeepsDifference(c, d, front);
      if BitwiseByte(Bitwise(c, front), last) == BitwiseByte(Bitwise(d, front), last) {
        ByteStepInjective(Bitwise(c, front), Bitwise(d, front), last, last);
      }
    }
  }

  lemma {:induction false} BitwiseAppend(c: bv32, s: seq<byte>, t: seq<byte>)
    ensures Bitwise(c, s + t) == Bitwise(Bitwise(c, s), t)
    decreases |t|
  {
    hide BitwiseByte;
    if t == [] {
      assert s + t == s;
    } else {
      assert (s + t)[..|s + t| - 1] == s + t[..|t| - 1];
      BitwiseAppend(c, s, t[..|t| - 1]);
    }
  }

  /** Changing exactly one byte changes the checksum. */
  lemma OneByteChangesChecksum(s: seq<byte>, i: nat, b: byte)
    requires i < |s| && b != s[i]
    ensures Checksum(s[i := b]) != Checksum(s)
  {
    hide BitwiseByte;
    var pre, post := s[..i], s[i + 1..];
    var c := Bitwise(0xFFFF_FFFF, pre);
    assert s == (pre + [s[i]]) + post && s[i := b] == (pre + [b]) + post;
    BitwiseAppend(0xFFFF_FFFF, pre + [s[i]], post);
    BitwiseAppend(0xFFFF_FFFF, pre + [b], post);
    assert (pre + [s[i]])[..i] == pre && (pre + [b])[..i] == pre;
    if BitwiseByte(c, s[i]) == BitwiseByte(c, b) {
      ByteStepInjective(c, c, s[i], b);
    }
    TailKeepsDifference(BitwiseByte(c, s[i]), BitwiseByte(c, b), post);
    if Checksum(s[i := b]) == Checksum(s) {
      ComplementInjective(Bitwise(0xFFFF_FFFF, s[i := b]), Bitwise(0xFFFF_FFFF, s));
    }
  }

  lemma NextByte(data: seq<byte>, k: nat, w: bv8, crc: bv32)
    requires k < |data| && data[k] == w as int && Bitwise(0xFFFF_FFFF, data[..k]) == crc
    ensures Bitwise(0xFFFF_FFFF, data[..k + 1]) == Step8(crc ^ (w as bv32))
  {
    hide Step8;
    ValueDecides(data[k], w);
    assert data[..k + 1][..k] == data[..k];
  }

  lemma CheckSteps()
    ensures Step8(0xFFFFFFCE) == 0x7C231048 && Step8(0x7C23107A) == 0xB0ACBB32
    ensures Step8(0xB0ACBB01) == 0x77B79C2D && Step8(0x77B79C19) == 0x641C1F5C
    ensures Step8(0x641C1F69) == 0x340AC5E3 && Step8(0x340AC5D5) == 0xF68D2C9E
    ensures Step8(0xF68D2CA9) == 0xAFFC9660 && Step8(0xAFFC9658) == 0x651F2550
    ensures Step8(0x651F2569) == 0x340BC6D9
  {
  }

  /** The check value of the algorithm: the nine digits from "1" to "9". */
  lemma CheckValue()
    ensures Checksum([0x31, 0x32, 0x33, 0x34, 0x35, 0x36, 0x37, 0x38, 0x39]) == 0xCBF4_3926
  {
    hide Step8, Bitwise;
    var data: seq<byte> := [0x31, 0x32, 0x33, 0x34, 0x35, 0x36, 0x37, 0x38, 0x39];
    CheckSteps();
    assert data[..0] == [] && data[..9] == data;
    EmptyRun();
    NextByte(data, 0, 0x31, 0xFFFFFFFF);
    NextByte(data, 1, 0x32, 0x7C231048);
    NextByte(data, 2, 0x33, 0xB0ACBB32);
    NextByte(data, 3, 0x34, 0x77B79C2D);
    NextByte(data, 4, 0x35, 0x641C1F5C);
    NextByte(data, 5, 0x36, 0x340AC5E3);
    NextByte(data, 6, 0x37, 0xF68D2C9E);
    NextByte(data, 7, 0x38, 0xAFFC9660);
    NextByte(data, 8, 0x39, 0x651F2550);
  }

  lemma EmptyRun()
    ensures Bitwise(0xFFFF_FFFF, []) == 0xFFFF_FFFF
  {
  }
}
