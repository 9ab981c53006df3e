/** The CRC-16 of a block (crc.c): the bit loop, what it computes and what it detects. */
module Crc {
  import opened Bytes
  import opened Gf2
  import opened Bits

  /** The coefficients of the generator below x^16. */
  function GeneratorTail(): (p: Poly)
    ensures |p| == 16
  {
    seq(16, i => i == 3 || i == 10 || i == 15)
  }

  /** x^16 + x^12 + x^5 + 1 */
  function Generator(): (p: Poly)
    ensures |p| == 17 && p[0]
  {
    [true] + GeneratorTail()
  }

  // -------------------------------------------------------------- bits

  function ByteBits(b: byte): (p: Poly)
    ensures |p| == 8
  {
    BitsOf(8, b)
  }

  function ByteOf(p: Poly): byte
    requires |p| == 8
  {
    ValueBound(p);
    EighthPower();
    ValueOf(p)
  }

  lemma EighthPower()
    ensures Pow2(8) == 256
  {
    assert Pow2(4) == 16;
  }

  lemma BitsOfByte(p: Poly)
    requires |p| == 8
    ensures ByteBits(ByteOf(p)) == p
  {
    BitsOfValue(8, p);
    assert p[0..] == p;
  }

  /** The bits of a string of bytes in the order of transmission. */
  function DataBits(s: Data): (p: Poly)
    ensures |p| == 8 * |s|
  {
    if s == [] then [] else DataBits(s[..|s| - 1]) + ByteBits(s[|s| - 1])
  }

  lemma {:induction false} DataBitsAppend(s: Data, t: Data)
    ensures DataBits(s + t) == DataBits(s) + DataBits(t)
  {
    hide ByteBits;
    if t == [] {
      assert s + t == s;
    } else {
      var n := |t| - 1;
      DataBitsAppend(s, t[..n]);
      assert (s + t)[..|s + t| - 1] == s + t[..n];
    }
  }

  // ---------------------------------------------------- shift register

  /** The 16-bit register after one more bit has been shifted in. */
  function Feed(r: Poly, b: bool): (r': Poly)
    requires |r| == 16
    ensures |r'| == 16
  {
    Xor(r[1..] + [b], Scale(r[0], GeneratorTail()))
  }

  function FeedAll(r: Poly, p: Poly): (r': Poly)
    requires |r| == 16
    ensures |r'| == 16
  {
    if p == [] then r else Feed(FeedAll(r, p[..|p| - 1]), p[|p| - 1])
  }

  lemma {:induction false} FeedAllAppend(r: Poly, p: Poly, q: Poly)
    requires |r| == 16
    ensures FeedAll(r, p + q) == FeedAll(FeedAll(r, p), q)
  {
    if q == [] {
      assert p + q == p;
    } else {
      var n := |q| - 1;
      FeedAllAppend(r, p, q[..n]);
      assert (p + q)[..|p + q| - 1] == p + q[..n];
    }
  }

  /** The register after a string of bytes has been shifted through it, starting empty. */
  function Residue(s: Data): (r: Poly)
    ensures |r| == 16
  {
    FeedAll(Zeros(16), DataBits(s))
  }

  /** What `crc16ns` works out for a chunk: the chunk and then two zero bytes are shifted through. */
  function CrcOf(data: Data): (r: Poly)
    ensures |r| == 16
  {
    Residue(data + [0, 0])
  }

  /** The two bytes that follow a chunk in its block, most significant first. */
  function CrcBytes(data: Data): (s: Data)
    ensures |s| == 2
  {
    var r := CrcOf(data);
    [ByteOf(r[..8]), ByteOf(r[8..])]
  }

  // --------------------------------------------------------- the code

  const WORD: nat := 0x1_0000_0000

  /** A 32-bit word. */
  type word = w: int | 0 <= w < WORD

  /** The word shifted left by one place; the bit shifted out is lost. */
  function ShiftLeft(w: word): word
  {
    (2 * w) % WORD
  }

  /** The bitwise exclusive-or of two words. */
  function XorWord(a: word, b: word): word
  {
    var p := Xor(BitsOf(32, a), BitsOf(32, b));
    ValueBound(p);
    WordPower();
    ValueOf(p)
  }

  lemma WordPower()
    ensures Pow2(32) == WORD && Pow2(16) == 0x10000 && Pow2(15) == 0x8000 && Pow2(7) == 128
  {
    assert Pow2(8) == 256;
    assert Pow2(16) == 0x10000;
    assert Pow2(24) == 0x100_0000;
  }

  /** Shifts one byte through the register. The register is a 32-bit word that is never cut to 16 bits. */
  method Updcrc(c0: byte, crc0: word) returns (crc: word)
    ensures BitsOf(16, crc) == FeedAll(BitsOf(16, crc0), ByteBits(c0))
  {
    var c: nat := c0;
    crc := crc0;
    var count := 8;
    assert BitsOf(8, c)[..8] == ByteBits(c0);
    while count > 0
      invariant 0 <= count <= 8
      invariant FeedAll(BitsOf(16, crc), BitsOf(8, c)[..count]) == FeedAll(BitsOf(16, crc0), ByteBits(c0))
    {
      count := count - 1;
      OneRound(c, crc, count);
      if (crc / 0x8000) % 2 == 1 {
        crc := ShiftLeft(crc);
        c := 2 * c;
        Even(crc);
        crc := crc + (if (c / 256) % 2 == 1 then 1 else 0);
        crc := XorWord(crc, 0x1021);
      } else {
        crc := ShiftLeft(crc);
        c := 2 * c;
        Even(crc);
        crc := crc + (if (c / 256) % 2 == 1 then 1 else 0);
      }
    }
    assert BitsOf(8, c)[..0] == [];
  }

  /** The register after a round; adding the bit cannot overflow, since a shifted word is even. */
  function NextRegister(c: nat, crc: word): word
  {
    var s := ShiftLeft(crc);
    Shifted(crc);
    var t := s + (if ((2 * c) / 256) % 2 == 1 then 1 else 0);
    if (crc / 0x8000) % 2 == 1 then XorWord(t, 0x1021) else t
  }

  lemma Even(w: word)
    requires exists v: word :: w == ShiftLeft(v)
    ensures w + 1 < WORD
  {
    var v: word :| w == ShiftLeft(v);
    Shifted(v);
  }

  lemma Shifted(w: word)
    ensures ShiftLeft(w) == if w < 0x8000_0000 then 2 * w else 2 * w - WORD
    ensures ShiftLeft(w) + 1 < WORD
  {
  }

  /** One round of the loop is one feed of the register; `count` bits of `c` remain for the others. */
  lemma OneRound(c: nat, crc: word, count: nat)
    requires count < 8
    ensures FeedAll(BitsOf(16, NextRegister(c, crc)), BitsOf(8, 2 * c)[..count])
         == FeedAll(BitsOf(16, crc), BitsOf(8, c)[..count + 1])
  {
    var b := ((2 * c) / 256) % 2 == 1;
    RegisterFed(c, crc, b);
    TopBit(8, c);
    WordPower();
    assert (2 * c) / 256 == c / 128;
    DoubledBits(8, c, false);
    FeedFirst(BitsOf(8, c), BitsOf(8, 2 * c), BitsOf(16, crc), count);
  }

  lemma FeedFirst(bits: Poly, bits': Poly, r: Poly, count: nat)
    requires count < 8 && |bits| == 8 && |r| == 16 && bits' == bits[1..] + [false]
    ensures FeedAll(Feed(r, bits[0]), bits'[..count]) == FeedAll(r, bits[..count + 1])
  {
    assert bits[..count + 1] == [bits[0]] + bits'[..count];
    FeedAllAppend(r, [bits[0]], bits'[..count]);
    assert [bits[0]][..0] == [];
  }

  lemma RegisterFed(c: nat, crc: word, b: bool)
    requires b == (((2 * c) / 256) % 2 == 1)
    ensures BitsOf(16, NextRegister(c, crc)) == Feed(BitsOf(16, crc), b)
  {
    Shifted(crc);
    var t: word := ShiftLeft(crc) + (if b then 1 else 0);
    ShiftedAndAdded(crc, t, b);
    TailXored(t);
    HighBit(crc);
    FeedCases(BitsOf(16, crc), BitsOf(16, t), b);
  }

  lemma HighBit(crc: word)
    ensures BitsOf(16, crc)[0] == ((crc / 0x8000) % 2 == 1)
  {
    TopBit(16, crc);
    WordPower();
  }

  lemma ShiftedAndAdded(crc: word, t: word, b: bool)
    requires t == ShiftLeft(crc) + (if b then 1 else 0)
    ensures BitsOf(16, t) == BitsOf(16, crc)[1..] + [b]
  {
    Shifted(crc);
    DoubledBits(16, crc, b);
    var d := 2 * crc + if b then 1 else 0;
    if crc >= 0x8000_0000 {
      CarryInvisible(d);
    }
  }

  lemma CarryInvisible(d: nat)
    requires d >= WORD
    ensures BitsOf(16, d - WORD) == BitsOf(16, d)
  {
    WordPower();
    HighPartInvisible(16, 16, d);
  }

  lemma FeedCases(r: Poly, t: Poly, b: bool)
    requires |r| == 16 && t == r[1..] + [b]
    ensures Feed(r, b) == if r[0] then Xor(t, GeneratorTail()) else t
  {
    XorNothing(t);
  }

  lemma XorNothing(p: Poly)
    ensures Xor(p, Zeros(|p|)) == p
  {
  }

  lemma TailXored(t: word)
    ensures BitsOf(16, XorWord(t, 0x1021)) == Xor(BitsOf(16, t), GeneratorTail())
  {
    var p, q := BitsOf(32, t), BitsOf(32, 0x1021);
    BitsOfValue(16, Xor(p, q));
    FewerBits(32, 16, t);
    FewerBits(32, 16, 0x1021);
    TailBits(16, 0x1021);
    assert Xor(p, q)[16..] == Xor(p[16..], q[16..]);
  }

  lemma TailBits(n: nat, v: nat)
    requires n == 16 && v == 0x1021
    ensures BitsOf(n, v) == GeneratorTail()
  {
    hide BitsOf;
    var v1 := v / 16;
    var v2 := v1 / 16;
    var v3 := v2 / 16;
    var v4 := v3 / 16;
    LastFour(n - 4, v, false, false, false, true);
    LastFour(n - 8, v1, false, false, true, false);
    LastFour(n - 12, v2, false, false, false, false);
    LastFour(n - 16, v3, false, false, false, true);
    NoBits(v4);
    Nibbles(BitsOf(n, v), BitsOf(n - 4, v1), BitsOf(n - 8, v2), BitsOf(n - 12, v3));
  }

  lemma NoBits(v: nat)
    ensures BitsOf(0, v) == []
  {
  }

  lemma Nibbles(p: Poly, q: Poly, r: Poly, s: Poly)
    requires p == q + [false, false, false, true] && q == r + [false, false, true, false]
    requires r == s + [false, false, false, false] && s == [] + [false, false, false, true]
    ensures p == GeneratorTail()
  {
  }

  datatype HostOrder = LittleEndian | BigEndian

  type half = h: int | 0 <= h < 0x10000

  /** The two bytes of the 16-bit word `n` as they lie in the memory of the host. */
  function Memory(host: HostOrder, n: half): (s: Data)
    ensures |s| == 2
  {
    var hi: byte, lo: byte := n / 256, n % 256;
    if host == BigEndian then [hi, lo] else [lo, hi]
  }

  /** Reads the memory of `n` as if it had been written high byte first. */
  function MyHtons(host: HostOrder, n: half): half
  {
    var np := Memory(host, n);
    var hi: int, lo: int := np[0], np[1];
    hi * 256 + lo
  }

  /** Whatever the byte order of the host, the converted word lies in memory high byte first. */
  lemma HtonsInMemory(host: HostOrder, n: half)
    ensures Memory(host, MyHtons(host, n)) == [n / 256, n % 256]
  {
  }

  /** The CRC of a chunk, in the order in which it is stored behind the chunk. */
  method Crc16ns(host: HostOrder, buf: Data) returns (stored: Data)
    requires |buf| == CHUNK_SZ
    ensures stored == CrcBytes(buf)
  {
    hide Residue, FeedAll, BitsOf, ByteBits, CrcOf, ByteOf, Memory, MyHtons;
    var oldcrc: word := 0;
    var wcj := CHUNK_SZ;
    EmptyRegister();
    while wcj > 0
      invariant 0 <= wcj <= CHUNK_SZ
      invariant BitsOf(16, oldcrc) == Residue(buf[..CHUNK_SZ - wcj])
    {
      var b := buf[CHUNK_SZ - wcj];
      ResidueOfPrefix(buf, CHUNK_SZ - wcj);
      wcj := wcj - 1;
      oldcrc := Updcrc(b, oldcrc);
    }
    assert buf[..CHUNK_SZ] == buf;
    ResidueOfPadded(buf);
    oldcrc := Updcrc(0, oldcrc);
    oldcrc := Updcrc(0, oldcrc);
    var n: half := oldcrc % 0x10000;
    stored := Memory(host, MyHtons(host, n));
    HtonsInMemory(host, n);
    StoredBytes(oldcrc, CrcOf(buf));
  }

  lemma EmptyRegister()
    ensures BitsOf(16, 0) == Residue([])
  {
    ZeroBits(16);
  }

  lemma {:induction false} ZeroBits(n: nat)
    ensures BitsOf(n, 0) == Zeros(n)
  {
    if n != 0 {
      ZeroBits(n - 1);
    }
  }

  lemma ResidueOfAppended(s: Data, b: byte)
    ensures Residue(s + [b]) == FeedAll(Residue(s), ByteBits(b))
  {
    assert (s + [b])[..|s + [b]| - 1] == s;
    FeedAllAppend(Zeros(16), DataBits(s), ByteBits(b));
  }

  lemma ResidueOfPrefix(s: Data, i: nat)
    requires i < |s|
    ensures Residue(s[..i + 1]) == FeedAll(Residue(s[..i]), ByteBits(s[i]))
  {
    assert s[..i + 1] == s[..i] + [s[i]];
    ResidueOfAppended(s[..i], s[i]);
  }

  lemma ResidueOfPadded(s: Data)
    ensures CrcOf(s) == FeedAll(FeedAll(Residue(s), ByteBits(0)), ByteBits(0))
  {
    ResidueOfAppended(s, 0);
    ResidueOfAppended(s + [0], 0);
    assert s + [0] + [0] == s + [0, 0];
  }

  /** The two bytes cut from a register are those made of its bits. */
  lemma StoredBytes(w: word, r: Poly)
    requires |r| == 16 && r == BitsOf(16, w)
    ensures var n := w % 0x10000;
            ByteOf(r[..8]) == n / 256 && ByteOf(r[8..]) == n % 256
  {
    LowHalf(w);
    ValueOfHalf(w % 0x10000);
    SplitValue(r);
  }

  lemma SplitValue(r: Poly)
    requires |r| == 16
    ensures ValueOf(r) == ByteOf(r[..8]) * 256 + ByteOf(r[8..])
  {
    assert r[..8] + r[8..] == r;
    ValueAppend(r[..8], r[8..]);
    EighthPower();
  }

  lemma ValueOfHalf(n: half)
    ensures ValueOf(BitsOf(16, n)) == n
  {
    WordPower();
    ValueOfBits(16, n);
  }

  lemma LowHalf(w: nat)
    ensures BitsOf(16, w) == BitsOf(16, w % 0x10000)
  {
    WordPower();
    RemainderBits(16, w);
  }

  // ------------------------------------------------- what it computes

  lemma {:induction false} ShiftsUp(r: Poly, n: nat)
    requires |r| == 16 && n <= 16 && r[..n] == Zeros(n)
    ensures FeedAll(r, Zeros(n)) == r[n..] + Zeros(n)
  {
    if n > 0 {
      assert forall i :: 0 <= i < n ==> !r[..n][i];
      assert r[..n - 1] == Zeros(n - 1);
      ShiftsUp(r, n - 1);
      assert Zeros(n)[..n - 1] == Zeros(n - 1);
      var t := r[n - 1..] + Zeros(n - 1);
      assert t[0] == r[..n][n - 1];
      assert Feed(t, false) == t[1..] + [false];
    }
  }

  /** The CRC of the byte 1 alone, which with linearity fixes that of every chunk. */
  lemma UnitCrc()
    ensures CrcBytes([0x01]) == [0x10, 0x21]
  {
    var p := Zeros(7) + [true] + Zeros(8);
    var one := [true] + Zeros(15);
    UnitBits();
    ShortFeed(p);
    FeedAllAppend(Zeros(16), p, Zeros(7) + [false]);
    FeedAllAppend(p, Zeros(7), [false]);
    ShiftsUp(p, 7);
    assert p[7..] + Zeros(7) == one;
    assert [false][..0] == [] && FeedAll(one, [false]) == Feed(one, false);
    assert Feed(one, false) == GeneratorTail();
    assert Zeros(0) + p == p;
    TailBytes();
  }

  lemma UnitBits()
    ensures DataBits([0x01] + [0, 0]) == Zeros(7) + [true] + Zeros(8) + (Zeros(7) + [false])
  {
    DataBitsAppend([0x01], [0, 0]);
    TwoZeroBytes([0x01]);
    assert [0x01][..0] == [];
    assert BitsOf(4, 0) == [false, false, false, false] by {
      ZeroBits(4);
    }
    assert ByteBits(1) == Zeros(7) + [true] by {
      ZeroBits(7);
    }
  }

  lemma TailBytes()
    ensures ByteOf(GeneratorTail()[..8]) == 0x10 && ByteOf(GeneratorTail()[8..]) == 0x21
  {
    TailBits(16, 0x1021);
    ValueOfHalf(0x1021);
    SplitValue(GeneratorTail());
  }

  /** Shifting at most 16 bits into an empty register only stores them. */
  lemma {:induction false} ShortFeed(p: Poly)
    requires |p| <= 16
    ensures FeedAll(Zeros(16), p) == Zeros(16 - |p|) + p
  {
    if p != [] {
      var n := |p| - 1;
      ShortFeed(p[..n]);
      var r := Zeros(16 - n) + p[..n];
      assert !r[0];
      assert Feed(r, p[n]) == r[1..] + [p[n]];
      assert p == p[..n] + [p[n]];
    }
  }

  lemma {:induction false} RegisterHoldsRemainder(p: Poly)
    requires |p| >= 16
    ensures IsRemainder(p, Generator(), FeedAll(Zeros(16), p))
  {
    hide Mul;
    if |p| == 16 {
      ShortFeed(p);
      ShortQuotient(p);
      assert Zeros(0) + p == p;
    } else {
      var n := |p| - 1;
      RegisterHoldsRemainder(p[..n]);
      var r := FeedAll(Zeros(16), p[..n]);
      var q: Poly :| IsQuotient(p[..n], Generator(), r, q);
      DivisionStep(p, r, q);
    }
  }

  lemma ShortQuotient(p: Poly)
    requires |p| == 16
    ensures IsQuotient(p, Generator(), p, [])
  {
    assert Zeros(0) + p == p;
    assert p == Xor(Mul([], Generator()), Zeros(0) + p);
  }

  /** One feed is one step of long division by the generator. */
  lemma DivisionStep(p: Poly, r: Poly, q: Poly)
    requires |p| > 16 && |r| == 16 && IsQuotient(p[..|p| - 1], Generator(), r, q)
    ensures IsQuotient(p, Generator(), Feed(r, p[|p| - 1]), q + [r[0]])
  {
    var n := |p| - 1;
    var k := |q|;
    var r', q' := Feed(r, p[n]), q + [r[0]];
    assert q'[..k] == q;
    var m, m' := Mul(q, Generator()), Mul(q', Generator());
    forall i | 0 <= i < |p| ensures p[i] == Xor(m', Zeros(k + 1) + r')[i] {
      assert m'[i] == ((m + [false])[i] != (Zeros(k) + Scale(r[0], Generator()))[i]);
      if i < n {
        assert p[i] == p[..n][i] == (m[i] != (Zeros(k) + r)[i]);
      }
    }
  }

  lemma TwoZeroBytes(data: Data)
    ensures DataBits(data + [0, 0]) == DataBits(data) + Zeros(16)
  {
    DataBitsAppend(data + [0], [0]);
    DataBitsAppend(data, [0]);
    assert data + [0] + [0] == data + [0, 0];
    ZeroByte();
  }

  lemma ZeroByte()
    ensures DataBits([0]) == Zeros(8)
  {
    assert [0 as byte][..0] == [];
    ZeroBits(8);
  }

  /** The stored word is the remainder of data(x) * x^16 by the generator, and nothing else is. */
  lemma CrcIsRemainder(data: Data, r: Poly)
    ensures r == CrcOf(data) <==> IsRemainder(DataBits(data) + Zeros(16), Generator(), r)
  {
    TwoZeroBytes(data);
    RegisterHoldsRemainder(DataBits(data) + Zeros(16));
    if IsRemainder(DataBits(data) + Zeros(16), Generator(), r) {
      RemainderIsUnique(DataBits(data) + Zeros(16), Generator(), r, CrcOf(data));
    }
  }

  // -------------------------------------------------- what it detects

  lemma FeedIsLinear(r: Poly, s: Poly, a: bool, b: bool)
    requires |r| == |s| == 16
    ensures Feed(Xor(r, s), a != b) == Xor(Feed(r, a), Feed(s, b))
  {
  }

  lemma {:induction false} FeedAllIsLinear(r: Poly, s: Poly, p: Poly, q: Poly)
    requires |r| == |s| == 16 && |p| == |q|
    ensures FeedAll(Xor(r, s), Xor(p, q)) == Xor(FeedAll(r, p), FeedAll(s, q))
  {
    if p != [] {
      var n := |p| - 1;
      FeedAllIsLinear(r, s, p[..n], q[..n]);
      assert Xor(p, q)[..n] == Xor(p[..n], q[..n]);
      FeedIsLinear(FeedAll(r, p[..n]), FeedAll(s, q[..n]), p[n], q[n]);
    }
  }

  /** The bitwise exclusive-or of two bytes. */
  function XorByte(a: byte, b: byte): byte
  {
    ByteOf(Xor(ByteBits(a), ByteBits(b)))
  }

  function XorData(a: Data, b: Data): Data
    requires |a| == |b|
  {
    seq(|a|, i requires 0 <= i < |a| => XorByte(a[i], b[i]))
  }

  lemma {:induction false} DataBitsXor(a: Data, b: Data)
    requires |a| == |b|
    ensures DataBits(XorData(a, b)) == Xor(DataBits(a), DataBits(b))
  {
    if a != [] {
      var n := |a| - 1;
      DataBitsXor(a[..n], b[..n]);
      BitsOfByte(Xor(ByteBits(a[n]), ByteBits(b[n])));
      assert XorData(a, b)[..n] == XorData(a[..n], b[..n]);
      XorAppend(DataBits(a[..n]), DataBits(b[..n]), ByteBits(a[n]), ByteBits(b[n]));
    }
  }

  lemma XorAppend(a: Poly, b: Poly, c: Poly, d: Poly)
    requires |a| == |b| && |c| == |d|
    ensures Xor(a + c, b + d) == Xor(a, b) + Xor(c, d)
  {
  }

  lemma XorWithItself(n: nat)
    ensures Xor(Zeros(n), Zeros(n)) == Zeros(n)
  {
  }

  /** Two strings leave residues whose difference is the residue of their difference. */
  lemma ResidueIsLinear(s: Data, t: Data)
    requires |s| == |t|
    ensures Residue(XorData(s, t)) == Xor(Residue(s), Residue(t))
  {
    XorWithItself(16);
    DataBitsXor(s, t);
    FeedAllIsLinear(Zeros(16), Zeros(16), DataBits(s), DataBits(t));
  }

  /** The check word of a bytewise exclusive-or is the exclusive-or of the check words. */
  lemma CrcIsLinear(a: Data, b: Data)
    requires |a| == |b|
    ensures CrcOf(XorData(a, b)) == Xor(CrcOf(a), CrcOf(b))
  {
    ResidueIsLinear(a + [0, 0], b + [0, 0]);
    PaddedXor(a, b);
  }

  lemma PaddedXor(a: Data, b: Data)
    requires |a| == |b|
    ensures XorData(a + [0, 0], b + [0, 0]) == XorData(a, b) + [0, 0]
  {
    ZeroBits(8);
    XorWithItself(8);
    EighthPower();
    ValueOfBits(8, 0);
    assert XorByte(0, 0) == 0;
  }

  lemma {:induction false} FeedZeros(n: nat)
    ensures FeedAll(Zeros(16), Zeros(n)) == Zeros(16)
  {
    if n != 0 {
      assert Zeros(n)[..n - 1] == Zeros(n - 1);
      FeedZeros(n - 1);
    }
  }

  /** Once the register is not empty, zeros cannot empty it: the generator has a constant term. */
  lemma {:induction false} ZerosKeepNonZero(r: Poly, n: nat)
    requires |r| == 16 && r != Zeros(16)
    ensures FeedAll(r, Zeros(n)) != Zeros(16)
  {
    hide Feed;
    if n != 0 {
      assert Zeros(n)[..n - 1] == Zeros(n - 1);
      ZerosKeepNonZero(r, n - 1);
      ZeroKeepsNonZero(FeedAll(r, Zeros(n - 1)));
    }
  }

  lemma ZeroKeepsNonZero(r: Poly)
    requires |r| == 16 && r != Zeros(16)
    ensures Feed(r, false) != Zeros(16)
  {
    var r' := Feed(r, false);
    if r[0] {
      assert r'[15];
    } else {
      var i :| 0 <= i < 16 && r[i];
      assert r'[i - 1];
    }
  }

  /** A chunk followed by its two stored bytes leaves the register empty. */
  lemma StoredCrcClearsRegister(data: Data)
    ensures Residue(data + CrcBytes(data)) == Zeros(16)
  {
    hide FeedAll, DataBits, CrcBytes, Xor;
    var d, c := DataBits(data), CrcOf(data);
    StoredBits(data);
    TwoZeroBytes(data);
    PaddedFeed(|d|, c);
    SplitTail(d, c);
    XorWithItself(16);
    FeedAllIsLinear(Zeros(16), Zeros(16), d + Zeros(16), Zeros(|d|) + c);
  }

  lemma SplitTail(d: Poly, c: Poly)
    requires |c| == 16
    ensures d + c == Xor(d + Zeros(16), Zeros(|d|) + c)
    ensures Xor(c, c) == Zeros(16)
  {
  }

  lemma PaddedFeed(n: nat, c: Poly)
    requires |c| == 16
    ensures FeedAll(Zeros(16), Zeros(n) + c) == c
  {
    hide FeedAll;
    FeedZeros(n);
    FeedAllAppend(Zeros(16), Zeros(n), c);
    ShortFeed(c);
    assert Zeros(0) + c == c;
  }

  lemma StoredBits(data: Data)
    ensures DataBits(data + CrcBytes(data)) == DataBits(data) + CrcOf(data)
  {
    var r := CrcOf(data);
    var hi, lo := ByteOf(r[..8]), ByteOf(r[8..]);
    BitsOfByte(r[..8]);
    BitsOfByte(r[8..]);
    assert data + CrcBytes(data) == data + [hi] + [lo];
    assert (data + [hi] + [lo])[..|data| + 1] == data + [hi];
    assert (data + [hi])[..|data|] == data;
    assert r[..8] + r[8..] == r;
  }

  /** `e` is zero outside a window of at most 16 bits, and not zero inside it. */
  ghost predicate IsBurst(e: Poly, at: nat, width: nat)
  {
    && width <= 16 && at + width <= |e|
    && (forall i :: 0 <= i < |e| && !(at <= i < at + width) ==> !e[i])
    && exists i :: at <= i < at + width && e[i]
  }

  lemma BurstLeavesResidue(e: Poly, at: nat, width: nat)
    requires IsBurst(e, at, width)
    ensures FeedAll(Zeros(16), e) != Zeros(16)
  {
    hide FeedAll;
    var w := e[at..at + width];
    var rest := |e| - at - width;
    assert e == (Zeros(at) + w) + Zeros(rest);
    FeedAllAppend(Zeros(16), Zeros(at) + w, Zeros(rest));
    WindowFillsRegister(at, w);
    var i :| at <= i < at + width && e[i];
    assert w[i - at];
    ZerosKeepNonZero(Zeros(16 - width) + w, rest);
  }

  lemma WindowFillsRegister(at: nat, w: Poly)
    requires |w| <= 16
    ensures FeedAll(Zeros(16), Zeros(at) + w) == Zeros(16 - |w|) + w
    ensures forall i :: 0 <= i < |w| && w[i] ==> Zeros(16 - |w|) + w != Zeros(16)
  {
    hide FeedAll;
    FeedAllAppend(Zeros(16), Zeros(at), w);
    FeedZeros(at);
    ShortFeed(w);
    forall i | 0 <= i < |w| && w[i] ensures Zeros(16 - |w|) + w != Zeros(16) {
      assert (Zeros(16 - |w|) + w)[16 - |w| + i];
    }
  }

  lemma DifferenceIsZero(p: Poly, q: Poly)
    requires |p| == |q|
    ensures Xor(p, q) == Zeros(|p|) <==> p == q
  {
    if Xor(p, q) == Zeros(|p|) {
      forall i | 0 <= i < |p| ensures p[i] == q[i] {
        assert Xor(p, q)[i] == Zeros(|p|)[i];
      }
    }
  }

  lemma BurstResidue(s: Data, t: Data)
    requires |s| == |t|
    ensures |DataBits(s)| == |DataBits(t)|
    ensures FeedAll(Zeros(16), Xor(DataBits(s), DataBits(t))) == Xor(Residue(s), Residue(t))
  {
    hide FeedAll, DataBits, XorData;
    DataBitsXor(s, t);
    ResidueIsLinear(s, t);
  }

  /** Two strings that differ by a burst of up to 16 bits never both pass the check. */
  lemma BurstIsDetected(s: Data, t: Data, at: nat, width: nat)
    requires |s| == |t|
    requires IsBurst(Xor(DataBits(s), DataBits(t)), at, width)
    ensures Residue(s) != Residue(t)
  {
    hide Residue, FeedAll, DataBits, XorData, IsBurst;
    BurstResidue(s, t);
    BurstLeavesResidue(Xor(DataBits(s), DataBits(t)), at, width);
    XorWithItself(16);
    DifferenceIsZero(Residue(s), Residue(t));
  }
}
