/** The 133-byte blocks of the protocol: what the sender builds and what the receiver makes of them. */
module Blocks {
  import opened Bytes
  import opened Gf2
  import opened Bits
  import opened Crc
  import opened Text

  // ------------------------------------------------------------ sender

  /** A block of 128 payload bytes with its number, the complement of the number and the CRC. */
  function Frame(num: byte, payload: Data): (b: Data)
    requires |payload| == CHUNK_SZ
    ensures |b| == BLK_SZ
  {
    [SOH, num, Complement(num)] + payload + CrcBytes(payload)
  }

  function Min(a: nat, b: nat): nat
  {
    if a < b then a else b
  }

  /** Where block `k` of a file ends in the file; block 0 carries no data. */
  function EndOf(content: Data, k: nat): (e: nat)
    ensures e <= |content|
  {
    Min(CHUNK_SZ * k, |content|)
  }

  /** The bytes of the file that block `k` carries. */
  function ChunkOf(content: Data, k: nat): (c: Data)
    requires k > 0
    ensures |c| <= CHUNK_SZ
  {
    content[EndOf(content, k - 1)..EndOf(content, k)]
  }

  /** How many data blocks a file takes. */
  function BlockCount(content: Data): nat
  {
    (|content| + CHUNK_SZ - 1) / CHUNK_SZ
  }

  function PadChunk(chunk: Data): (p: Data)
    requires |chunk| <= CHUNK_SZ
    ensures |p| == CHUNK_SZ
  {
    chunk + Fill(CHUNK_SZ - |chunk|, CTRL_Z)
  }

  function DataBlk(content: Data, k: nat): (b: Data)
    requires k > 0
    ensures |b| == BLK_SZ
  {
    Frame(NumOf(k), PadChunk(ChunkOf(content, k)))
  }

  /** A stat block can hold this name and size, each with a zero byte behind it. */
  predicate StatFits(name: Data, size: nat)
  {
    |name| + DigitCount(size) + 2 <= CHUNK_SZ
  }

  function StatPayload(name: Data, size: nat): (p: Data)
    requires StatFits(name, size)
    ensures |p| == CHUNK_SZ
  {
    name + [0] + Decimal(size) + Fill(CHUNK_SZ - |name| - 1 - DigitCount(size), 0)
  }

  function StatBlk(name: Data, size: nat): (b: Data)
    requires StatFits(name, size)
    ensures |b| == BLK_SZ
  {
    Frame(0, StatPayload(name, size))
  }

  /** The block that ends a session. */
  function EmptyStatBlk(): (b: Data)
    ensures |b| == BLK_SZ
  {
    Frame(0, Fill(CHUNK_SZ, 0))
  }

  /** Data block `k`, byte by byte: 0x01, the number of the block modulo 256 and its complement, 128 bytes of the file that
      follow the first 128 * (k - 1), with 0x1A in the place of those that the file does not have, and their CRC. */
  lemma DataBlkBytes(content: Data, k: nat, i: nat)
    requires k > 0 && i < 128
    ensures var b := DataBlk(content, k);
            var at := 128 * (k - 1) + i;
            && |b| == 133 && b[0] == 0x01 && b[1] == k % 256 && b[2] == 255 - k % 256
            && b[3 + i] == (if at < |content| then content[at] else 0x1A)
            && b[131..] == CrcBytes(b[3..131])
  {
    hide CrcBytes;
    var payload := PadChunk(ChunkOf(content, k));
    var b := DataBlk(content, k);
    assert b[3..131] == payload && b[131..] == CrcBytes(payload);
    assert b[3 + i] == payload[i];
  }

  /** A stat block, byte by byte: the name, a zero byte, the size in decimal, and zero bytes up to the CRC. */
  lemma StatBlkBytes(name: Data, size: nat, i: nat)
    requires StatFits(name, size) && i < 128
    ensures var b := StatBlk(name, size);
            var digits := Decimal(size);
            && |b| == 133 && b[0] == 0x01 && b[1] == 0 && b[2] == 255
            && b[3 + i] == (if i < |name| then name[i]
                            else if |name| < i <= |name| + |digits| then digits[i - |name| - 1] else 0)
            && b[131..] == CrcBytes(b[3..131])
  {
    hide CrcBytes, Decimal;
    var payload := StatPayload(name, size);
    var b := StatBlk(name, size);
    assert b[3..131] == payload && b[131..] == CrcBytes(payload);
    assert b[3 + i] == payload[i];
  }

  lemma EmptyStatBlkBytes(i: nat)
    requires i < 128
    ensures var b := EmptyStatBlk();
            |b| == 133 && b[0] == 0x01 && b[1] == 0 && b[2] == 255 && b[3 + i] == 0 && b[131..] == CrcBytes(b[3..131])
  {
    hide CrcBytes;
    var b := EmptyStatBlk();
    assert b[3..131] == Fill(128, 0);
    assert b[3 + i] == b[3..131][i];
  }

  // ---------------------------------------------------------- receiver

  /** What the receiver remembers about blocks. */
  datatype Reception = Reception(rcvBlk: Data, goodBlk: bool, goodBlk1st: bool, syncLoss: bool, numLastGoodBlk: byte)
  {
    ghost predicate Valid()
    {
      |rcvBlk| == BUF_SZ
    }

    function Bad(): Reception
    {
      this.(goodBlk := false, goodBlk1st := false)
    }

    function Payload(): (p: Data)
      requires |rcvBlk| == BUF_SZ
      ensures |p| == CHUNK_SZ
    {
      rcvBlk[DATA_POS..PAST_CHUNK]
    }
  }

  /** Whether the two bytes behind the payload are its CRC. */
  predicate CrcMatches(rcvBlk: Data)
    requires |rcvBlk| == BUF_SZ
  {
    rcvBlk[PAST_CHUNK..BLK_SZ] == CrcBytes(rcvBlk[DATA_POS..PAST_CHUNK])
  }

  /** The receive buffer once `rd` has been read behind its first byte. */
  function Stored(rcvBlk: Data, rd: Data): (r: Data)
    requires |rcvBlk| == BUF_SZ && |rd| < BUF_SZ
    ensures |r| == BUF_SZ
  {
    rcvBlk[..1] + rd + rcvBlk[1 + |rd|..]
  }

  /** What `getRestBlk` leaves when the medium delivers `rd` after the start byte. */
  function GetRest(x: Reception, fileOpen: bool, rd: Data): (y: Reception)
    requires x.Valid() && |rd| < BUF_SZ
    ensures y.Valid()
  {
    var z := x.(rcvBlk := Stored(x.rcvBlk, rd));
    if |rd| != REST_BLK_SZ || z.rcvBlk[2] != Complement(z.rcvBlk[1]) then z.Bad()
    else if z.rcvBlk[1] != Succ(z.numLastGoodBlk) && (!fileOpen || z.rcvBlk[1] != z.numLastGoodBlk) then
      z.Bad().(syncLoss := true)
    else if !CrcMatches(z.rcvBlk) then z.Bad()
    else if z.rcvBlk[1] != Succ(z.numLastGoodBlk) then z.(goodBlk := true, goodBlk1st := false)
    else z.(goodBlk := true, goodBlk1st := true, numLastGoodBlk := z.rcvBlk[1])
  }

  /** Too few bytes or too many behind the start byte make a block bad, and nothing worse. */
  lemma WrongLength(x: Reception, fileOpen: bool, rd: Data)
    requires x.Valid() && |rd| < BUF_SZ && |rd| != 132
    ensures var y := GetRest(x, fileOpen, rd);
            !y.goodBlk && !y.goodBlk1st && y.syncLoss == x.syncLoss && y.numLastGoodBlk == x.numLastGoodBlk
    ensures Rejected(x, fileOpen, rd)
  {
    hide CrcMatches, Stored;
  }

  /** What is made of any delivery behind a start byte, in terms of the bytes delivered: it is out of step if it has the
      right length and a number with its complement that is neither the next one nor, with a file open, the last one;
      it is good if it is in step and its CRC matches, and new if it has the next number. */
  lemma Verdict(x: Reception, fileOpen: bool, rd: Data)
    requires x.Valid() && |rd| < BUF_SZ
    ensures var y := GetRest(x, fileOpen, rd);
            var numbered := |rd| == 132 && rd[1] == 255 - rd[0];
            var next := numbered && rd[0] == (x.numLastGoodBlk + 1) % 256;
            var again := numbered && fileOpen && rd[0] == x.numLastGoodBlk;
            && (y.syncLoss <==> x.syncLoss || (numbered && !next && !again))
            && (y.goodBlk <==> (next || again) && rd[130..] == CrcBytes(rd[2..130]))
            && (y.goodBlk1st <==> next && y.goodBlk)
            && y.numLastGoodBlk == (if y.goodBlk1st then rd[0] else x.numLastGoodBlk)
            && (|rd| == 132 ==> y.Payload() == rd[2..130])
  {
    hide CrcBytes;
    var r := Stored(x.rcvBlk, rd);
    if |rd| == 132 {
      assert r[1] == rd[0] && r[2] == rd[1];
      assert r[3..131] == rd[2..130] && r[131..133] == rd[130..];
    }
  }

  /** A delivery that `getRestBlk` rejects without giving up the session. */
  ghost predicate Rejected(x: Reception, fileOpen: bool, rd: Data)
    requires x.Valid() && |rd| < BUF_SZ
  {
    var y := GetRest(x, fileOpen, rd);
    !y.goodBlk && y.syncLoss == x.syncLoss
  }

  /** Name and size as `openFileForTransfer` takes them from the receive buffer. */
  function StatName(rcvBlk: Data): Data
    requires |rcvBlk| == BUF_SZ
  {
    CString(rcvBlk[DATA_POS..])
  }

  function StatSize(rcvBlk: Data): Option<int>
    requires |rcvBlk| == BUF_SZ
  {
    var at := DATA_POS + |StatName(rcvBlk)| + 1;
    if at <= |rcvBlk| then Stoi(CString(rcvBlk[at..])) else None
  }

  // ---------------------------------------------------- well-built blocks

  lemma FrameParts(x: Reception, num: byte, payload: Data)
    requires x.Valid() && |payload| == CHUNK_SZ
    ensures var r := Stored(x.rcvBlk, Frame(num, payload)[1..]);
            r[1] == num && r[2] == Complement(num) && r[DATA_POS..PAST_CHUNK] == payload && CrcMatches(r)
  {
  }

  /** An undamaged block is accepted when it is the next one, or the last one again while a file is open;
      with any other number it ends the session. */
  lemma IntactBlock(x: Reception, fileOpen: bool, num: byte, payload: Data)
    requires x.Valid() && |payload| == CHUNK_SZ
    ensures var y := GetRest(x, fileOpen, Frame(num, payload)[1..]);
            && y.Payload() == payload
            && (num == Succ(x.numLastGoodBlk) ==>
                  y.goodBlk && y.goodBlk1st && y.numLastGoodBlk == num && y.syncLoss == x.syncLoss)
            && (num != Succ(x.numLastGoodBlk) && fileOpen && num == x.numLastGoodBlk ==>
                  y.goodBlk && !y.goodBlk1st && y.numLastGoodBlk == num && y.syncLoss == x.syncLoss)
            && (num != Succ(x.numLastGoodBlk) && !(fileOpen && num == x.numLastGoodBlk) ==>
                  !y.goodBlk && !y.goodBlk1st && y.numLastGoodBlk == x.numLastGoodBlk && y.syncLoss)
  {
    FrameParts(x, num, payload);
  }

  // ------------------------------------------------- damaged blocks

  lemma {:induction false} DataBitsAt(s: Data, k: nat, j: nat)
    requires k < |s| && j < 8
    ensures 8 * k + j < |DataBits(s)| && DataBits(s)[8 * k + j] == ByteBits(s[k])[j]
  {
    if k < |s| - 1 {
      DataBitsAt(s[..|s| - 1], k, j);
    }
  }

  lemma ComplementedByteIsBurst(s: Data, i: nat)
    requires i < |s|
    ensures var t := s[i := Complement(s[i])];
            IsBurst(Xor(DataBits(s), DataBits(t)), 8 * i, 8)
  {
    hide DataBits, ByteBits, Complement;
    var t := s[i := Complement(s[i])];
    var e := Xor(DataBits(s), DataBits(t));
    forall n | 0 <= n < |e| && !(8 * i <= n < 8 * i + 8) ensures !e[n] {
      OtherBits(s, t, i, n);
    }
    LastBitFlips(s[i]);
    DataBitsAt(s, i, 7);
    DataBitsAt(t, i, 7);
    assert e[8 * i + 7];
  }

  lemma OtherBits(s: Data, t: Data, i: nat, n: nat)
    requires i < |s| == |t| && t == s[i := t[i]] && n < 8 * |s| && !(8 * i <= n < 8 * i + 8)
    ensures DataBits(s)[n] == DataBits(t)[n]
  {
    hide DataBits, ByteBits;
    var k, j := n / 8, n % 8;
    assert n == 8 * k + j;
    DataBitsAt(s, k, j);
    DataBitsAt(t, k, j);
  }

  lemma LastBitFlips(b: byte)
    ensures ByteBits(b)[7] != ByteBits(Complement(b))[7]
  {
    assert ByteBits(b)[7] == (b % 2 == 1);
    assert ByteBits(Complement(b))[7] == ((255 - b) % 2 == 1);
  }

  /** A complemented byte changes the CRC of a payload. */
  lemma ComplementChangesCrc(payload: Data, i: nat)
    requires i < |payload|
    ensures CrcBytes(payload[i := Complement(payload[i])]) != CrcBytes(payload)
  {
    var damaged := payload[i := Complement(payload[i])];
    var crc := CrcBytes(payload);
    var s := payload + crc;
    assert s[i := Complement(s[i])] == damaged + crc;
    ComplementedByteIsBurst(s, i);
    BurstIsDetected(s, damaged + crc, 8 * i, 8);
    StoredCrcClearsRegister(payload);
    StoredCrcClearsRegister(damaged);
  }

  /** Complementing any one of the 132 bytes behind the start byte makes an acceptable block rejected,
      and leaves the receiver in step. */
  lemma ComplementedByteIsRejected(x: Reception, fileOpen: bool, num: byte, payload: Data, i: nat)
    requires x.Valid() && |payload| == CHUNK_SZ && i < REST_BLK_SZ
    requires num == Succ(x.numLastGoodBlk) || (fileOpen && num == x.numLastGoodBlk)
    ensures var rest := Frame(num, payload)[1..];
            var y := GetRest(x, fileOpen, rest[i := Complement(rest[i])]);
            && GetRest(x, fileOpen, rest).goodBlk
            && !y.goodBlk && !y.goodBlk1st
            && y.numLastGoodBlk == x.numLastGoodBlk && y.syncLoss == x.syncLoss
  {
    hide Frame, CrcMatches, Stored, GetRest;
    IntactBlock(x, fileOpen, num, payload);
    FrameParts(x, num, payload);
    var rest := Frame(num, payload)[1..];
    var r := Stored(x.rcvBlk, rest);
    var damaged := rest[i := Complement(rest[i])];
    StoredDamage(x.rcvBlk, rest, i);
    DamagedCrc(r, Stored(x.rcvBlk, damaged), payload, i);
    RejectedRest(x, fileOpen, damaged, Stored(x.rcvBlk, damaged));
  }

  lemma StoredDamage(buf: Data, rest: Data, i: nat)
    requires |buf| == BUF_SZ && |rest| == REST_BLK_SZ && i < REST_BLK_SZ
    ensures Stored(buf, rest[i := Complement(rest[i])])
         == Stored(buf, rest)[1 + i := Complement(Stored(buf, rest)[1 + i])]
  {
  }

  lemma RejectedRest(x: Reception, fileOpen: bool, rd: Data, r: Data)
    requires x.Valid() && |rd| == REST_BLK_SZ && r == Stored(x.rcvBlk, rd)
    requires r[2] != Complement(r[1])
             || ((r[1] == Succ(x.numLastGoodBlk) || (fileOpen && r[1] == x.numLastGoodBlk)) && !CrcMatches(r))
    ensures var y := GetRest(x, fileOpen, rd);
            !y.goodBlk && !y.goodBlk1st && y.numLastGoodBlk == x.numLastGoodBlk && y.syncLoss == x.syncLoss
  {
    hide CrcMatches, Stored;
  }

  /** Behind the two bytes of the number, a complemented byte makes the CRC wrong. */
  lemma DamagedCrc(r: Data, r': Data, payload: Data, i: nat)
    requires |r| == |r'| == BUF_SZ && |payload| == CHUNK_SZ && i < REST_BLK_SZ
    requires r[DATA_POS..PAST_CHUNK] == payload && CrcMatches(r)
    requires r' == r[1 + i := Complement(r[1 + i])]
    ensures i >= 2 ==> !CrcMatches(r')
  {
    if 2 <= i < 130 {
      ComplementChangesCrc(payload, i - 2);
      assert r'[DATA_POS..PAST_CHUNK] == payload[i - 2 := Complement(payload[i - 2])];
      assert r'[PAST_CHUNK..BLK_SZ] == r[PAST_CHUNK..BLK_SZ];
    } else if i >= 130 {
      assert r'[DATA_POS..PAST_CHUNK] == payload;
      assert r'[PAST_CHUNK..BLK_SZ][i - 130] != r[PAST_CHUNK..BLK_SZ][i - 130];
    }
  }

  // -------------------------------------------------------- stat blocks

  /** The bytes of a path's last component: not empty, no zero byte in it. */
  predicate IsBaseName(name: Data)
  {
    |name| > 0 && forall i :: 0 <= i < |name| ==> name[i] != 0
  }

  /** Reading a stat block gives back the name, and the size exactly when it fits an int. */
  lemma StatRoundTrip(rcvBlk: Data, name: Data, size: nat)
    requires |rcvBlk| == BUF_SZ && IsBaseName(name) && StatFits(name, size)
    requires rcvBlk[DATA_POS..PAST_CHUNK] == StatPayload(name, size)
    ensures StatName(rcvBlk) == name
    ensures StatSize(rcvBlk) == if size <= INT_MAX then Some(size) else None
    ensures rcvBlk[DATA_POS] != 0
  {
    var d := Decimal(size);
    var tail := rcvBlk[PAST_CHUNK..];
    var zeros := Fill(CHUNK_SZ - |name| - 1 - |d|, 0);
    var after := zeros + tail;
    assert rcvBlk[DATA_POS..] == StatPayload(name, size) + tail;
    assert StatPayload(name, size) + tail == name + ([0] + (d + after));
    CStringOfText(name, [0] + (d + after));
    assert rcvBlk[DATA_POS..][|name| + 1..] == d + after;
    assert rcvBlk[DATA_POS + |name| + 1..] == d + after;
    assert forall i :: 0 <= i < |d| ==> IsDigit(d[i]);
    CStringOfText(d, after);
    StoiOfDecimal(size);
  }

  /** Only the empty stat block tells the receiver that there is no other file. */
  lemma EmptyStatEndsSession(name: Data, size: nat)
    requires IsBaseName(name) && StatFits(name, size)
    ensures Fill(CHUNK_SZ, 0)[0] == 0 && StatPayload(name, size)[0] != 0
    ensures EmptyStatBlk() != StatBlk(name, size)
  {
    assert StatBlk(name, size)[DATA_POS] == name[0];
    assert EmptyStatBlk()[DATA_POS] == 0;
  }

  // ---------------------------------------------------------- chunking

  /** What is on disk after the first `k` data blocks. */
  function WrittenAfter(content: Data, k: nat): Data
  {
    content[..EndOf(content, k)]
  }

  lemma CountIsEnough(content: Data, k: nat)
    ensures k >= BlockCount(content) <==> CHUNK_SZ * k >= |content|
  {
  }

  /** Writing the valid part of block `k` behind the blocks before it. */
  lemma NextChunk(content: Data, k: nat)
    requires 0 < k <= BlockCount(content)
    ensures var size := Min(CHUNK_SZ, |content| - CHUNK_SZ * (k - 1));
            && size > 0
            && WrittenAfter(content, k) == WrittenAfter(content, k - 1) + PadChunk(ChunkOf(content, k))[..size]
  {
    CountIsEnough(content, k - 1);
  }
}
