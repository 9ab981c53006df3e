/** The medium between the peers (Medium.cpp of Part 6), which damages, drops and adds bytes at fixed places of the
    streams that it forwards. */
module Medium {
  import opened Bytes

  const CORRUPT_FIRST_BYTE: nat := 264
  const CORRUPT_BYTE: nat := 790
  const DROP_FIRST_BYTE: nat := 659
  const DROP_BYTE: nat := 790
  const GLITCH_BYTES: nat := 35
  const READ_SZ: nat := 70
  const MEDIUM_BUF_SZ: nat := 160

  // how often bytes from the receiver are replaced, dropped, preceded by a glitch, and followed by an ACK
  const T1_CORRUPT_BYTE: nat := 6
  const T1_DROP_BYTE: nat := 7
  const T1_GLITCH_BYTE: nat := 4
  const T1_SEND_GLITCH_ACK: nat := 50

  // ------------------------------------------------ places in the stream

  /** Whether byte number `p` of the sender's stream, counted from 1, is complemented. */
  predicate IsCorrupted(p: nat)
  {
    p >= CORRUPT_FIRST_BYTE && (p - CORRUPT_FIRST_BYTE) % CORRUPT_BYTE == 0
  }

  predicate IsDropped(p: nat)
  {
    p >= DROP_FIRST_BYTE && (p - DROP_FIRST_BYTE) % DROP_BYTE == 0
  }

  /** The sender's stream as it should come out: some bytes complemented, some gone. */
  function Damaged(s: Data): Data
  {
    if s == [] then []
    else
      var last := s[|s| - 1];
      Damaged(s[..|s| - 1])
      + (if IsDropped(|s|) then [] else if IsCorrupted(|s|) then [Complement(last)] else [last])
  }

  /** How many places below or at `count` have been passed, and so where the next one is. */
  function Passed(count: nat, first: nat, every: nat): nat
    requires every > 0
  {
    if count < first then 0 else (count - first) / every + 1
  }

  // ---------------------------------------------------- one read's worth

  /** The counters of the direction from the sender. */
  datatype Counters = Counters(byteCount: nat, corruptThreshold: nat, dropThreshold: nat, glitch: bool)

  function Initial(): Counters
  {
    Counters(0, CORRUPT_FIRST_BYTE, DROP_FIRST_BYTE, false)
  }

  /** What a read forwards: the bytes of the stream, and how many glitch bytes behind them. */
  datatype Forwarded = Forwarded(c: Counters, bytes: Data, glitches: nat)

  predicate HitsCorrupt(c: Counters, chunk: Data)
  {
    c.byteCount + |chunk| >= c.corruptThreshold
  }

  predicate HitsDrop(c: Counters, chunk: Data)
  {
    c.byteCount + |chunk| >= c.dropThreshold
  }

  /** A read brings 1 to 70 bytes. */
  predicate IsRead(chunk: Data)
  {
    0 < |chunk| <= READ_SZ
  }

  /** A read of a single byte that is to be dropped leaves nothing to forward, and the code is not ready for that. */
  predicate LeavesNothing(c: Counters, chunk: Data)
  {
    |chunk| == 1 && HitsDrop(c, chunk)
  }

  /** Reads that leave something to forward. */
  predicate Readable(c: Counters, chunk: Data)
  {
    IsRead(chunk) && !LeavesNothing(c, chunk)
  }

  function CorruptIndex(c: Counters, chunk: Data): int
  {
    |chunk| - 1 - (c.byteCount + |chunk| - c.corruptThreshold)
  }

  function DropIndex(c: Counters, chunk: Data): int
  {
    |chunk| - 1 - (c.byteCount + |chunk| - c.dropThreshold)
  }

  /** The thresholds are the next places, and so lie above the count. */
  ghost predicate Ahead(c: Counters)
  {
    && c.byteCount < c.corruptThreshold && c.byteCount < c.dropThreshold
    && c.corruptThreshold == CORRUPT_FIRST_BYTE + CORRUPT_BYTE * Passed(c.byteCount, CORRUPT_FIRST_BYTE, CORRUPT_BYTE)
    && c.dropThreshold == DROP_FIRST_BYTE + DROP_BYTE * Passed(c.byteCount, DROP_FIRST_BYTE, DROP_BYTE)
  }

  /** The counters behind a read. */
  function Counted(c: Counters, chunk: Data): Counters
  {
    Counters(c.byteCount + |chunk|,
             if HitsCorrupt(c, chunk) then c.corruptThreshold + CORRUPT_BYTE else c.corruptThreshold,
             if HitsDrop(c, chunk) then c.dropThreshold + DROP_BYTE else c.dropThreshold,
             c.glitch != HitsCorrupt(c, chunk))
  }

  /** A read with the byte that is due complemented. */
  function CorruptedRead(c: Counters, chunk: Data): (r: Data)
    requires HitsCorrupt(c, chunk) ==> 0 <= CorruptIndex(c, chunk) < |chunk|
    ensures |r| == |chunk|
  {
    if HitsCorrupt(c, chunk) then chunk[CorruptIndex(c, chunk) := Complement(chunk[CorruptIndex(c, chunk)])] else chunk
  }

  function Forward(c: Counters, chunk: Data): Forwarded
    requires Ahead(c) && Readable(c, chunk)
  {
    var corrupted := CorruptedRead(c, chunk);
    var kept := if HitsDrop(c, chunk) then corrupted[..DropIndex(c, chunk)] + corrupted[DropIndex(c, chunk) + 1..]
                else corrupted;
    Forwarded(Counted(c, chunk), kept, if HitsCorrupt(c, chunk) && c.glitch then GLITCH_BYTES else 0)
  }

  // ------------------------------------------------------ reads of any size

  lemma PassedNext(count: nat, n: nat, first: nat, every: nat)
    requires 0 < n <= every
    ensures var k := Passed(count, first, every);
            && Passed(count + n, first, every) == (if count + n >= first + every * k then k + 1 else k)
            && count < first + every * k
  {
    var k := Passed(count, first, every);
    if count >= first {
      var q, r := (count - first) / every, (count - first) % every;
      assert count - first == every * q + r;
      if r + n < every {
        QuotientIs(count + n - first, every, q, r + n);
      } else {
        QuotientIs(count + n - first, every, q + 1, r + n - every);
      }
      assert every * k == every * q + every;
    } else if count + n >= first {
      QuotientIs(count + n - first, every, if count + n - first == every then 1 else 0,
                 if count + n - first == every then 0 else count + n - first);
    }
  }

  lemma QuotientIs(x: nat, d: nat, q: nat, r: nat)
    requires d > 0 && r < d && x == d * q + r
    ensures x / d == q && x % d == r
  {
    var p := x / d;
    assert x == d * p + x % d;
    Gap(d, p, q);
    Gap(d, q, p);
  }

  lemma {:induction false} Gap(d: nat, a: nat, b: nat)
    ensures a < b ==> d * a + d <= d * b
  {
    if a + 1 < b {
      Gap(d, a, b - 1);
      assert d * b == d * (b - 1) + d;
    }
  }

  lemma ZeroRemainder(d: nat, k: nat, e: int)
    requires 0 - d < e < d && d * k + e >= 0
    ensures (d * k + e) % d == 0 <==> e == 0
  {
    if e >= 0 {
      QuotientIs(d * k + e, d, k, e);
    } else {
      assert k > 0;
      assert d * k == d * (k - 1) + d;
      QuotientIs(d * k + e, d, k - 1, e + d);
    }
  }

  /** Both thresholds stay above the count. */
  lemma StaysAhead(c: Counters, chunk: Data)
    requires Ahead(c) && IsRead(chunk)
    ensures Ahead(Counted(c, chunk))
    ensures HitsCorrupt(c, chunk) ==> 0 <= CorruptIndex(c, chunk) < |chunk|
    ensures HitsDrop(c, chunk) ==> 0 <= DropIndex(c, chunk) < |chunk|
    ensures !(HitsCorrupt(c, chunk) && HitsDrop(c, chunk))
  {
    PassedNext(c.byteCount, |chunk|, CORRUPT_FIRST_BYTE, CORRUPT_BYTE);
    PassedNext(c.byteCount, |chunk|, DROP_FIRST_BYTE, DROP_BYTE);
    PlacesAreApart(c);
  }

  lemma AheadOfCount(c: Counters)
    requires Ahead(c)
    ensures c.byteCount < c.corruptThreshold && c.byteCount < c.dropThreshold
  {
  }

  /** The next place to complement and the next one to drop are 395 bytes apart. */
  lemma PlacesAreApart(c: Counters)
    requires Ahead(c)
    ensures c.corruptThreshold >= c.dropThreshold + 395 || c.dropThreshold >= c.corruptThreshold + 395
  {
    var i: int := Passed(c.byteCount, CORRUPT_FIRST_BYTE, CORRUPT_BYTE);
    var j: int := Passed(c.byteCount, DROP_FIRST_BYTE, DROP_BYTE);
    assert c.dropThreshold - c.corruptThreshold == 395 + 790 * (j - i);
  }

  /** Which bytes of a read are the places, in terms of the whole stream. */
  lemma PlacesInRead(c: Counters, chunk: Data, k: nat)
    requires Ahead(c) && Readable(c, chunk) && k < |chunk|
    ensures IsCorrupted(c.byteCount + k + 1) <==> HitsCorrupt(c, chunk) && k == CorruptIndex(c, chunk)
    ensures IsDropped(c.byteCount + k + 1) <==> HitsDrop(c, chunk) && k == DropIndex(c, chunk)
  {
    PlaceIsNext(c.byteCount, k + 1, CORRUPT_FIRST_BYTE, CORRUPT_BYTE);
    PlaceIsNext(c.byteCount, k + 1, DROP_FIRST_BYTE, DROP_BYTE);
  }

  lemma PlaceIsNext(count: nat, n: nat, first: nat, every: nat)
    requires 0 < n < every
    ensures (count + n >= first && (count + n - first) % every == 0)
            <==> count + n == first + every * Passed(count, first, every)
  {
    PassedNext(count, n, first, every);
    var k := Passed(count, first, every);
    if count + n >= first {
      var e := count + n - first - every * k;
      if count >= first {
        assert count - first == every * ((count - first) / every) + (count - first) % every;
        assert every * k == every * ((count - first) / every) + every;
      }
      ZeroRemainder(every, k, e);
    }
  }

  // ------------------------------------------------- the whole stream

  /** The bytes of one read come out as the stream says, whatever came before. */
  lemma {:induction false} DamagedAppend(s: Data, c: Counters, chunk: Data, k: nat)
    requires Ahead(c) && Readable(c, chunk) && c.byteCount == |s| && k <= |chunk|
    requires HitsCorrupt(c, chunk) ==> 0 <= CorruptIndex(c, chunk) < |chunk|
    requires HitsDrop(c, chunk) ==> 0 <= DropIndex(c, chunk) < |chunk|
    ensures Damaged(s + chunk[..k]) == Damaged(s) + KeptOf(c, chunk, k)
  {
    if k == 0 {
      assert s + chunk[..0] == s;
    } else {
      DamagedAppend(s, c, chunk, k - 1);
      PlacesInRead(c, chunk, k - 1);
      assert (s + chunk[..k])[..|s| + k - 1] == s + chunk[..k - 1];
    }
  }

  /** What comes out for the first `k` bytes of a read. */
  function KeptOf(c: Counters, chunk: Data, k: nat): Data
    requires k <= |chunk|
  {
    if k == 0 then []
    else
      KeptOf(c, chunk, k - 1)
      + (if HitsDrop(c, chunk) && k - 1 == DropIndex(c, chunk) then []
         else if HitsCorrupt(c, chunk) && k - 1 == CorruptIndex(c, chunk) then [Complement(chunk[k - 1])]
         else [chunk[k - 1]])
  }

  lemma NextKept(c: Counters, chunk: Data, k: nat)
    requires 0 < k <= |chunk| && !(HitsCorrupt(c, chunk) && HitsDrop(c, chunk))
    requires HitsCorrupt(c, chunk) ==> 0 <= CorruptIndex(c, chunk) < |chunk|
    ensures KeptOf(c, chunk, k)
         == KeptOf(c, chunk, k - 1)
            + if HitsDrop(c, chunk) && k - 1 == DropIndex(c, chunk) then [] else [CorruptedRead(c, chunk)[k - 1]]
  {
    hide HitsCorrupt, HitsDrop, CorruptIndex, DropIndex, Complement;
  }

  lemma NothingKept(c: Counters, chunk: Data)
    ensures KeptOf(c, chunk, 0) == []
  {
  }

  lemma {:induction false} KeptIsForwarded(c: Counters, chunk: Data, k: nat)
    requires k <= |chunk| && !(HitsCorrupt(c, chunk) && HitsDrop(c, chunk))
    requires HitsCorrupt(c, chunk) ==> 0 <= CorruptIndex(c, chunk) < |chunk|
    requires HitsDrop(c, chunk) ==> 0 <= DropIndex(c, chunk) < |chunk|
    ensures var all := CorruptedRead(c, chunk);
            KeptOf(c, chunk, k) == if HitsDrop(c, chunk) && DropIndex(c, chunk) < k
                                   then all[..DropIndex(c, chunk)] + all[DropIndex(c, chunk) + 1..k] else all[..k]
  {
    hide KeptOf, CorruptedRead, HitsCorrupt, HitsDrop, CorruptIndex, DropIndex;
    if k == 0 {
      NothingKept(c, chunk);
    } else {
      KeptIsForwarded(c, chunk, k - 1);
      NextKept(c, chunk, k);
      var all := CorruptedRead(c, chunk);
      assert all[..k] == all[..k - 1] + [all[k - 1]];
      if HitsDrop(c, chunk) && DropIndex(c, chunk) < k {
        LaterKept(all, DropIndex(c, chunk), k);
      }
    }
  }

  lemma LaterKept(all: Data, d: nat, k: nat)
    requires d < k <= |all|
    ensures d == k - 1 ==> all[..d] + all[d + 1..k] == all[..k - 1]
    ensures d < k - 1 ==> all[..d] + all[d + 1..k] == all[..d] + all[d + 1..k - 1] + [all[k - 1]]
  {
    if d < k - 1 {
      assert all[d + 1..k] == all[d + 1..k - 1] + [all[k - 1]];
    }
  }

  lemma ForwardIsDamaged(s: Data, c: Counters, chunk: Data)
    requires Ahead(c) && Readable(c, chunk) && c.byteCount == |s|
    ensures Damaged(s + chunk) == Damaged(s) + Forward(c, chunk).bytes
  {
    StaysAhead(c, chunk);
    DamagedAppend(s, c, chunk, |chunk|);
    KeptIsForwarded(c, chunk, |chunk|);
    assert chunk[..|chunk|] == chunk;
  }

  /** A stream as a sequence of reads. */
  function Joined(chunks: seq<Data>): Data
  {
    if chunks == [] then [] else Joined(chunks[..|chunks| - 1]) + chunks[|chunks| - 1]
  }

  /** The counters after some reads, what has been forwarded without the glitch bytes, and how many of those. */
  function RelayAll(chunks: seq<Data>): (f: Forwarded)
    ensures Ahead(f.c)
  {
    if chunks == [] then Forwarded(Initial(), [], 0)
    else
      var chunk := chunks[|chunks| - 1];
      var before := RelayAll(chunks[..|chunks| - 1]);
      if Readable(before.c, chunk) then
        StaysAhead(before.c, chunk);
        var f := Forward(before.c, chunk);
        Forwarded(f.c, before.bytes + f.bytes, before.glitches + f.glitches)
      else before
  }

  predicate AllReadable(chunks: seq<Data>)
  {
    chunks != [] ==>
      var n := |chunks| - 1;
      AllReadable(chunks[..n]) && Readable(RelayAll(chunks[..n]).c, chunks[n])
  }

  /** However the stream is split into reads, the thresholds stay above the count after each of them, and what is
      forwarded apart from the glitch bytes is the input with exactly its bytes 264, 1054, 1844, ... complemented
      and its bytes 659, 1449, 2239, ... gone. */
  lemma {:induction false} FaultsDoNotDependOnChunking(chunks: seq<Data>)
    requires AllReadable(chunks)
    ensures var f := RelayAll(chunks);
            && f.c.byteCount < f.c.corruptThreshold && f.c.byteCount < f.c.dropThreshold
            && f.c.byteCount == |Joined(chunks)| && f.bytes == Damaged(Joined(chunks))
  {
    if chunks != [] {
      var n := |chunks| - 1;
      var before := RelayAll(chunks[..n]);
      FaultsDoNotDependOnChunking(chunks[..n]);
      ForwardIsDamaged(Joined(chunks[..n]), before.c, chunks[n]);
      hide Forward, Damaged;
    }
  }

  lemma DropsCounted(count: nat)
    ensures Passed(0, 659, 790) == 0
    ensures Passed(count + 1, 659, 790) == Passed(count, 659, 790) + if IsDropped(count + 1) then 1 else 0
  {
    PassedNext(count, 1, DROP_FIRST_BYTE, DROP_BYTE);
    PlaceIsNext(count, 1, DROP_FIRST_BYTE, DROP_BYTE);
  }

  lemma {:induction false} DamagedSize(s: Data)
    ensures |Damaged(s)| == |s| - Passed(|s|, 659, 790)
  {
    hide Passed, IsDropped, IsCorrupted;
    DropsCounted(if s == [] then 0 else |s| - 1);
    if s != [] {
      DamagedSize(s[..|s| - 1]);
    }
  }

  /** Byte `p` of a stream, counted from 1, comes out with as many places before it less as bytes have been dropped by
      then: complemented if `p` is 264, 1054, 1844, ..., not at all if it is 659, 1449, 2239, ..., and otherwise as it was. */
  lemma {:induction false} DamagedBytes(s: Data, p: nat)
    requires 0 < p <= |s| && !(p >= 659 && (p - 659) % 790 == 0)
    ensures var at := p - 1 - Passed(p, 659, 790);
            && 0 <= at < |Damaged(s)|
            && Damaged(s)[at] == if p >= 264 && (p - 264) % 790 == 0 then 255 - s[p - 1] else s[p - 1]
  {
    var n := |s| - 1;
    assert !IsDropped(p) && (IsCorrupted(p) <==> p >= 264 && (p - 264) % 790 == 0);
    hide Passed, IsDropped, IsCorrupted;
    DropsCounted(n);
    DamagedSize(s);
    DamagedSize(s[..n]);
    if p <= n {
      DamagedBytes(s[..n], p);
    }
  }

  /** A read leaves nothing to forward exactly when it is a single byte that is to be dropped. */
  lemma LostReads(c: Counters, chunk: Data)
    requires Ahead(c) && IsRead(chunk)
    ensures LeavesNothing(c, chunk) <==>
              |chunk| == 1 && c.byteCount + 1 >= 659 && (c.byteCount + 1 - 659) % 790 == 0
  {
    if |chunk| == 1 {
      PlaceIsNext(c.byteCount, 1, DROP_FIRST_BYTE, DROP_BYTE);
    }
  }

  /** Two ways to split the same stream come to the same. */
  lemma SameStreamSameFaults(chunks: seq<Data>, others: seq<Data>)
    requires AllReadable(chunks) && AllReadable(others) && Joined(chunks) == Joined(others)
    ensures RelayAll(chunks).bytes == RelayAll(others).bytes
  {
    FaultsDoNotDependOnChunking(chunks);
    FaultsDoNotDependOnChunking(others);
  }

  /** One more place is passed exactly at the places. */
  lemma PassedCounts(count: nat)
    ensures Passed(0, 264, 790) == 0
    ensures Passed(count + 1, 264, 790) == Passed(count, 264, 790) + if IsCorrupted(count + 1) then 1 else 0
  {
    PassedNext(count, 1, CORRUPT_FIRST_BYTE, CORRUPT_BYTE);
    PlaceIsNext(count, 1, CORRUPT_FIRST_BYTE, CORRUPT_BYTE);
  }

  /** How many glitch bytes there are behind `n` complemented bytes, and whether the next one has them. */
  function GlitchesBehind(n: nat): nat
  {
    35 * (n / 2)
  }

  predicate Odd(n: nat)
  {
    n % 2 == 1
  }

  /** A read that holds a place turns the flag over, and has glitch bytes behind it if the flag was set. */
  lemma GlitchesOfRead(c: Counters, chunk: Data)
    requires Ahead(c) && Readable(c, chunk)
    requires c.glitch <==> Odd(Passed(c.byteCount, 264, 790))
    ensures var before, after := Passed(c.byteCount, 264, 790), Passed(c.byteCount + |chunk|, 264, 790);
            && GlitchesBehind(after) == GlitchesBehind(before) + Forward(c, chunk).glitches
            && (Counted(c, chunk).glitch <==> Odd(after))
  {
    PassedNext(c.byteCount, |chunk|, CORRUPT_FIRST_BYTE, CORRUPT_BYTE);
    hide Passed;
  }

  lemma LastRead(chunks: seq<Data>)
    requires chunks != [] && AllReadable(chunks)
    ensures var n := |chunks| - 1;
            var before := RelayAll(chunks[..n]);
            && AllReadable(chunks[..n]) && Readable(before.c, chunks[n])
            && |Joined(chunks)| == |Joined(chunks[..n])| + |chunks[n]|
            && RelayAll(chunks).c == Counted(before.c, chunks[n])
            && RelayAll(chunks).glitches == before.glitches + Forward(before.c, chunks[n]).glitches
  {
    ForwardedCounters(RelayAll(chunks[..|chunks| - 1]).c, chunks[|chunks| - 1]);
    hide Forward, Counted;
  }

  lemma NothingRead()
    ensures |Joined([])| == 0 && RelayAll([]).glitches == 0 && !RelayAll([]).c.glitch
    ensures GlitchesBehind(Passed(0, 264, 790)) == 0 && !Odd(Passed(0, 264, 790))
  {
  }

  lemma {:induction false} GlitchesCounted(chunks: seq<Data>)
    requires AllReadable(chunks)
    ensures var f := RelayAll(chunks);
            var corrupted := Passed(|Joined(chunks)|, 264, 790);
            f.glitches == GlitchesBehind(corrupted) && (f.c.glitch <==> Odd(corrupted))
  {
    hide *;
    if chunks == [] {
      NothingRead();
    } else {
      var n := |chunks| - 1;
      LastRead(chunks);
      GlitchesCounted(chunks[..n]);
      FaultsDoNotDependOnChunking(chunks[..n]);
      GlitchesOfRead(RelayAll(chunks[..n]).c, chunks[n]);
    }
  }

  /** Glitch bytes go out behind every second one of the complemented bytes, so that their number does not depend on how
      the stream is split into reads either. */
  lemma GlitchesOfStream(chunks: seq<Data>)
    requires AllReadable(chunks)
    ensures var f := RelayAll(chunks);
            var corrupted := Passed(|Joined(chunks)|, 264, 790);
            && f.glitches == 35 * (corrupted / 2)
            && (f.c.glitch <==> corrupted % 2 == 1)
  {
    hide RelayAll, Joined, AllReadable, Passed;
    GlitchesCounted(chunks);
  }

  /** Four reads of 70 bytes: the fourth one holds byte 264, which is complemented, and no glitch byte follows it. */
  lemma NoGlitchAtFirst(a: Data, b: Data, c: Data, d: Data)
    requires |a| == |b| == |c| == |d| == 70
    ensures AllReadable([a, b, c, d]) && RelayAll([a, b, c, d]).glitches == 0
    ensures RelayAll([a, b, c, d]).bytes == a + b + c + d[53 := Complement(d[53])]
  {
    assert [a][..0] == [] && [a, b][..1] == [a] && [a, b, c][..2] == [a, b] && [a, b, c, d][..3] == [a, b, c];
    assert AllReadable([]) && RelayAll([]) == Forwarded(Counters(0, 264, 659, false), [], 0);
    assert AllReadable([a]) && RelayAll([a]) == Forwarded(Counters(70, 264, 659, false), a, 0);
    assert AllReadable([a, b]) && RelayAll([a, b]) == Forwarded(Counters(140, 264, 659, false), a + b, 0);
    assert AllReadable([a, b, c]) && RelayAll([a, b, c]) == Forwarded(Counters(210, 264, 659, false), a + b + c, 0);
  }

  /** Bytes that are complemented or dropped are at least 395 apart, so no block of 133 bytes meets two of them. */
  lemma FaultsAreFarApart(p: nat, q: nat)
    requires (IsCorrupted(p) || IsDropped(p)) && (IsCorrupted(q) || IsDropped(q)) && p < q
    ensures q - p >= 395
  {
    FaultPlace(p);
    FaultPlace(q);
    Gap(395, (p - 264) / 395, (q - 264) / 395);
  }

  lemma FaultPlace(p: nat)
    requires IsCorrupted(p) || IsDropped(p)
    ensures p >= 264 && p - 264 == 395 * ((p - 264) / 395)
  {
    if IsCorrupted(p) {
      var k := (p - CORRUPT_FIRST_BYTE) / CORRUPT_BYTE;
      QuotientIs(p - 264, 395, 2 * k, 0);
    } else {
      var k := (p - DROP_FIRST_BYTE) / DROP_BYTE;
      QuotientIs(p - 264, 395, 2 * k + 1, 0);
    }
  }

  // ------------------------------------------------------------ the object

  /** A buffer with one byte complemented, and one with a byte taken out and the rest moved down. */
  function Complemented(buf: Data, at: nat): (r: Data)
    requires at < |buf|
    ensures |r| == |buf|
  {
    buf[at := Complement(buf[at])]
  }

  function Removed(buf: Data, at: nat): (r: Data)
    requires at < |buf|
    ensures |r| == |buf|
  {
    buf[..at] + buf[at + 1..] + [buf[|buf| - 1]]
  }

  lemma ShiftedIsRemoved(buf: Data, shifted: Data, at: nat)
    requires at < |buf| == |shifted|
    requires forall i {:trigger shifted[i]} :: 0 <= i < |buf| ==> shifted[i] == if at <= i < |buf| - 1 then buf[i + 1] else buf[i]
    ensures shifted == Removed(buf, at)
  {
    var kept := buf[..at] + buf[at + 1..];
    var last := |buf| - 1;
    assert shifted[..last] == kept;
    assert shifted == shifted[..last] + [shifted[last]];
  }

  /** What becomes of the buffer into which a read has gone. */
  function Damage(c: Counters, chunk: Data, buf: Data): (r: Data)
    requires |chunk| <= |buf|
    requires HitsCorrupt(c, chunk) ==> 0 <= CorruptIndex(c, chunk) < |chunk|
    requires HitsDrop(c, chunk) ==> 0 <= DropIndex(c, chunk) < |chunk|
    ensures |r| == |buf|
  {
    var corrupted := if HitsCorrupt(c, chunk) then Complemented(buf, CorruptIndex(c, chunk)) else buf;
    if HitsDrop(c, chunk) then Removed(corrupted, DropIndex(c, chunk)) else corrupted
  }

  function FullBuffer(chunk: Data): (r: Data)
    requires |chunk| <= MEDIUM_BUF_SZ
    ensures |r| == MEDIUM_BUF_SZ
  {
    chunk + Fill(MEDIUM_BUF_SZ - |chunk|, CAN)
  }

  /** How many bytes are to be forwarded. */
  function ToWrite(c: Counters, chunk: Data): int
  {
    |chunk| - (if HitsDrop(c, chunk) then 1 else 0) + (if HitsCorrupt(c, chunk) && c.glitch then GLITCH_BYTES else 0)
  }

  /** The part of the buffer that is forwarded; when nothing is left to forward, the buffer starts with a CAN byte. */
  lemma ForwardedPart(c: Counters, chunk: Data)
    requires Ahead(c) && IsRead(chunk)
    requires HitsCorrupt(c, chunk) ==> 0 <= CorruptIndex(c, chunk) < |chunk|
    requires HitsDrop(c, chunk) ==> 0 <= DropIndex(c, chunk) < |chunk|
    requires !(HitsCorrupt(c, chunk) && HitsDrop(c, chunk))
    ensures var buf := Damage(c, chunk, FullBuffer(chunk));
            && |buf| == MEDIUM_BUF_SZ && 0 <= ToWrite(c, chunk) <= |buf|
            && (ToWrite(c, chunk) == 0 <==> LeavesNothing(c, chunk))
            && (LeavesNothing(c, chunk) ==> buf[0] == CAN)
            && (!LeavesNothing(c, chunk) ==>
                  var f := Forward(c, chunk);
                  buf[..ToWrite(c, chunk)] == f.bytes + Fill(f.glitches, CAN))
  {
    hide Complemented, Removed, FullBuffer, Ahead;
    if HitsCorrupt(c, chunk) {
      CorruptedPart(chunk, CorruptIndex(c, chunk), if c.glitch then GLITCH_BYTES else 0);
    } else if HitsDrop(c, chunk) {
      DroppedPart(chunk, DropIndex(c, chunk));
    } else {
      WholePart(chunk);
    }
  }

  lemma WholePart(chunk: Data)
    requires |chunk| <= MEDIUM_BUF_SZ
    ensures FullBuffer(chunk)[..|chunk|] == chunk + Fill(0, CAN)
  {
  }

  lemma CorruptedPart(chunk: Data, at: nat, glitches: nat)
    requires at < |chunk| && |chunk| + glitches <= MEDIUM_BUF_SZ
    ensures Complemented(FullBuffer(chunk), at)[..|chunk| + glitches]
         == chunk[at := Complement(chunk[at])] + Fill(glitches, CAN)
  {
  }

  lemma DroppedPart(chunk: Data, at: nat)
    requires at < |chunk| < MEDIUM_BUF_SZ
    ensures Removed(FullBuffer(chunk), at)[..|chunk| - 1] == chunk[..at] + chunk[at + 1..] + Fill(0, CAN)
    ensures |chunk| == 1 ==> Removed(FullBuffer(chunk), at)[0] == CAN
  {
  }

  lemma ForwardedCounters(c: Counters, chunk: Data)
    requires Ahead(c) && IsRead(chunk)
    ensures !LeavesNothing(c, chunk) ==> Forward(c, chunk).c == Counted(c, chunk)
  {
    StaysAhead(c, chunk);
  }

  /** What a call of the medium comes to: the other side is closed, the read has been forwarded, or the program asks
      for a write of -1 bytes. */
  datatype Outcome = Closed | Sent | NothingToSend

  class Medium {
    var fromT2ByteCount: nat
    var corruptThreshold: nat
    var dropThreshold: nat
    var fromT2Glitch: bool
    var glitchCount: byte
    var fromT1ByteCount: nat
    var sentCount: nat
    var sendExtraAck: bool
    // what has been written to the two terminals
    var toTerm1: Data
    var toTerm2: Data

    function View(): Counters
      reads this
    {
      Counters(fromT2ByteCount, corruptThreshold, dropThreshold, fromT2Glitch)
    }

    constructor ()
      ensures View() == Initial() == Counters(0, 264, 659, false) && Ahead(View())
      ensures glitchCount == 0 && fromT1ByteCount == sentCount == 0 && !sendExtraAck && toTerm1 == toTerm2 == []
    {
      fromT2ByteCount, corruptThreshold, dropThreshold, fromT2Glitch := 0, CORRUPT_FIRST_BYTE, DROP_FIRST_BYTE, false;
      glitchCount, fromT1ByteCount, sentCount, sendExtraAck := 0, 0, 0, false;
      toTerm1, toTerm2 := [], [];
    }

    /** Moves the bytes from `from` on one place down. */
    method MemMoveDown(buf: array<byte>, from: nat)
      requires 0 < from <= buf.Length
      modifies buf
      ensures buf[..] == Removed(old(buf[..]), from - 1)
    {
      var i := from;
      while i < buf.Length
        invariant from <= i <= buf.Length
        invariant forall k :: 0 <= k < buf.Length ==>
                    buf[k] == if from - 1 <= k < i - 1 then old(buf[k + 1]) else old(buf[k])
      {
        buf[i - 1] := buf[i];
        i := i + 1;
      }
      ShiftedIsRemoved(old(buf[..]), buf[..], from - 1);
    }

    /** A buffer full of CAN bytes with what has been read at its start. */
    method ReadInto(chunk: Data) returns (buf: array<byte>)
      requires |chunk| <= MEDIUM_BUF_SZ
      ensures fresh(buf) && buf.Length == MEDIUM_BUF_SZ && buf[..] == FullBuffer(chunk)
    {
      buf := new byte[MEDIUM_BUF_SZ](_ => CAN);
      for i := 0 to |chunk|
        invariant buf[..] == chunk[..i] + Bytes.Fill(MEDIUM_BUF_SZ - i, CAN)
      {
        buf[i] := chunk[i];
      }
      assert chunk[..|chunk|] == chunk;
    }

    /** Complements the byte that is due, if it has been read; every other time, glitch bytes follow. */
    method CorruptDue(buf: array<byte>, n: nat) returns (glitches: nat)
      requires n <= buf.Length && fromT2ByteCount < corruptThreshold + n
      modifies this`corruptThreshold, this`fromT2Glitch, buf
      ensures var due := fromT2ByteCount >= old(corruptThreshold);
              var at := n - 1 - (fromT2ByteCount - old(corruptThreshold));
              && buf[..] == (if due then Complemented(old(buf[..]), at) else old(buf[..]))
              && corruptThreshold == (if due then old(corruptThreshold) + CORRUPT_BYTE else old(corruptThreshold))
              && fromT2Glitch == (old(fromT2Glitch) != due)
              && glitches == if due && old(fromT2Glitch) then GLITCH_BYTES else 0
    {
      glitches := 0;
      if fromT2ByteCount >= corruptThreshold {
        var byteToCorrupt := n - 1 - (fromT2ByteCount - corruptThreshold);
        buf[byteToCorrupt] := Complement(buf[byteToCorrupt]);
        corruptThreshold := corruptThreshold + CORRUPT_BYTE;
        if fromT2Glitch {
          glitches := GLITCH_BYTES;
        }
        fromT2Glitch := !fromT2Glitch;
      }
    }

    /** Takes the byte out that is due, if it has been read. */
    method DropDue(buf: array<byte>, n: nat) returns (drop: nat)
      requires n <= buf.Length && fromT2ByteCount < dropThreshold + n
      modifies this`dropThreshold, buf
      ensures var due := fromT2ByteCount >= old(dropThreshold);
              var at := n - 1 - (fromT2ByteCount - old(dropThreshold));
              && drop == (if due then 1 else 0)
              && dropThreshold == (if due then old(dropThreshold) + DROP_BYTE else old(dropThreshold))
              && buf[..] == if due then Removed(old(buf[..]), at) else old(buf[..])
    {
      hide Removed;
      drop := 0;
      if fromT2ByteCount >= dropThreshold {
        var byteToDrop := n - 1 - (fromT2ByteCount - dropThreshold);
        MemMoveDown(buf, byteToDrop + 1);
        dropThreshold := dropThreshold + DROP_BYTE;
        drop := 1;
      }
    }

    /** Takes one read into a buffer and does to it what is due; the first `n` bytes are to be forwarded. */
    method TakeRead(chunk: Data) returns (buf: array<byte>, n: nat)
      requires Ahead(View()) && IsRead(chunk)
      modifies this`fromT2ByteCount, this`corruptThreshold, this`dropThreshold, this`fromT2Glitch
      ensures fresh(buf) && buf.Length == MEDIUM_BUF_SZ
      ensures View() == Counted(old(View()), chunk)
      ensures var c := old(View());
              && (HitsCorrupt(c, chunk) ==> 0 <= CorruptIndex(c, chunk) < |chunk|)
              && (HitsDrop(c, chunk) ==> 0 <= DropIndex(c, chunk) < |chunk|)
              && buf[..] == Damage(c, chunk, FullBuffer(chunk)) && n == ToWrite(c, chunk)
    {
      hide Ahead, Complemented, Removed, FullBuffer;
      StaysAhead(View(), chunk);
      AheadOfCount(View());
      buf := ReadInto(chunk);
      fromT2ByteCount := fromT2ByteCount + |chunk|;
      var glitches := CorruptDue(buf, |chunk|);
      var drop := DropDue(buf, |chunk|);
      n := |chunk| - drop + glitches;
    }

    /** Forwards what one read from the sender's side has brought. */
    method MsgFromTerm2(chunk: Data) returns (outcome: Outcome)
      requires Ahead(View()) && |chunk| <= READ_SZ
      modifies this`fromT2ByteCount, this`corruptThreshold, this`dropThreshold, this`fromT2Glitch, this`sendExtraAck,
               this`toTerm1, this`toTerm2
      ensures Ahead(View())
      ensures outcome == Closed <==> chunk == []
      ensures outcome == Closed ==> View() == old(View()) && toTerm1 == old(toTerm1) && toTerm2 == old(toTerm2)
      ensures outcome == NothingToSend <==> chunk != [] && LeavesNothing(old(View()), chunk)
      ensures outcome == NothingToSend ==> View() == Counted(old(View()), chunk) && toTerm1 == old(toTerm1) + [CAN]
      ensures outcome == Sent ==>
                var f := Forward(old(View()), chunk);
                View() == f.c && toTerm1 == old(toTerm1) + f.bytes + Fill(f.glitches, CAN)
      ensures outcome != Closed ==>
                toTerm2 == old(toTerm2) + (if old(sendExtraAck) then [ACK] else []) && !sendExtraAck
    {
      hide Ahead, Damage, FullBuffer, Forward, Counted, ToWrite, LeavesNothing;
      ghost var c := View();
      if |chunk| == 0 {
        return Closed;
      }
      StaysAhead(c, chunk);
      var bytesReceived, fromT2bytesToWrite := TakeRead(chunk);
      ForwardedPart(c, chunk);
      ForwardedCounters(c, chunk);
      ghost var all := bytesReceived[..];
      toTerm1 := toTerm1 + bytesReceived[..1];
      if sendExtraAck {
        toTerm2 := toTerm2 + [ACK];
        sendExtraAck := false;
      }
      if fromT2bytesToWrite < 1 {
        assert bytesReceived[..1] == [all[0]];
        return NothingToSend;
      }
      toTerm1 := toTerm1 + bytesReceived[1..fromT2bytesToWrite];
      assert bytesReceived[..1] + bytesReceived[1..fromT2bytesToWrite] == all[..fromT2bytesToWrite];
      outcome := Sent;
    }

    /** Forwards, drops or replaces one byte from the receiver's side, perhaps with a glitch byte before it. */
    method MsgFromTerm1(received: seq<byte>) returns (closed: bool)
      requires |received| <= 1
      modifies this`fromT1ByteCount, this`sentCount, this`glitchCount, this`sendExtraAck, this`toTerm2
      ensures closed <==> received == []
      ensures closed ==> fromT1ByteCount == old(fromT1ByteCount) && toTerm2 == old(toTerm2)
      ensures !closed ==>
                var n := old(fromT1ByteCount) + 1;
                && fromT1ByteCount == n
                && (if n % 7 == 0 then
                      toTerm2 == old(toTerm2) && sentCount == old(sentCount) && glitchCount == old(glitchCount)
                      && sendExtraAck == old(sendExtraAck)
                    else
                      && sentCount == old(sentCount) + 1
                      && toTerm2 == old(toTerm2) + (if sentCount % 4 == 0 then [old(glitchCount)] else [])
                                    + [if n % 6 == 0 then 0x15 else received[0]]
                      && glitchCount == (if sentCount % 4 == 0 then (old(glitchCount) + 1) % 256 else old(glitchCount))
                      && sendExtraAck == (old(sendExtraAck) || n % 50 == 0))
    {
      if |received| == 0 {
        return true;
      }
      var byteReceived := received[0];
      fromT1ByteCount := fromT1ByteCount + 1;
      if fromT1ByteCount % T1_DROP_BYTE != 0 {
        sentCount := sentCount + 1;
        if sentCount % T1_GLITCH_BYTE == 0 {
          toTerm2 := toTerm2 + [glitchCount];
          glitchCount := Succ(glitchCount);
        }
        if fromT1ByteCount % T1_CORRUPT_BYTE == 0 {
          byteReceived := NAK;
        }
        if fromT1ByteCount % T1_SEND_GLITCH_ACK == 0 {
          sendExtraAck := true;
        }
        toTerm2 := toTerm2 + [byteReceived];
      }
      closed := false;
    }
  }
}
