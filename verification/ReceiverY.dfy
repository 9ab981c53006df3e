/** The receiver's object (ReceiverY.cpp): a receive buffer filled in place and flags set by its methods. */
module ReceiverY {
  import opened Bytes
  import opened Crc
  import opened Text
  import opened Blocks
  import opened Session
  import opened ReceiverContext
  import M = SenderY

  lemma PayloadPrefix(s: Data, n: nat)
    requires |s| == BUF_SZ && n <= CHUNK_SZ
    ensures s[DATA_POS..PAST_CHUNK][..n] == s[DATA_POS..DATA_POS + n]
  {
  }

  /** A block has come whole, and its number is not damaged. */
  predicate Numbered(blk: Data, n: nat)
    requires |blk| == BUF_SZ
  {
    n == REST_BLK_SZ && blk[2] == Complement(blk[1])
  }

  /** The number is the next one, or the last one of an open file. */
  predicate InStep(blk: Data, last: byte, fileOpen: bool)
    requires |blk| == BUF_SZ
  {
    blk[1] == Succ(last) || (fileOpen && blk[1] == last)
  }

  /** What `getRestBlk` makes of a block, flag by flag. */
  lemma GetRestFlags(x: Reception, fileOpen: bool, rd: Data)
    requires x.Valid() && |rd| < BUF_SZ
    ensures var y := GetRest(x, fileOpen, rd);
            var blk := Stored(x.rcvBlk, rd);
            var whole := Numbered(blk, |rd|);
            && y.rcvBlk == blk
            && y.goodBlk == (whole && InStep(blk, x.numLastGoodBlk, fileOpen) && CrcMatches(blk))
            && y.goodBlk1st == (y.goodBlk && blk[1] == Succ(x.numLastGoodBlk))
            && y.syncLoss == (x.syncLoss || (whole && !InStep(blk, x.numLastGoodBlk, fileOpen)))
            && y.numLastGoodBlk == if y.goodBlk1st then blk[1] else x.numLastGoodBlk
  {
    hide CrcMatches, Stored;
  }

  class ReceiverY {
    const host: HostOrder
    const rcvBlk: array<byte>

    var goodBlk: bool
    var goodBlk1st: bool
    var syncLoss: bool
    var numLastGoodBlk: byte
    var transferringFileD: int
    var closeProb: int
    var anotherFile: byte
    var bytesRemaining: int
    var errCnt: nat
    var kbCan: bool
    var outs: seq<OutFile>
    var result: seq<Phrase>
    // what has been written to the medium, and whether what had arrived has been discarded
    var written: Data
    var purged: bool

    ghost predicate Valid()
    {
      rcvBlk.Length == BUF_SZ
    }

    ghost function View(): Ctx
      reads this, rcvBlk
    {
      Ctx(Reception(rcvBlk[..], goodBlk, goodBlk1st, syncLoss, numLastGoodBlk), transferringFileD, closeProb,
          anotherFile, bytesRemaining, errCnt, kbCan, outs, result)
    }

    constructor (host: HostOrder)
      ensures Valid() && fresh(rcvBlk)
      ensures View() == InitialCtx() && written == [] && !purged
    {
      this.host, rcvBlk := host, new byte[BUF_SZ](_ => 0);
      goodBlk, goodBlk1st, syncLoss, numLastGoodBlk := false, false, false, 255;
      transferringFileD, closeProb, anotherFile, bytesRemaining := -1, 1, 0xFF, 0;
      errCnt, kbCan, outs, result, written, purged := 0, false, [], [], [], false;
    }

    /** Discards what arrives until the line is silent. */
    method Purge()
      modifies this`purged
      ensures purged && View() == old(View())
    {
      purged := true;
    }

    method SendByte(b: byte)
      modifies this`written
      ensures written == old(written) + [b] && View() == old(View())
    {
      written := written + [b];
    }

    method SendCans()
      modifies this`written
      ensures written == old(written) + Fill(8, CAN) && View() == old(View())
    {
      written := written + Fill(8, CAN);
    }

    /** What the medium delivers goes behind the start byte. */
    method StoreRest(rd: Data)
      requires Valid() && |rd| < BUF_SZ
      modifies rcvBlk
      ensures rcvBlk[..] == Stored(old(rcvBlk[..]), rd)
    {
      M.MemCpy(rcvBlk, 1, rd);
    }

    method CrcIsRight() returns (right: bool)
      requires Valid()
      ensures right == CrcMatches(rcvBlk[..])
    {
      hide CrcBytes;
      var crcBytes := Crc16ns(host, rcvBlk[DATA_POS..PAST_CHUNK]);
      right := rcvBlk[PAST_CHUNK..BLK_SZ] == crcBytes;
      ghost var all := rcvBlk[..];
      assert rcvBlk[PAST_CHUNK..BLK_SZ] == all[PAST_CHUNK..BLK_SZ];
    }

    /** Takes in the rest of a block, of which the medium delivers `rd`, and judges it. */
    method GetRestBlk(rd: Data)
      requires Valid() && |rd| < BUF_SZ
      modifies this`goodBlk, this`goodBlk1st, this`syncLoss, this`numLastGoodBlk, this`purged, rcvBlk
      ensures View() == ReceiverContext.GetRestBlk(old(View()), rd)
      ensures purged == (old(purged) || GetRestPurges(old(View()), rd))
    {
      hide Stored, GetRest, Numbered, InStep, CrcMatches;
      GetRestFlags(View().rx, transferringFileD != -1, rd);
      StoreRest(rd);
      if |rd| < REST_BLK_SZ {
        NotWhole(rcvBlk[..], |rd|);
        goodBlk, goodBlk1st := false, false;
      } else {
        Judge(|rd|);
      }
    }

    lemma NotWhole(blk: Data, n: nat)
      requires |blk| == BUF_SZ && n < REST_BLK_SZ
      ensures !Numbered(blk, n)
    {
    }

    method Judge(n: nat)
      requires Valid() && n >= REST_BLK_SZ
      modifies this`goodBlk, this`goodBlk1st, this`syncLoss, this`numLastGoodBlk, this`purged
      ensures var known := InStep(rcvBlk[..], old(numLastGoodBlk), transferringFileD != -1);
              && goodBlk == (Numbered(rcvBlk[..], n) && known && CrcMatches(rcvBlk[..]))
              && syncLoss == (old(syncLoss) || (Numbered(rcvBlk[..], n) && !known))
      ensures goodBlk1st == (goodBlk && rcvBlk[1] == Succ(old(numLastGoodBlk)))
      ensures numLastGoodBlk == if goodBlk1st then rcvBlk[1] else old(numLastGoodBlk)
      ensures purged == (old(purged) || !goodBlk)
    {
      hide CrcMatches;
      if n > REST_BLK_SZ {
        goodBlk := false;
      } else if rcvBlk[2] != Complement(rcvBlk[1]) {
        goodBlk := false;
      } else {
        goodBlk1st := rcvBlk[1] == Succ(numLastGoodBlk);
        if !goodBlk1st {
          if transferringFileD == -1 || rcvBlk[1] != numLastGoodBlk {
            syncLoss := true;
            goodBlk := false;
            Purge();
            return;
          }
        }
        goodBlk := CrcIsRight();
      }
      if !goodBlk {
        goodBlk1st := false;
        Purge();
        return;
      } else if !goodBlk1st {
        return;
      }
      numLastGoodBlk := rcvBlk[1];
    }

    /** Writes the valid part of the payload to the open file. */
    method WriteChunk()
      requires Valid()
      modifies this`bytesRemaining, this`outs
      ensures View() == ReceiverContext.WriteChunk(old(View()))
    {
      if bytesRemaining <= 0 {
        return;
      }
      bytesRemaining := bytesRemaining - CHUNK_SZ;
      var writeSize := if bytesRemaining < 0 then CHUNK_SZ + bytesRemaining else CHUNK_SZ;
      assert writeSize == WriteSize(old(bytesRemaining));
      if writeSize > 0 {
        PayloadPrefix(rcvBlk[..], writeSize);
        assert rcvBlk[DATA_POS..DATA_POS + writeSize] == rcvBlk[..][DATA_POS..DATA_POS + writeSize];
        WriteFile(rcvBlk[DATA_POS..DATA_POS + writeSize]);
      }
    }

    method WriteFile(data: Data)
      modifies this`outs
      ensures if 0 <= transferringFileD < |old(outs)| then
                outs == old(outs)[transferringFileD :=
                          old(outs)[transferringFileD].(data := old(outs)[transferringFileD].data + data)]
              else outs == old(outs)
    {
      if 0 <= transferringFileD < |outs| {
        var f := outs[transferringFileD];
        outs := outs[transferringFileD := f.(data := f.data + data)];
      }
    }

    /** Creates the file that the stat block names. The size is read only then, and reading it can throw. */
    method OpenFileForTransfer(env: Env) returns (threw: bool)
      requires Valid()
      modifies this`transferringFileD, this`outs, this`bytesRemaining
      ensures OpenFile(old(View()), env) == Opened(View(), threw)
    {
      if env.creatOk {
        transferringFileD := |outs|;
        outs := outs + [OutFile(StatName(rcvBlk[..]), [])];
      } else {
        transferringFileD := -1;
      }
      var size := StatSize(rcvBlk[..]);
      threw := size.None?;
      if size.Some? {
        bytesRemaining := size.value;
      }
    }

    method CloseTransferredFile(env: Env)
      modifies this`closeProb, this`numLastGoodBlk, this`transferringFileD
      ensures View() == CloseFile(old(View()), env)
    {
      if transferringFileD > -1 {
        closeProb := env.closeRc;
        if closeProb == 0 {
          numLastGoodBlk := 255;
          transferringFileD := -1;
        }
      }
    }

    method CheckForAnotherFile() returns (another: byte)
      requires Valid()
      modifies this`anotherFile
      ensures View() == ReceiverContext.CheckForAnotherFile(old(View())) && another == anotherFile
    {
      anotherFile := rcvBlk[DATA_POS];
      another := anotherFile;
    }
  }
}
