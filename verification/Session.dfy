/** What the two peers put on the line and into their result strings. */
module Session {
  import opened Bytes

  /** What the sender puts on the line: a block, a single EOT, or a burst of CAN bytes. */
  datatype Item = Blk(bytes: Data) | Eot | Cans

  /** The pieces of which the result string of a peer is made. */
  datatype Phrase =
    | Done
    | EndOfSession
    | KbCancelled
    | KbCancelledDelayed
    | KbCancelledImmediate
    | KbCancelledOpenErr
    | KbCancelledFromStatC
    | Timeout
    | OpenError
    | CreatError
    | CloseError
    | RcvCancelled
    | SndCancelled
    | ExcessiveNaks
    | ExcessiveEots
    | ExcessiveErrors
    | ExcessiveErrorsAtStat
    | LossOfSync
    | LossOfSyncAtStat
  {
    function Text(): string
    {
      match this
      case Done => "Done, "
      case EndOfSession => "EndOfSession"
      case KbCancelled => "KbCancelled"
      case KbCancelledDelayed => "KbCancelled (delayed)"
      case KbCancelledImmediate => "kbCancelled (immediate)"
      case KbCancelledOpenErr => "KbCancelledOpenErr"
      case KbCancelledFromStatC => "KbCancelledFromStatC"
      case Timeout => "Timeout"
      case OpenError => "OpenError"
      case CreatError => "CreatError"
      case CloseError => "CloseError"
      case RcvCancelled => "RcvCancelled"
      case SndCancelled => "SndCancelled"
      case ExcessiveNaks => "ExcessiveNAKs"
      case ExcessiveEots => "ExcessiveEOTs"
      case ExcessiveErrors => "ExcessiveErrors"
      case ExcessiveErrorsAtStat => "ExcessiveErrors at Stat"
      case LossOfSync => "LossOfSyncronization"
      case LossOfSyncAtStat => "LossOfSync at Stat Blk"
    }
  }

  /** How many files a result string reports as done. */
  function DoneCount(result: seq<Phrase>): nat
  {
    if result == [] then 0
    else DoneCount(result[..|result| - 1]) + if result[|result| - 1] == Done then 1 else 0
  }

  lemma DoneCountAppend(result: seq<Phrase>, p: Phrase)
    ensures DoneCount(result + [p]) == DoneCount(result) + if p == Done then 1 else 0
  {
    assert (result + [p])[..|result + [p]| - 1] == result;
  }

  /** `n` times "Done, ". */
  function Dones(n: nat): (r: seq<Phrase>)
    ensures |r| == n
  {
    seq(n, _ => Done)
  }

  /** The string that a peer has put together. */
  function ResultText(result: seq<Phrase>): string
  {
    if result == [] then "" else ResultText(result[..|result| - 1]) + result[|result| - 1].Text()
  }

  /** What each way to end, and each file that is done, adds to the string of a peer. */
  lemma PhraseTexts(result: seq<Phrase>)
    ensures ResultText(result + [Done]) == ResultText(result) + "Done, "
    ensures ResultText(result + [EndOfSession]) == ResultText(result) + "EndOfSession"
    ensures ResultText(result + [KbCancelled]) == ResultText(result) + "KbCancelled"
    ensures ResultText(result + [Timeout]) == ResultText(result) + "Timeout"
    ensures ResultText(result + [OpenError]) == ResultText(result) + "OpenError"
    ensures ResultText(result + [CreatError]) == ResultText(result) + "CreatError"
    ensures ResultText(result + [CloseError]) == ResultText(result) + "CloseError"
    ensures ResultText(result + [RcvCancelled]) == ResultText(result) + "RcvCancelled"
    ensures ResultText(result + [SndCancelled]) == ResultText(result) + "SndCancelled"
    ensures ResultText(result + [ExcessiveNaks]) == ResultText(result) + "ExcessiveNAKs"
    ensures ResultText(result + [ExcessiveEots]) == ResultText(result) + "ExcessiveEOTs"
    ensures ResultText(result + [ExcessiveErrors]) == ResultText(result) + "ExcessiveErrors"
    ensures ResultText(result + [LossOfSync]) == ResultText(result) + "LossOfSyncronization"
  {
    forall p: Phrase ensures ResultText(result + [p]) == ResultText(result) + p.Text() {
      assert (result + [p])[..|result|] == result;
    }
  }

  /** `n` times the same string. */
  function Repeated(s: string, n: nat): string
  {
    if n == 0 then "" else Repeated(s, n - 1) + s
  }

  /** A session without faults ends with one "Done, " for each file and "EndOfSession". */
  lemma {:induction false} FinalText(n: nat)
    ensures ResultText(Dones(n)) == Repeated("Done, ", n)
    ensures ResultText(Dones(n) + [EndOfSession]) == Repeated("Done, ", n) + "EndOfSession"
  {
    var r := Dones(n);
    if n > 0 {
      FinalText(n - 1);
      assert r[..n - 1] == Dones(n - 1);
    }
    assert (r + [EndOfSession])[..n] == r;
  }

  // Timeouts, in units of a tenth of a second
  const TM_VL: int := 150
  const TM_2CHAR: int := 4
  const TM_CHAR: int := 2
  const USECS_PER_UNIT: int := 100_000
}
