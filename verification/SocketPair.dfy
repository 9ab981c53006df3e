/** The monitor behind a pair of sockets (myIO.cpp of Part 3): every critical section is one step, and a thread that
    waits on a condition variable goes on in a later step, once it has been notified. */
module SocketPair {
  import opened Bytes
  import opened Text

  /** The thread that reads from a descriptor, if it is blocked in `cvRead.wait`. */
  datatype Reader = NoReader | Blocked(n: nat, min: nat, notified: bool)

  /** A thread blocked in `cvDrain.wait`. `saw` is a history variable: since the thread called, there has been an
      instant at which the data were drained or an end was closed. */
  datatype Drainer = Drainer(notified: bool, saw: bool)

  /** A socketInfoClass object: what has been written towards one descriptor and not been read. `pair` is the paired
      descriptor, -1 when this descriptor was closed first, and -2 when the paired one was. `written` and `got` are
      histories of what went in and out. */
  datatype Info = Info(pair: int, totalWritten: nat, maxTotalCanRead: nat, data: Data,
                       reader: Reader, drainers: seq<Drainer>, written: Data, got: Data)
  {
    predicate Drained()
    {
      totalWritten <= maxTotalCanRead || pair < 0
    }

    /** The predicate of `cvRead.wait`. */
    predicate CanGoOn(min: nat)
    {
      totalWritten >= min || pair < 0
    }

    /** At the end of a critical section, the blocked drainers have lived through one more instant. */
    function Observed(): Info
    {
      this.(drainers := seq(|drainers|, i requires 0 <= i < |drainers| =>
                              Drainer(drainers[i].notified, drainers[i].saw || Drained())))
    }

    function NotifyDrainers(): Info
    {
      this.(drainers := seq(|drainers|, i requires 0 <= i < |drainers| => Drainer(true, drainers[i].saw)))
    }

    function NotifyReader(): Info
    {
      if reader.Blocked? then this.(reader := reader.(notified := true)) else this
    }

    /** Taking up to `n` bytes out. */
    function Taken(n: nat): Info
      requires totalWritten == |data|
    {
      var k := if n < |data| then n else |data|;
      this.(data := data[k..], totalWritten := totalWritten - k, got := got + data[..k])
    }
  }

  function NewInfo(pair: int): Info
  {
    Info(pair, 0, 0, [], NoReader, [], [], [])
  }

  // ---------------------------------------------------- critical sections

  /** `bytes` are those that the buffer has taken, which may be fewer than were offered. */
  function Writing(x: Info, bytes: Data): Info
  {
    var y := x.(totalWritten := x.totalWritten + |bytes|, data := x.data + bytes, written := x.written + bytes);
    (if bytes != [] then y.NotifyReader() else y).Observed()
  }

  /** A read that finds enough is over at once; otherwise the reader says how much it will take, and blocks. */
  function ReadingEnter(x: Info, n: nat, min: nat): Info
    requires x.totalWritten == |x.data|
  {
    if x.pair == -2 then x
    else if x.maxTotalCanRead == 0 && x.totalWritten >= min then
      if min == 0 && x.totalWritten == 0 then x
      else
        var y := x.Taken(n);
        (if y.totalWritten < x.totalWritten && y.totalWritten <= y.maxTotalCanRead then y.NotifyDrainers() else y).Observed()
    else
      var y := x.(maxTotalCanRead := x.maxTotalCanRead + n).NotifyDrainers();
      y.(reader := Blocked(n, min, y.CanGoOn(min))).Observed()
  }

  /** A notified reader looks again, and takes what there is or waits on. */
  function ReadingResume(x: Info): Info
    requires x.totalWritten == |x.data| && x.reader.Blocked?
  {
    if x.CanGoOn(x.reader.min) then
      var y := x.Taken(x.reader.n);
      y.(maxTotalCanRead := if x.maxTotalCanRead >= x.reader.n then x.maxTotalCanRead - x.reader.n else 0,
         reader := NoReader).Observed()
    else x.(reader := x.reader.(notified := false))
  }

  function DrainingEnter(x: Info): Info
  {
    if x.pair >= 0 && x.totalWritten > x.maxTotalCanRead then x.(drainers := x.drainers + [Drainer(false, false)]) else x
  }

  /** A notified drainer returns without looking again. */
  function DrainingResume(x: Info, i: nat): Info
    requires i < |x.drainers|
  {
    x.(drainers := x.drainers[..i] + x.drainers[i + 1..])
  }

  /** The object of the descriptor that is closed first, and that of its pair. */
  function ClosedFirst(x: Info): Info
  {
    var y := x.(pair := -1);
    (if x.totalWritten > x.maxTotalCanRead then y.NotifyDrainers() else y).Observed()
  }

  function PairClosed(x: Info): Info
  {
    var y := x.(pair := -2);
    (if x.maxTotalCanRead > 0 then y.NotifyReader() else y).Observed()
  }

  // ------------------------------------------------------- both ends

  /** Two descriptors with their objects, and whether they are still in the map. */
  datatype Sys = Sys(info: seq<Info>, open: seq<bool>)
  {
    predicate Two()
    {
      |info| == 2 && |open| == 2
    }
  }

  type Side = s: nat | s < 2

  function Other(s: Side): Side
  {
    1 - s
  }

  /** How much of `bytes` a buffer with `room` left takes. */
  function TakenOf(bytes: Data, room: nat): (taken: Data)
    ensures |taken| == if room < |bytes| then room else |bytes|
  {
    if room < |bytes| then bytes[..room] else bytes
  }

  /** Calls on descriptor `s`, and threads blocked in them that go on. `room` is what the buffer still takes. */
  datatype Act =
    | Write(s: Side, bytes: Data, room: nat)
    | Read(s: Side, n: nat, min: nat)
    | ReadGoesOn(s: Side)
    | Drain(s: Side)
    | DrainGoesOn(s: Side, i: nat)
    | Close(s: Side)

  /** What callers keep to: one reader for a descriptor, which asks for at least one byte and waits for no more than
      it asks for; and a descriptor is closed when all other calls on it have returned. */
  predicate Enabled(y: Sys, a: Act)
    requires y.Two()
  {
    match a
    case Write(s, _, _) => y.open[s]
    case Read(s, n, min) => y.open[s] && y.info[s].reader == NoReader && 0 < n && min <= n
    case ReadGoesOn(s) => y.info[s].reader.Blocked? && y.info[s].reader.notified
    case Drain(s) => y.open[s]
    case DrainGoesOn(s, i) => i < |y.info[Other(s)].drainers| && y.info[Other(s)].drainers[i].notified
    case Close(s) => y.open[s] && y.info[s].reader == NoReader && y.info[Other(s)].drainers == []
  }

  /** A write or drain works on the object of the paired descriptor, unless that one has been closed. */
  function Do(y: Sys, a: Act): Sys
    requires y.Two() && Enabled(y, a)
    requires y.info[0].totalWritten == |y.info[0].data| && y.info[1].totalWritten == |y.info[1].data|
  {
    match a
    case Write(s, bytes, room) =>
      if y.info[s].pair == -2 then y
      else y.(info := y.info[Other(s) := Writing(y.info[Other(s)], TakenOf(bytes, room))])
    case Read(s, n, min) => y.(info := y.info[s := ReadingEnter(y.info[s], n, min)])
    case ReadGoesOn(s) => y.(info := y.info[s := ReadingResume(y.info[s])])
    case Drain(s) =>
      if y.info[s].pair == -2 then y else y.(info := y.info[Other(s) := DrainingEnter(y.info[Other(s)])])
    case DrainGoesOn(s, i) => y.(info := y.info[Other(s) := DrainingResume(y.info[Other(s)], i)])
    case Close(s) =>
      var z := y.(open := y.open[s := false]);
      if y.info[s].pair == -2 then z
      else z.(info := y.info[s := ClosedFirst(y.info[s])][Other(s) := PairClosed(y.info[Other(s)])])
  }

  // ----------------------------------------------------------- invariant

  ghost predicate ReaderOk(x: Info)
  {
    match x.reader
    case NoReader => x.maxTotalCanRead == 0
    case Blocked(n, min, notified) =>
      && x.maxTotalCanRead == n > 0 && min <= n && x.pair != -1
      && (!notified ==> x.totalWritten < min && x.pair >= 0)
  }

  ghost predicate DrainersOk(x: Info)
  {
    forall i :: 0 <= i < |x.drainers| ==>
      && (!x.drainers[i].notified ==> x.totalWritten > x.maxTotalCanRead && x.pair >= 0)
      && (x.drainers[i].notified ==> x.drainers[i].saw)
  }

  ghost predicate InfoOk(x: Info)
  {
    && x.totalWritten == |x.data| && x.written == x.got + x.data
    && ReaderOk(x) && DrainersOk(x)
  }

  /** Both ends know which of them was closed first. */
  predicate PairsOk(pair0: int, pair1: int, open0: bool, open1: bool)
  {
    || (pair0 >= 0 && pair1 >= 0)
    || (pair0 == -1 && pair1 == -2 && !open0)
    || (pair0 == -2 && pair1 == -1 && !open1)
  }

  /** The invariant, seen from either side. */
  ghost predicate InvFrom(y: Sys, s: Side)
  {
    && y.Two() && InfoOk(y.info[s]) && InfoOk(y.info[Other(s)])
    && PairsOk(y.info[s].pair, y.info[Other(s)].pair, y.open[s], y.open[Other(s)])
  }

  ghost predicate Inv(y: Sys)
  {
    InvFrom(y, 0)
  }

  lemma EitherSide(y: Sys, s: Side)
    ensures Inv(y) <==> InvFrom(y, s)
  {
    hide InfoOk;
  }

  lemma WritingOk(x: Info, bytes: Data)
    requires InfoOk(x) && x.pair >= 0
    ensures InfoOk(Writing(x, bytes)) && Writing(x, bytes).pair == x.pair
  {
  }

  lemma ReadingEnterOk(x: Info, n: nat, min: nat)
    requires InfoOk(x) && x.pair != -1 && x.reader == NoReader && 0 < n && min <= n
    ensures InfoOk(ReadingEnter(x, n, min)) && ReadingEnter(x, n, min).pair == x.pair
  {
  }

  lemma ReadingResumeOk(x: Info)
    requires InfoOk(x) && x.reader.Blocked?
    ensures InfoOk(ReadingResume(x)) && ReadingResume(x).pair == x.pair
  {
  }

  lemma DrainingOk(x: Info, i: nat)
    requires InfoOk(x)
    ensures InfoOk(DrainingEnter(x)) && DrainingEnter(x).pair == x.pair
    ensures i < |x.drainers| ==> InfoOk(DrainingResume(x, i)) && DrainingResume(x, i).pair == x.pair
  {
  }

  lemma ClosingOk(x: Info, o: Info)
    requires InfoOk(x) && x.reader == NoReader && InfoOk(o) && o.drainers == [] && o.pair >= 0
    ensures InfoOk(ClosedFirst(x)) && ClosedFirst(x).pair == -1
    ensures InfoOk(PairClosed(o)) && PairClosed(o).pair == -2
  {
  }

  lemma StepKeeps(y: Sys, a: Act)
    requires Inv(y) && Enabled(y, a)
    ensures y.info[0].totalWritten == |y.info[0].data| && y.info[1].totalWritten == |y.info[1].data|
    ensures Inv(Do(y, a))
  {
    CountsOk(y.info[0]);
    CountsOk(y.info[1]);
    EitherSide(y, a.s);
    EitherSide(Do(y, a), a.s);
    hide Writing, ReadingEnter, ReadingResume, DrainingEnter, DrainingResume, ClosedFirst, PairClosed, InfoOk, Inv;
    var x, o := y.info[a.s], y.info[Other(a.s)];
    match a {
      case Write(s, bytes, room) =>
        if x.pair != -2 {
          WritingOk(o, TakenOf(bytes, room));
        }
      case Read(s, n, min) => ReadingEnterOk(x, n, min);
      case ReadGoesOn(s) => ReadingResumeOk(x);
      case Drain(s) => DrainingOk(o, 0);
      case DrainGoesOn(s, i) => DrainingOk(o, i);
      case Close(s) =>
        if x.pair != -2 {
          ClosingOk(x, o);
        }
    }
  }

  lemma CountsOk(x: Info)
    requires InfoOk(x)
    ensures x.totalWritten == |x.data|
  {
  }

  /** What `mySocketpair` makes of two new descriptors. */
  function Init(des0: nat, des1: nat): Sys
  {
    Sys([NewInfo(des1), NewInfo(des0)], [true, true])
  }

  /** Acts that cannot happen are skipped. */
  ghost function Run(y: Sys, acts: seq<Act>): (z: Sys)
    requires Inv(y)
    ensures Inv(z)
  {
    if acts == [] then y
    else
      var z := Run(y, acts[..|acts| - 1]);
      var a := acts[|acts| - 1];
      if Enabled(z, a) then
        StepKeeps(z, a);
        Do(z, a)
      else z
  }

  /** No wake-up is lost and no drain lies. In every state of every run, a blocked reader without a notification has
      less than it waits for and a live pair; a blocked drainer without one has data that nobody will take; and a
      drainer that has been notified, and so will return, has seen the data drained or an end closed. What has been
      read, followed by what is in the buffer, is what has been written. */
  lemma NoLostWakeups(des0: nat, des1: nat, acts: seq<Act>, s: Side)
    ensures Inv(Init(des0, des1))
    ensures var x := Run(Init(des0, des1), acts).info[s];
            && (x.reader.Blocked? && !x.reader.notified ==> x.totalWritten < x.reader.min && x.pair >= 0)
            && (forall i :: 0 <= i < |x.drainers| && !x.drainers[i].notified ==>
                  x.totalWritten > x.maxTotalCanRead && x.pair >= 0)
            && (forall i :: 0 <= i < |x.drainers| && x.drainers[i].notified ==> x.drainers[i].saw)
            && x.written == x.got + x.data
  {
    var y := Run(Init(des0, des1), acts);
    assert InfoOk(y.info[s]);
  }

  /** A drain that does not block returns at an instant at which the data are drained, or an end is closed. */
  lemma DrainReturnsAtOnce(x: Info)
    ensures DrainingEnter(x) == x <==> x.Drained()
  {
    assert DrainingEnter(x) != x ==> |DrainingEnter(x).drainers| == |x.drainers| + 1;
  }
}
