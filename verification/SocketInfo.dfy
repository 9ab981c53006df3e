/** The objects of myIO.cpp (Part 3): socketInfoClass with its counters, and the map from descriptors to them. A method
    is one critical section; a wait on a condition variable ends it, and another method goes on behind the wait. */
module SocketInfo {
  import opened Bytes
  import opened Text
  import opened SocketPair

  class SocketInfo {
    var pair: int
    var totalWritten: nat
    var maxTotalCanRead: nat
    var data: Data
    var reader: Reader
    var drainers: seq<Drainer>
    // histories of what went in and out
    var written: Data
    var got: Data

    ghost function View(): Info
      reads this
    {
      Info(pair, totalWritten, maxTotalCanRead, data, reader, drainers, written, got)
    }

    constructor (pairInit: nat)
      ensures View() == NewInfo(pairInit)
    {
      pair, totalWritten, maxTotalCanRead := pairInit, 0, 0;
      data, reader, drainers, written, got := [], NoReader, [], [], [];
    }

    // ------------------------------------------------ condition variables

    /** `cvDrain.notify_all` */
    method NotifyDrainers()
      modifies this`drainers
      ensures View() == old(View()).NotifyDrainers()
    {
      var i := 0;
      var ds := drainers;
      while i < |ds|
        invariant 0 <= i <= |ds| == |old(drainers)| && drainers == old(drainers)
        invariant forall k :: 0 <= k < |ds| ==>
                    ds[k] == if k < i then Drainer(true, old(drainers)[k].saw) else old(drainers)[k]
      {
        ds := ds[i := ds[i].(notified := true)];
        i := i + 1;
      }
      drainers := ds;
    }

    /** `cvRead.notify_one`; there is at most one reader. */
    method NotifyReader()
      modifies this`reader
      ensures View() == old(View()).NotifyReader()
    {
      if reader.Blocked? {
        reader := reader.(notified := true);
      }
    }

    /** The end of a critical section, for the history that the drainers keep. */
    method EndSection()
      modifies this`drainers
      ensures View() == old(View()).Observed()
    {
      var drained := totalWritten <= maxTotalCanRead || pair < 0;
      var ds := drainers;
      drainers := seq(|ds|, i requires 0 <= i < |ds| => Drainer(ds[i].notified, ds[i].saw || drained));
    }

    // -------------------------------------------------- critical sections

    /** Takes as much as there is room for. */
    method WriteTo(bytes: Data, room: nat) returns (count: nat)
      modifies this`totalWritten, this`data, this`written, this`reader, this`drainers
      ensures count == if room < |bytes| then room else |bytes|
      ensures View() == Writing(old(View()), bytes[..count])
      ensures data == old(data) + bytes[..count] && totalWritten == old(totalWritten) + count
      ensures count > 0 && old(reader).Blocked? ==> reader == old(reader).(notified := true)
      ensures count == 0 || old(reader) == NoReader ==> reader == old(reader)
    {
      count := if room < |bytes| then room else |bytes|;
      data := data + bytes[..count];
      written := written + bytes[..count];
      totalWritten := totalWritten + count;
      if count > 0 {
        NotifyReader();
      }
      EndSection();
    }

    method Take(n: nat) returns (bytes: Data)
      requires totalWritten == |data|
      modifies this`totalWritten, this`data, this`got
      ensures View() == old(View()).Taken(n)
      ensures bytes == old(data)[..if n < |old(data)| then n else |old(data)|]
    {
      var k := if n < |data| then n else |data|;
      bytes := data[..k];
      data := data[k..];
      got := got + bytes;
      totalWritten := totalWritten - k;
    }

    /** Reads at once, or blocks the reader; None says that it is blocked. */
    method ReadFrom(n: nat, min: nat) returns (bytes: Option<Data>)
      requires totalWritten == |data| && reader == NoReader
      modifies this`totalWritten, this`maxTotalCanRead, this`data, this`got, this`reader, this`drainers
      ensures View() == ReadingEnter(old(View()), n, min)
      ensures bytes.Some? <==> old(pair) == -2 || (old(maxTotalCanRead) == 0 && old(totalWritten) >= min)
      ensures bytes.Some? && old(pair) == -2 ==> bytes.value == [] && data == old(data)
      ensures bytes.Some? && old(pair) != -2 ==>
                var k := if n < |old(data)| then n else |old(data)|;
                && bytes.value == old(data)[..k] && data == old(data)[k..] && totalWritten == |data|
                && maxTotalCanRead == 0 && reader == NoReader && got == old(got) + bytes.value
      ensures bytes.None? ==>
                && data == old(data) && totalWritten == old(totalWritten) && got == old(got)
                && maxTotalCanRead == old(maxTotalCanRead) + n && reader.Blocked? && reader.n == n && reader.min == min
                && forall i :: 0 <= i < |drainers| ==> drainers[i].notified
    {
      if -2 == pair {
        return Some([]);
      } else if maxTotalCanRead == 0 && totalWritten >= min {
        if 0 == min && 0 == totalWritten {
          return Some([]);
        }
        var taken := Take(n);
        if |taken| > 0 {
          if totalWritten <= maxTotalCanRead {
            NotifyDrainers();
          }
        }
        EndSection();
        return Some(taken);
      } else {
        maxTotalCanRead := maxTotalCanRead + n;
        NotifyDrainers();
        reader := Blocked(n, min, totalWritten >= min || pair < 0);
        EndSection();
        return None;
      }
    }

    /** The reader goes on behind its wait. */
    method ReaderGoesOn() returns (bytes: Option<Data>)
      requires totalWritten == |data| && reader.Blocked? && maxTotalCanRead >= reader.n
      modifies this`totalWritten, this`maxTotalCanRead, this`data, this`got, this`reader, this`drainers
      ensures View() == ReadingResume(old(View()))
      ensures bytes.Some? <==> old(totalWritten) >= old(reader).min || old(pair) < 0
      ensures bytes.Some? ==>
                var n := old(reader).n;
                var k := if n < |old(data)| then n else |old(data)|;
                && bytes.value == old(data)[..k] && data == old(data)[k..] && totalWritten == |data|
                && maxTotalCanRead == old(maxTotalCanRead) - n && reader == NoReader
                && got == old(got) + bytes.value
      ensures bytes.None? ==>
                data == old(data) && maxTotalCanRead == old(maxTotalCanRead)
                && reader == old(reader).(notified := false)
    {
      if totalWritten >= reader.min || pair < 0 {
        var taken := Take(reader.n);
        maxTotalCanRead := maxTotalCanRead - reader.n;
        reader := NoReader;
        EndSection();
        return Some(taken);
      } else {
        reader := reader.(notified := false);
        return None;
      }
    }

    /** Returns at once, or blocks the drainer. */
    method DrainFrom() returns (blocked: bool)
      modifies this`drainers
      ensures View() == DrainingEnter(old(View()))
      ensures blocked <==> pair >= 0 && totalWritten > maxTotalCanRead
      ensures drainers == old(drainers) + if blocked then [Drainer(false, false)] else []
    {
      blocked := pair >= 0 && totalWritten > maxTotalCanRead;
      if blocked {
        drainers := drainers + [Drainer(false, false)];
      }
    }

    method DrainerGoesOn(i: nat)
      requires i < |drainers|
      modifies this`drainers
      ensures View() == DrainingResume(old(View()), i)
    {
      drainers := drainers[..i] + drainers[i + 1..];
    }

    /** This descriptor is closed; `other` is the object of its pair, if that one is still open. */
    method CloseThis(other: SocketInfo)
      requires other != this
      modifies this, other
      ensures old(pair) == -2 ==> View() == old(View()) && other.View() == old(other.View())
      ensures old(pair) != -2 ==> View() == ClosedFirst(old(View())) && other.View() == PairClosed(old(other.View()))
      ensures old(pair) != -2 ==>
                && pair == -1 && other.pair == -2 && data == old(data) && other.data == old(other.data)
                && (totalWritten > maxTotalCanRead ==> forall i :: 0 <= i < |drainers| ==> drainers[i].notified)
                && (other.maxTotalCanRead > 0 && other.reader.Blocked? ==> other.reader.notified)
    {
      if pair != -2 {
        pair := -1;
        other.pair := -2;
        if totalWritten > maxTotalCanRead {
          NotifyDrainers();
        }
        EndSection();
        if other.maxTotalCanRead > 0 {
          other.NotifyReader();
        }
        other.EndSection();
      }
    }
  }

  /** What a read on a descriptor comes to: the system's own `read` for a descriptor that is not in the map, a blocked
      reader, or what has been read. */
  datatype ReadOutcome = OfSystem | Blocks | Got(bytes: Data)

  /** The map of all descriptors that belong to pairs. */
  class Sockets {
    var desInfoMap: map<int, SocketInfo>

    /** A descriptor and its pair know each other, as long as both are open. */
    ghost predicate Linked(d: int)
      requires d in desInfoMap
      reads this, desInfoMap.Values
    {
      var p := desInfoMap[d].pair;
      d >= 0 && (p == -2 || (p >= 0 && p in desInfoMap && desInfoMap[p] != desInfoMap[d] && desInfoMap[p].pair == d))
    }

    ghost predicate Valid()
      reads this, desInfoMap.Values
    {
      forall d :: d in desInfoMap ==> Linked(d)
    }

    constructor ()
      ensures Valid() && desInfoMap == map[]
    {
      desInfoMap := map[];
    }

    /** Two new descriptors, which the system has not given out before. */
    method MySocketpair(des0: nat, des1: nat)
      requires Valid() && des0 != des1 && des0 !in desInfoMap && des1 !in desInfoMap
      modifies this
      ensures Valid()
      ensures desInfoMap.Keys == old(desInfoMap).Keys + {des0, des1}
      ensures desInfoMap[des0].View() == NewInfo(des1) && desInfoMap[des1].View() == NewInfo(des0)
      ensures forall d :: d in old(desInfoMap) ==> desInfoMap[d] == old(desInfoMap)[d]
    {
      var info0 := new SocketInfo(des1);
      var info1 := new SocketInfo(des0);
      var before := desInfoMap;
      desInfoMap := before[des0 := info0][des1 := info1];
      assert info0.pair == info0.View().pair && info1.pair == info1.View().pair;
      forall d | d in desInfoMap ensures Linked(d) {
        if d != des0 && d != des1 {
          assert old(Linked(d));
        }
      }
    }

    /** The map stands, and only `changed` among its objects have another content than before. */
    twostate predicate OnlyChanged(changed: set<SocketInfo>)
      reads this, desInfoMap.Values
    {
      && desInfoMap == old(desInfoMap)
      && forall d :: d in desInfoMap && desInfoMap[d] !in changed ==> desInfoMap[d].View() == old(desInfoMap[d].View())
    }

    /** An object that changes without changing its pair leaves the map valid. */
    twostate lemma StillValid(changed: SocketInfo)
      requires old(Valid()) && changed in old(desInfoMap.Values) && OnlyChanged({changed})
      requires changed.pair == old(changed.pair)
      ensures Valid()
    {
      forall d | d in desInfoMap ensures Linked(d) {
        assert old(Linked(d));
        assert forall i :: i in desInfoMap ==> desInfoMap[i].View().pair == old(desInfoMap[i].View()).pair;
      }
    }

    /** What is written to a descriptor goes to the object of its pair, as far as the buffer there has `room`; None stands
        for the system's own `write`. */
    method MyWrite(des: int, bytes: Data, room: nat) returns (count: Option<nat>)
      requires Valid()
      modifies desInfoMap.Values
      ensures Valid()
      ensures if des in desInfoMap && old(desInfoMap[des].pair) != -2 then
                var peer := desInfoMap[old(desInfoMap[des].pair)];
                && count == Some(if room < |bytes| then room else |bytes|)
                && peer.View() == Writing(old(peer.View()), bytes[..count.value]) && OnlyChanged({peer})
              else count == None && OnlyChanged({})
    {
      if des in desInfoMap {
        var pair := desInfoMap[des].pair;
        if pair != -2 {
          var peer := desInfoMap[pair];
          var n := peer.WriteTo(bytes, room);
          StillValid(peer);
          return Some(n);
        }
      }
      return None;
    }

    /** A read goes to the object of the descriptor itself: with enough there, it gives back up to `n` bytes from the front;
        once the pair has been closed, it gives back nothing; and otherwise it blocks. */
    method MyReadcond(des: int, n: nat, min: nat) returns (outcome: ReadOutcome)
      requires Valid()
      requires des in desInfoMap ==>
                 desInfoMap[des].totalWritten == |desInfoMap[des].data| && desInfoMap[des].reader == NoReader
      modifies desInfoMap.Values
      ensures Valid()
      ensures des !in desInfoMap ==> outcome == OfSystem && OnlyChanged({})
      ensures des in desInfoMap ==>
                var own := desInfoMap[des];
                var before := old(desInfoMap[des].data);
                && OnlyChanged({own})
                && (old(desInfoMap[des].pair) == -2 ==> outcome == Got([]) && own.data == before)
                && (old(desInfoMap[des].pair) != -2 && old(desInfoMap[des].maxTotalCanRead) == 0 && |before| >= min ==>
                      var k := if n < |before| then n else |before|;
                      outcome == Got(before[..k]) && own.data == before[k..])
                && (old(desInfoMap[des].pair) != -2 && (old(desInfoMap[des].maxTotalCanRead) != 0 || |before| < min) ==>
                      outcome == Blocks && own.data == before && own.reader.Blocked? && own.reader.n == n
                      && own.reader.min == min)
    {
      if des in desInfoMap {
        var own := desInfoMap[des];
        ghost var x := own.View();
        var bytes := own.ReadFrom(n, min);
        PairIsKept(x, n, min);
        assert own.pair == own.View().pair;
        StillValid(own);
        return match bytes case None => Blocks case Some(taken) => Got(taken);
      }
      return OfSystem;
    }

    /** `myRead` is content with one byte. */
    method MyRead(des: int, n: nat) returns (outcome: ReadOutcome)
      requires Valid()
      requires des in desInfoMap ==>
                 desInfoMap[des].totalWritten == |desInfoMap[des].data| && desInfoMap[des].reader == NoReader
      modifies desInfoMap.Values
      ensures Valid()
      ensures outcome == OfSystem <==> des !in desInfoMap
      ensures des in desInfoMap && old(desInfoMap[des].pair) != -2 && old(desInfoMap[des].maxTotalCanRead) == 0 ==>
                var before := old(desInfoMap[des].data);
                var k := if n < |before| then n else |before|;
                if before == [] then outcome == Blocks
                else outcome == Got(before[..k]) && desInfoMap[des].data == before[k..]
    {
      outcome := MyReadcond(des, n, 1);
    }

    static lemma PairIsKept(x: Info, n: nat, min: nat)
      requires x.totalWritten == |x.data|
      ensures ReadingEnter(x, n, min).pair == x.pair
    {
    }

    /** A drain waits on the object of the pair, and is over at once when the pair has been closed. */
    method MyTcdrain(des: int) returns (blocked: Option<bool>)
      requires Valid()
      modifies desInfoMap.Values
      ensures Valid()
      ensures des !in desInfoMap ==> blocked == None && OnlyChanged({})
      ensures des in desInfoMap && old(desInfoMap[des].pair) == -2 ==> blocked == Some(false) && OnlyChanged({})
      ensures des in desInfoMap && old(desInfoMap[des].pair) != -2 ==>
                var peer := desInfoMap[old(desInfoMap[des].pair)];
                && blocked == Some(!old(peer.View()).Drained())
                && peer.View() == DrainingEnter(old(peer.View())) && OnlyChanged({peer})
    {
      if des in desInfoMap {
        var pair := desInfoMap[des].pair;
        if pair == -2 {
          return Some(false);
        }
        var peer := desInfoMap[pair];
        var b := peer.DrainFrom();
        StillValid(peer);
        return Some(b);
      }
      return None;
    }

    /** Takes the descriptor out of the map and tells its pair. */
    method MyClose(des: int)
      requires Valid()
      modifies this, desInfoMap.Values
      ensures Valid() && desInfoMap == old(desInfoMap) - {des}
      ensures des in old(desInfoMap) && old(desInfoMap[des].pair) != -2 ==>
                var own := old(desInfoMap)[des];
                var peer := old(desInfoMap)[old(desInfoMap[des].pair)];
                && own.View() == ClosedFirst(old(own.View())) && peer.View() == PairClosed(old(peer.View()))
                && forall d :: d in desInfoMap && desInfoMap[d] != peer ==>
                     desInfoMap[d].View() == old(desInfoMap[d].View())
      ensures des !in old(desInfoMap) || old(desInfoMap[des].pair) == -2 ==>
                forall d :: d in old(desInfoMap) ==> old(desInfoMap)[d].View() == old(desInfoMap[d].View())
    {
      if des in desInfoMap {
        var info := desInfoMap[des];
        var before := desInfoMap;
        desInfoMap := desInfoMap - {des};
        assert old(Linked(des));
        if info.pair == -2 {
          forall d | d in desInfoMap ensures Linked(d) {
            assert old(Linked(d));
          }
        } else {
          var pairDes := info.pair;
          var other := before[pairDes];
          ghost var otherPair := other.pair;
          info.CloseThis(other);
          assert info.pair == info.View().pair && other.pair == other.View().pair;
          forall d | d in desInfoMap ensures Linked(d) {
            assert old(Linked(d));
          }
        }
      }
    }
  }
}
