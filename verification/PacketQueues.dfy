/**
  ffplay's packet queue: a list with counters, guarded by one mutex, whose serial number goes up with
  every flush packet.
 */
module PacketQueues {
  import opened Sums

  /** The flush packet, a packet with data, or the empty packet queued at the end of the input. */
  datatype Kind = Flush | Data | Null

  datatype Packet = Packet(kind: Kind, size: nat, duration: int)

  datatype Entry = Entry(pkt: Packet, serial: int)

  /** What the threads see of a queue under its mutex. */
  datatype Queue = Queue(entries: seq<Entry>, serial: int, abort: bool)

  function Raised(q: Queue): Queue {
    q.(serial := q.serial + 1)
  }

  function Appended(q: Queue, pkt: Packet): Queue {
    q.(entries := q.entries + [Entry(pkt, q.serial)])
  }

  /** packet_queue_put_private. */
  function Put(q: Queue, pkt: Packet): Queue {
    if q.abort then q else Appended(if pkt.kind.Flush? then Raised(q) else q, pkt)
  }

  /** packet_queue_flush: the entries go, the serial stays. */
  function Emptied(q: Queue): Queue {
    q.(entries := [])
  }

  const ENTRY_SIZE := 104

  function Bytes(entries: seq<Entry>): (s: seq<int>)
    ensures |s| == |entries|
  {
    seq(|entries|, i requires 0 <= i < |entries| => entries[i].pkt.size + ENTRY_SIZE)
  }

  function Durations(entries: seq<Entry>): (s: seq<int>)
    ensures |s| == |entries|
  {
    seq(|entries|, i requires 0 <= i < |entries| => entries[i].pkt.duration)
  }

  lemma SumSplitFirst(s: seq<int>)
    requires s != []
    ensures Sum(s) == s[0] + Sum(s[1..])
  {
    assert s == [s[0]] + s[1..];
    SumConcat([s[0]], s[1..]);
    assert [s[0]][..0] == [];
  }

  datatype Got = Aborted | Nothing | Got(entry: Entry)

  class PacketQueue {
    var pkts: seq<Entry>
    var nb_packets: int
    var size: int
    var duration: int
    var abort_request: bool
    var serial: int

    /** The counters always describe the list. */
    ghost predicate Valid()
      reads this
    {
      nb_packets == |pkts| && size == Sum(Bytes(pkts)) && duration == Sum(Durations(pkts))
    }

    ghost function View(): Queue
      reads this
    {
      Queue(pkts, serial, abort_request)
    }

    constructor ()
      ensures Valid() && View() == Queue([], 0, true)
    {
      pkts, nb_packets, size, duration := [], 0, 0, 0;
      abort_request, serial := true, 0;
    }

    method PutPacket(pkt: Packet) returns (ret: int)
      requires Valid()
      modifies this
      ensures Valid() && View() == Put(old(View()), pkt)
      ensures ret == if old(abort_request) then -1 else 0
    {
      if abort_request {
        return -1;
      }
      if pkt.kind.Flush? {
        serial := serial + 1;
      }
      SumAppend(Bytes(pkts), pkt.size + ENTRY_SIZE);
      SumAppend(Durations(pkts), pkt.duration);
      assert Bytes(pkts + [Entry(pkt, serial)]) == Bytes(pkts) + [pkt.size + ENTRY_SIZE];
      assert Durations(pkts + [Entry(pkt, serial)]) == Durations(pkts) + [pkt.duration];
      pkts := pkts + [Entry(pkt, serial)];
      nb_packets := nb_packets + 1;
      size := size + pkt.size + ENTRY_SIZE;
      duration := duration + pkt.duration;
      ret := 0;
    }

    method FlushAll()
      requires Valid()
      modifies this
      ensures Valid() && View() == Emptied(old(View()))
      ensures pkts == [] && nb_packets == size == duration == 0
      ensures serial == old(serial) && abort_request == old(abort_request)
    {
      pkts, nb_packets, size, duration := [], 0, 0, 0;
    }

    method Abort()
      requires Valid()
      modifies this
      ensures Valid() && View() == old(View()).(abort := true)
    {
      abort_request := true;
    }

    method Start(flush: Packet)
      requires Valid() && flush.kind.Flush?
      modifies this
      ensures Valid() && View() == Put(old(View()).(abort := false), flush)
    {
      abort_request := false;
      var ret := PutPacket(flush);
    }

    /** packet_queue_get, up to the point where it would wait for the condition variable. */
    method Get() returns (got: Got)
      requires Valid()
      modifies this
      ensures Valid()
      ensures got == (if old(abort_request) then Aborted else if old(pkts) == [] then Nothing else Got(old(pkts)[0]))
      ensures View() == if got.Got? then old(View()).(entries := old(pkts)[1..]) else old(View())
    {
      if abort_request {
        return Aborted;
      }
      if pkts == [] {
        return Nothing;
      }
      var e := pkts[0];
      SumSplitFirst(Bytes(pkts));
      SumSplitFirst(Durations(pkts));
      assert Bytes(pkts[1..]) == Bytes(pkts)[1..] && Durations(pkts[1..]) == Durations(pkts)[1..];
      pkts := pkts[1..];
      nb_packets := nb_packets - 1;
      size := size - (e.pkt.size + ENTRY_SIZE);
      duration := duration - e.pkt.duration;
      got := Got(e);
    }
  }
}
