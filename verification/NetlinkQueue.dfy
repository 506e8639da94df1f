/**
Delivery of a netlink reply: datagram by datagram, the end of a dump in a
datagram of its own.
 */
module NetlinkQueue {
  import opened Common
  import opened Netlink
  import opened WordBytes

  // ---------------------------------------------------------------------
  // Datagrams
  // ---------------------------------------------------------------------

  /** The number of messages before the first NLMSG_DONE. */
  function BeforeDone(ms: seq<Message>): (k: nat)
    requires AllWellFormed(ms)
    ensures k <= |ms| && (k < |ms| ==> Kind(ms[k]) == NLMSG_DONE)
    ensures forall i :: 0 <= i < k ==> Kind(ms[i]) != NLMSG_DONE
  {
    if ms == [] || Kind(ms[0]) == NLMSG_DONE then 0 else 1 + BeforeDone(ms[1..])
  }

  /** The messages of the next datagram. */
  function Datagram(ms: seq<Message>): seq<Message>
    requires AllWellFormed(ms)
  {
    var k := BeforeDone(ms);
    if k == 0 then ms else ms[..k]
  }

  function AfterDatagram(ms: seq<Message>): seq<Message>
    requires AllWellFormed(ms)
  {
    ms[|Datagram(ms)|..]
  }

  /** Nothing is lost, NLMSG_DONE is alone in its datagram, and two datagrams are all. */
  lemma {:induction false} DatagramIs(ms: seq<Message>)
    requires AllWellFormed(ms) && DoneLast(ms)
    ensures Datagram(ms) + AfterDatagram(ms) == ms
    ensures AllWellFormed(Datagram(ms)) && AllWellFormed(AfterDatagram(ms)) && DoneLast(AfterDatagram(ms))
    ensures ms != [] ==> Datagram(ms) != []
    ensures forall i :: 0 <= i < |Datagram(ms)| && Kind(Datagram(ms)[i]) == NLMSG_DONE ==> |Datagram(ms)| == 1
    ensures AfterDatagram(ms) == [] || (|AfterDatagram(ms)| == 1 && Kind(AfterDatagram(ms)[0]) == NLMSG_DONE)
    ensures AfterDatagram(AfterDatagram(ms)) == []
  {
    var k := BeforeDone(ms);
    var first, rest := Datagram(ms), AfterDatagram(ms);
    assert k < |ms| ==> k == |ms| - 1;
    if k == 0 {
      assert first == ms && rest == [];
    } else {
      assert first == ms[..k] && rest == ms[k..];
      assert k < |ms| ==> rest == [ms[k]];
    }
    LastDatagram(rest);
  }

  /** A message on its own is a datagram. */
  lemma {:induction false} LastDatagram(rest: seq<Message>)
    requires AllWellFormed(rest) && (rest == [] || (|rest| == 1 && Kind(rest[0]) == NLMSG_DONE))
    ensures Datagram(rest) == rest && AfterDatagram(rest) == []
  {
    if rest != [] {
      assert BeforeDone(rest) == 0;
    }
  }

  lemma {:induction false} AllEncodedSplit(ms: seq<Message>, k: nat)
    requires k < |ms| && AllWellFormed(ms)
    ensures var off := |AllEncoded(ms[..k])|; var m := ms[k];
            && off + |Encoded(m)| <= |AllEncoded(ms)|
            && |AllEncoded(ms[..k + 1])| == off + |Encoded(m)|
            && AllEncoded(ms)[off..off + 4] == m.header[..4]
            && AllEncoded(ms)[off + 4..off + 6] == m.header[4..6]
  {
    var a, m, b := ms[..k], ms[k], ms[k + 1..];
    assert ms == a + ([m] + b) && ms[..k + 1] == a + [m];
    AllEncodedAppend(a, [m] + b);
    AllEncodedAppend([m], b);
    AllEncodedAppend(a, [m]);
    AllEncodedOne(m);
    MiddleSlices(AllEncoded(a), m.header, m.payload, AllEncoded(b));
  }

  lemma {:induction false} MiddleSlices(a: seq<nat>, header: seq<nat>, payload: seq<nat>, b: seq<nat>)
    requires |header| == HDRLEN
    ensures var s := a + (header + payload + b);
            s[|a|..|a| + 4] == header[..4] && s[|a| + 4..|a| + 6] == header[4..6]
  {
  }

  /** The position after k messages is in the reply, and before the k-th there is one. */
  lemma {:induction false} AtMessage(ms: seq<Message>, k: nat)
    requires k <= |ms| && AllWellFormed(ms)
    ensures |AllEncoded(ms[..k])| <= |AllEncoded(ms)|
    ensures k == |ms| ==> |AllEncoded(ms[..k])| == |AllEncoded(ms)|
    ensures k < |ms| ==> |AllEncoded(ms[..k])| + HDRLEN <= |AllEncoded(ms)|
  {
    if k < |ms| {
      AllEncodedSplit(ms, k);
    } else {
      assert ms[..k] == ms;
    }
  }

  /** fake_netlink_datagram_len() */
  method DatagramLength(reply: seq<nat>, ghost ms: seq<Message>) returns (n: nat)
    requires reply == AllEncoded(ms) && AllWellFormed(ms)
    ensures n == |AllEncoded(Datagram(ms))|
  {
    var off: nat := 0;
    ghost var k := 0;
    AtMessage(ms, 0);
    while off + HDRLEN <= |reply|
      invariant k <= |ms|
      invariant Stands(ms, k, off)
      invariant forall i :: 0 <= i < k ==> Kind(ms[i]) != NLMSG_DONE
      decreases |ms| - k
    {
      var length, kind := ReadHeader(reply, off, ms, k);
      if length < HDRLEN || off + length > |reply| {
        break;
      }
      if kind == NLMSG_DONE {
        break;
      }
      off := off + Align(length);
      k := k + 1;
    }
    WalkEnds(ms, k);
    n := if off == 0 || off > |reply| then |reply| else off;
  }

  /** `off` is where message `k` starts, or the end. */
  ghost predicate Stands(ms: seq<Message>, k: nat, off: nat)
    requires k <= |ms|
  {
    && off == |AllEncoded(ms[..k])| <= |AllEncoded(ms)|
    && (k < |ms| ==> off + HDRLEN <= |AllEncoded(ms)|)
    && (k == |ms| ==> off == |AllEncoded(ms)|)
  }

  /** The length and the kind in the header of message `k`. */
  method ReadHeader(reply: seq<nat>, off: nat, ghost ms: seq<Message>, ghost k: nat) returns (length: nat, kind: nat)
    requires reply == AllEncoded(ms) && AllWellFormed(ms) && off + HDRLEN <= |reply|
    requires k <= |ms| && Stands(ms, k, off)
    ensures k < |ms| && kind == Kind(ms[k])
    ensures length >= HDRLEN && Align(length) == length && off + length <= |reply|
    ensures Stands(ms, k + 1, off + length)
  {
    AllEncodedSplit(ms, k);
    MessageLength(ms[k]);
    NextStands(ms, k, off);
    length := Value(reply[off..off + 4]);
    kind := Value(reply[off + 4..off + 6]);
  }

  lemma {:induction false} MessageLength(m: Message)
    requires WellFormed(m)
    ensures Value(m.header[..4]) == |Encoded(m)| && |Encoded(m)| >= HDRLEN && Align(|Encoded(m)|) == |Encoded(m)|
  {
  }

  lemma {:induction false} NextStands(ms: seq<Message>, k: nat, off: nat)
    requires AllWellFormed(ms) && k < |ms| && Stands(ms, k, off)
    ensures Stands(ms, k + 1, off + |Encoded(ms[k])|)
  {
    AllEncodedSplit(ms, k);
    AtMessage(ms, k + 1);
  }

  /** The walk over a reply stops at its first NLMSG_DONE, or at its end. */
  lemma {:induction false} WalkEnds(ms: seq<Message>, k: nat)
    requires AllWellFormed(ms) && k <= |ms|
    requires forall i :: 0 <= i < k ==> Kind(ms[i]) != NLMSG_DONE
    requires k < |ms| ==> Kind(ms[k]) == NLMSG_DONE
    ensures k == BeforeDone(ms)
    ensures |AllEncoded(ms[..k])| <= |AllEncoded(ms)|
    ensures |AllEncoded(ms[..k])| == 0 <==> k == 0
  {
    AtMessage(ms, k);
    if k > 0 {
      assert ms[..k][0] == ms[0];
    }
  }

  // ---------------------------------------------------------------------
  // The socket
  // ---------------------------------------------------------------------

  /** The pending reply of a tracee. */
  class FakeSocket {
    var reply: array<nat>
    var length: nat
    var off: nat

    constructor ()
      ensures Valid() && Remaining() == [] && fresh(reply)
    {
      reply := new nat[MAX_REPLY](_ => 0);
      length, off := 0, 0;
    }

    ghost predicate Valid()
      reads this
    {
      reply.Length == MAX_REPLY && off <= length <= MAX_REPLY
    }

    function Remaining(): seq<nat>
      requires Valid()
      reads this, reply
    {
      reply[off..length]
    }

    /** A message makes its reply pending, in place of any other. */
    method Send(message: Option<seq<nat>>, wanted: bool, loopback: bool, pid: nat)
      requires Valid() && (message.Some? ==> AllOctets(message.value))
      modifies this, reply
      ensures Valid() && reply == old(reply)
      ensures Remaining() == AllEncoded(Answer(message, wanted, loopback, pid))
    {
      length, off := 0, 0;
      length := AnswerMessage(reply, message, wanted, loopback, pid);
      assert reply[..][..length] == reply[off..length];
    }

    /** recvfrom(): None when nothing is pending.  The guest's buffer has `size` bytes and can
        be written, or not. */
    method Receive(size: nat, writable: bool, peek: bool, trunc: bool, ghost ms: seq<Message>)
      returns (result: Option<nat>, data: seq<nat>)
      requires Valid() && AllWellFormed(ms) && Remaining() == AllEncoded(ms)
      modifies this
      ensures Valid() && reply == old(reply)
      ensures ms == [] ==> result == None && data == [] && Remaining() == []
      ensures ms != [] ==>
                var datagram := AllEncoded(Datagram(ms));
                && data == (if writable then datagram[..Min(size, |datagram|)] else [])
                && result == Some(if trunc then |datagram| else |data|)
                && Remaining() == AllEncoded(if peek then ms else AfterDatagram(ms))
    {
      NotEmpty(ms);
      if length - off == 0 {
        return None, [];
      }
      var n := DatagramLength(reply[off..length], ms);
      DatagramBytes(ms);
      var copied := if writable then Min(size, n) else 0;
      data := reply[off..length][..copied];
      result := Some(if trunc then n else copied);
      if !peek {
        Consume(n);
      }
    }

    /** Any receives, one after the other: what each of them gives, and what is left. */
    method ReceiveAll(calls: seq<Call>, ghost ms: seq<Message>) returns (outcomes: seq<Outcome>)
      requires Valid() && AllWellFormed(ms) && Remaining() == AllEncoded(ms)
      modifies this
      ensures Valid() && reply == old(reply)
      ensures outcomes == Outcomes(ms, calls)
      ensures AllWellFormed(Left(ms, Peeks(calls))) && Remaining() == AllEncoded(Left(ms, Peeks(calls)))
    {
      outcomes := [];
      ghost var now := ms;
      var i := 0;
      assert calls[0..] == calls;
      while i < |calls|
        invariant 0 <= i <= |calls| && Valid() && reply == old(reply)
        invariant AllWellFormed(now) && Remaining() == AllEncoded(now)
        invariant Outcomes(ms, calls) == outcomes + Outcomes(now, calls[i..])
        invariant Left(ms, Peeks(calls)) == Left(now, Peeks(calls[i..]))
      {
        var c := calls[i];
        OutcomesStep(now, calls[i..], outcomes);
        assert calls[i..][1..] == calls[i + 1..];
        var result, data := Receive(c.size, c.writable, c.peek, c.trunc, now);
        outcomes := outcomes + [Outcome(result, data)];
        now := AfterReceive(now, c);
        i := i + 1;
      }
      assert outcomes + [] == outcomes;
    }

    /** A request and the receives that follow: reads with enough room for the reply, two
        of them or more, give the guest the reply, whole and in order, whatever it peeks at. */
    method Exchange(message: Option<seq<nat>>, wanted: bool, loopback: bool, pid: nat, calls: seq<Call>)
      returns (outcomes: seq<Outcome>)
      requires Valid() && (message.Some? ==> AllOctets(message.value))
      modifies this, reply
      ensures Valid() && |outcomes| == |calls|
      ensures var ms := Answer(message, wanted, loopback, pid);
              Roomy(calls, |AllEncoded(ms)|) && Reads(Peeks(calls)) >= 2 ==>
                Taken(calls, outcomes) == AllEncoded(ms) && Remaining() == []
    {
      Send(message, wanted, loopback, pid);
      ghost var ms := Answer(message, wanted, loopback, pid);
      AnswerIsWellFormed(message, wanted, loopback, pid);
      outcomes := ReceiveAll(calls, ms);
      if Roomy(calls, |AllEncoded(ms)|) && Reads(Peeks(calls)) >= 2 {
        WholeReplyTaken(ms, calls);
      }
    }

    /** consume_fake_netlink_datagram() */
    method Consume(n: nat)
      requires Valid() && n <= |Remaining()|
      modifies this`off, this`length
      ensures Valid() && Remaining() == old(Remaining())[n..]
    {
      off := off + n;
      if off >= length {
        length, off := 0, 0;
      }
    }
  }

  lemma {:induction false} NotEmpty(ms: seq<Message>)
    requires AllWellFormed(ms)
    ensures AllEncoded(ms) == [] <==> ms == []
  {
  }

  lemma {:induction false} DatagramBytes(ms: seq<Message>)
    requires AllWellFormed(ms)
    ensures AllEncoded(ms) == AllEncoded(Datagram(ms)) + AllEncoded(AfterDatagram(ms))
  {
    assert ms == Datagram(ms) + AfterDatagram(ms);
    AllEncodedAppend(Datagram(ms), AfterDatagram(ms));
  }

  // ---------------------------------------------------------------------
  // Any receives
  // ---------------------------------------------------------------------

  /** The datagrams that a sequence of receives consumes; true stands for a peek. */
  function Delivered(ms: seq<Message>, peeks: seq<bool>): seq<seq<Message>>
    requires AllWellFormed(ms)
    decreases |peeks|
  {
    if peeks == [] || ms == [] then []
    else if peeks[0] then Delivered(ms, peeks[1..])
    else [Datagram(ms)] + Delivered(AfterDatagram(ms), peeks[1..])
  }

  /** What they leave. */
  function Left(ms: seq<Message>, peeks: seq<bool>): seq<Message>
    requires AllWellFormed(ms)
    decreases |peeks|
  {
    if peeks == [] || ms == [] then ms
    else Left(if peeks[0] then ms else AfterDatagram(ms), peeks[1..])
  }

  function Joined(ds: seq<seq<Message>>): seq<Message> {
    if ds == [] then [] else ds[0] + Joined(ds[1..])
  }

  /** The number of receives that are not peeks. */
  function Reads(peeks: seq<bool>): nat {
    if peeks == [] then 0 else (if peeks[0] then 0 else 1) + Reads(peeks[1..])
  }

  /** The most datagrams that a list of messages makes. */
  function Datagrams(ms: seq<Message>): nat
    requires AllWellFormed(ms)
  {
    if ms == [] then 0 else if AfterDatagram(ms) == [] then 1 else 2
  }

  /** A recvfrom(2): the size of the buffer, whether it can be written, MSG_PEEK and MSG_TRUNC. */
  datatype Call = Call(size: nat, writable: bool, peek: bool, trunc: bool)

  /** Its result, None when nothing is pending, and what is in the buffer. */
  datatype Outcome = Outcome(result: Option<nat>, data: seq<nat>)

  function Peeks(calls: seq<Call>): seq<bool> {
    if calls == [] then [] else [calls[0].peek] + Peeks(calls[1..])
  }

  /** What one receive gives. */
  function Received(ms: seq<Message>, c: Call): Outcome
    requires AllWellFormed(ms)
  {
    if ms == [] then Outcome(None, [])
    else
      var datagram := AllEncoded(Datagram(ms));
      var data := if c.writable then datagram[..Min(c.size, |datagram|)] else [];
      Outcome(Some(if c.trunc then |datagram| else |data|), data)
  }

  /** What it leaves pending. */
  function AfterReceive(ms: seq<Message>, c: Call): (r: seq<Message>)
    requires AllWellFormed(ms)
    ensures AllWellFormed(r)
  {
    if c.peek then ms else AfterDatagram(ms)
  }

  function Outcomes(ms: seq<Message>, calls: seq<Call>): (r: seq<Outcome>)
    requires AllWellFormed(ms)
    ensures |r| == |calls|
    decreases |calls|
  {
    if calls == [] then [] else [Received(ms, calls[0])] + Outcomes(AfterReceive(ms, calls[0]), calls[1..])
  }

  /** The bytes that the guest takes by its reads. */
  function Taken(calls: seq<Call>, outcomes: seq<Outcome>): seq<nat>
    requires |outcomes| == |calls|
  {
    if calls == [] then []
    else (if calls[0].peek then [] else outcomes[0].data) + Taken(calls[1..], outcomes[1..])
  }

  /** Every read has room for the reply. */
  ghost predicate Roomy(calls: seq<Call>, length: nat) {
    forall i :: 0 <= i < |calls| && !calls[i].peek ==> calls[i].writable && calls[i].size >= length
  }

  lemma {:induction false} EmptyStays(calls: seq<Call>)
    ensures Left([], Peeks(calls)) == [] && AfterDatagram([]) == []
  {
  }

  lemma {:induction false} OutcomesStep(ms: seq<Message>, calls: seq<Call>, before: seq<Outcome>)
    requires AllWellFormed(ms) && calls != []
    ensures var c := calls[0];
            && before + Outcomes(ms, calls) == before + [Received(ms, c)] + Outcomes(AfterReceive(ms, c), calls[1..])
            && Left(ms, Peeks(calls)) == Left(AfterReceive(ms, c), Peeks(calls[1..]))
  {
    Regroup(before, [Received(ms, calls[0])], Outcomes(AfterReceive(ms, calls[0]), calls[1..]));
    assert Peeks(calls)[1..] == Peeks(calls[1..]);
    EmptyStays(calls[1..]);
  }

  lemma {:induction false} TakenStep(ms: seq<Message>, calls: seq<Call>)
    requires AllWellFormed(ms) && calls != []
    ensures var c, rest := calls[0], calls[1..];
            Taken(calls, Outcomes(ms, calls))
            == (if c.peek then [] else Received(ms, c).data) + Taken(rest, Outcomes(AfterReceive(ms, c), rest))
  {
    assert Outcomes(ms, calls)[1..] == Outcomes(AfterReceive(ms, calls[0]), calls[1..]);
  }

  lemma {:induction false} DeliveredStep(ms: seq<Message>, calls: seq<Call>)
    requires AllWellFormed(ms) && calls != [] && ms != []
    ensures var next := Delivered(AfterReceive(ms, calls[0]), Peeks(calls[1..]));
            Delivered(ms, Peeks(calls)) == if calls[0].peek then next else [Datagram(ms)] + next
  {
    assert Peeks(calls)[1..] == Peeks(calls[1..]);
  }

  /** A read with room takes the datagram whole. */
  lemma {:induction false} ReadTakesDatagram(ms: seq<Message>, c: Call)
    requires AllWellFormed(ms) && ms != [] && c.writable && c.size >= |AllEncoded(ms)|
    ensures Received(ms, c).data == AllEncoded(Datagram(ms)) && |AllEncoded(AfterDatagram(ms))| <= |AllEncoded(ms)|
  {
    DatagramBytes(ms);
    var d := AllEncoded(Datagram(ms));
    assert d[..|d|] == d;
  }

  lemma {:induction false} NothingTaken(calls: seq<Call>)
    ensures Taken(calls, Outcomes([], calls)) == [] && Delivered([], Peeks(calls)) == []
  {
    if calls != [] {
      TakenStep([], calls);
      EmptyStays(calls[1..]);
      NothingTaken(calls[1..]);
    }
  }

  /** Reads with room give the datagrams that are delivered. */
  lemma {:induction false} TakenIsDelivered(ms: seq<Message>, calls: seq<Call>, length: nat)
    requires AllWellFormed(ms) && DoneLast(ms) && Roomy(calls, length) && |AllEncoded(ms)| <= length
    ensures AllWellFormed(Joined(Delivered(ms, Peeks(calls))))
    ensures Taken(calls, Outcomes(ms, calls)) == AllEncoded(Joined(Delivered(ms, Peeks(calls))))
    decreases |calls|
  {
    if ms == [] {
      NothingTaken(calls);
    } else if calls != [] {
      var c, rest := calls[0], calls[1..];
      TakenStep(ms, calls);
      DeliveredStep(ms, calls);
      if c.peek {
        TakenIsDelivered(ms, rest, length);
      } else {
        ReadTakesDatagram(ms, c);
        DatagramIs(ms);
        TakenIsDelivered(AfterDatagram(ms), rest, length);
        TakenOne(Datagram(ms), Delivered(AfterDatagram(ms), Peeks(rest)));
      }
    }
  }

  lemma {:induction false} TakenOne(d: seq<Message>, ds: seq<seq<Message>>)
    requires AllWellFormed(d) && AllWellFormed(Joined(ds))
    ensures Joined([d] + ds) == d + Joined(ds) && AllWellFormed(d + Joined(ds))
    ensures AllEncoded(d + Joined(ds)) == AllEncoded(d) + AllEncoded(Joined(ds))
  {
    assert ([d] + ds)[1..] == ds;
    AllEncodedAppend(d, Joined(ds));
  }

  /** With as many reads as there are datagrams, or more, that is the whole reply. */
  lemma {:induction false} WholeReplyTaken(ms: seq<Message>, calls: seq<Call>)
    requires AllWellFormed(ms) && DoneLast(ms) && Roomy(calls, |AllEncoded(ms)|)
    requires Reads(Peeks(calls)) >= Datagrams(ms)
    ensures Taken(calls, Outcomes(ms, calls)) == AllEncoded(ms) && Left(ms, Peeks(calls)) == []
  {
    TakenIsDelivered(ms, calls, |AllEncoded(ms)|);
    DeliveryIs(ms, Peeks(calls));
    var ds := Joined(Delivered(ms, Peeks(calls)));
    assert ds + [] == ds;
  }

  lemma {:induction false} AnswerIsWellFormed(message: Option<seq<nat>>, wanted: bool, loopback: bool, pid: nat)
    requires message.Some? ==> AllOctets(message.value)
    ensures var ms := Answer(message, wanted, loopback, pid); AllWellFormed(ms) && DoneLast(ms)
  {
    if message.Some? {
      match RequestIn(message.value, wanted, loopback)
      case None =>
      case Some(r) => ReplyIsWellFormed(r, pid);
    }
  }

  /** For any receives: the datagrams concatenate to the reply, NLMSG_DONE is alone in its
      own, and two reads empty the queue. */
  lemma {:induction false} DeliveryIs(ms: seq<Message>, peeks: seq<bool>)
    requires AllWellFormed(ms) && DoneLast(ms)
    ensures Joined(Delivered(ms, peeks)) + Left(ms, peeks) == ms
    ensures |Delivered(ms, peeks)| <= Datagrams(ms)
    ensures Reads(peeks) >= Datagrams(ms) ==> Left(ms, peeks) == []
    ensures forall i :: 0 <= i < |Delivered(ms, peeks)| ==> DoneAlone(Delivered(ms, peeks)[i])
    decreases |peeks|
  {
    DeliveryJoins(ms, peeks);
    DeliveryEnds(ms, peeks);
    DeliveryAlone(ms, peeks);
  }

  lemma {:induction false} DeliveryJoins(ms: seq<Message>, peeks: seq<bool>)
    requires AllWellFormed(ms) && DoneLast(ms)
    ensures Joined(Delivered(ms, peeks)) + Left(ms, peeks) == ms
    decreases |peeks|
  {
    if peeks != [] && ms != [] {
      if peeks[0] {
        DeliveryJoins(ms, peeks[1..]);
      } else {
        var rest := AfterDatagram(ms);
        DatagramIs(ms);
        DeliveryJoins(rest, peeks[1..]);
        ConsJoined(Datagram(ms), Delivered(rest, peeks[1..]), Left(rest, peeks[1..]));
      }
    }
  }

  lemma {:induction false} DeliveryEnds(ms: seq<Message>, peeks: seq<bool>)
    requires AllWellFormed(ms) && DoneLast(ms)
    ensures |Delivered(ms, peeks)| <= Datagrams(ms)
    ensures Reads(peeks) >= Datagrams(ms) ==> Left(ms, peeks) == []
    decreases |peeks|
  {
    if peeks != [] && ms != [] {
      if peeks[0] {
        DeliveryEnds(ms, peeks[1..]);
      } else {
        DatagramIs(ms);
        DeliveryEnds(AfterDatagram(ms), peeks[1..]);
      }
    }
  }

  lemma {:induction false} DeliveryAlone(ms: seq<Message>, peeks: seq<bool>)
    requires AllWellFormed(ms) && DoneLast(ms)
    ensures forall i :: 0 <= i < |Delivered(ms, peeks)| ==> DoneAlone(Delivered(ms, peeks)[i])
    decreases |peeks|
  {
    if peeks != [] && ms != [] {
      if peeks[0] {
        DeliveryAlone(ms, peeks[1..]);
      } else {
        DatagramIs(ms);
        DeliveryAlone(AfterDatagram(ms), peeks[1..]);
        assert DoneAlone(Datagram(ms));
        ConsAlone(Datagram(ms), Delivered(AfterDatagram(ms), peeks[1..]));
      }
    }
  }

  lemma {:induction false} ConsAlone(d: seq<Message>, ds: seq<seq<Message>>)
    requires DoneAlone(d) && forall i :: 0 <= i < |ds| ==> DoneAlone(ds[i])
    ensures forall i :: 0 <= i < |[d] + ds| ==> DoneAlone(([d] + ds)[i])
  {
  }

  ghost predicate DoneAlone(ms: seq<Message>) {
    AllWellFormed(ms) && forall i :: 0 <= i < |ms| && Kind(ms[i]) == NLMSG_DONE ==> |ms| == 1
  }

  lemma {:induction false} ConsJoined(d: seq<Message>, ds: seq<seq<Message>>, left: seq<Message>)
    ensures Joined([d] + ds) + left == d + (Joined(ds) + left)
  {
    assert ([d] + ds)[1..] == ds;
  }
}
