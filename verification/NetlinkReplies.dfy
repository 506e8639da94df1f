/**
What is answered to which netlink request: the kind, the flags, the sender and
the subject of every message of a reply.
 */
module NetlinkReplies {
  import opened Common
  import opened Netlink
  import opened WordBytes

  function FlagsOf(m: Message): nat
    requires |m.header| == HDRLEN
  {
    Value(m.header[6..8])
  }

  function PidOf(m: Message): nat
    requires |m.header| == HDRLEN
  {
    Value(m.header[12..16])
  }

  /** The other fields of a header are read back too. */
  lemma {:induction false} MadeSays(kind: nat, flags: nat, seq_: nat, pid: nat, payload: seq<nat>)
    requires kind < 0x1_0000 && flags < 0x1_0000 && seq_ < 0x1_0000_0000 && pid < 0x1_0000_0000
    requires |payload| % 4 == 0 && |payload| < 0x1_0000
    ensures var m := Made(kind, flags, seq_, pid, payload);
            && |m.header| == HDRLEN && Kind(m) == kind && FlagsOf(m) == flags && SeqOf(m) == seq_ && PidOf(m) == pid
            && m.payload == payload
  {
    var m := Made(kind, flags, seq_, pid, payload);
    MadeReads(kind, flags, seq_, pid, payload);
    OtherSlices(Bytes(HDRLEN + |payload|, 4), Bytes(kind, 2), Bytes(flags, 2), Bytes(seq_, 4), Bytes(pid, 4));
    SmallValue(flags, 2);
    SmallValue(pid, 4);
  }

  lemma {:induction false} OtherSlices(a: seq<nat>, b: seq<nat>, c: seq<nat>, d: seq<nat>, e: seq<nat>)
    requires |a| == 4 && |b| == 2 && |c| == 2 && |d| == 4 && |e| == 4
    ensures (a + b + c + d + e)[6..8] == c && (a + b + c + d + e)[12..16] == e
  {
  }

  /** A message marked as a part of a dump or not, and sent to this process. */
  ghost predicate Marked(m: Message, dump: bool, pid: nat) {
    |m.header| == HDRLEN && PidOf(m) == pid && FlagsOf(m) == (if dump then 2 else 0)
  }

  ghost predicate Says(m: Message, kind: nat, dump: bool, pid: nat) {
    Marked(m, dump, pid) && Kind(m) == kind
  }

  /** RTM_NEWLINK about interface 1, a loopback that is up. */
  ghost predicate SaysLink(m: Message, dump: bool, pid: nat) {
    && Says(m, 16, dump, pid) && |m.payload| >= 16
    && Value(m.payload[2..4]) == 772 && Value(m.payload[4..8]) == 1 && Value(m.payload[8..12]) == 0x10049
  }

  /** RTM_NEWADDR about a permanent address of that family, local to the host, of
      interface 1. */
  ghost predicate SaysAddress(m: Message, family: nat, dump: bool, pid: nat) {
    && Says(m, 20, dump, pid) && |m.payload| >= 8
    && m.payload[..4] == [family, if family == 10 then 128 else 8, 0x80, 254]
    && Value(m.payload[4..8]) == 1
  }

  /** NLMSG_ERROR with this error. */
  ghost predicate SaysError(m: Message, error: nat, pid: nat) {
    Says(m, 2, false, pid) && |m.payload| >= 4 && Value(m.payload[..4]) == error
  }

  lemma {:induction false} LinkSays(dump: bool, seq_: nat, pid: nat, room: nat)
    requires 32 <= room && seq_ < 0x1_0000_0000 && pid < 0x1_0000_0000
    ensures SaysLink(LinkMessage(Flags(dump), seq_, pid, room), dump, pid)
  {
    var m := LinkMessage(Flags(dump), seq_, pid, room);
    LinkAnswers(Flags(dump), seq_, pid, room);
    MadeSays(16, Flags(dump), seq_, pid, m.payload);
    LinkIndex(m.payload);
  }

  lemma {:induction false} LinkIndex(payload: seq<nat>)
    requires LinkBase() <= payload
    ensures |payload| >= 16 && Value(payload[2..4]) == 772 && Value(payload[4..8]) == 1
    ensures Value(payload[8..12]) == 0x10049
  {
    LinkSlice([AF_UNSPEC, 0], Bytes(ARPHRD_LOOPBACK, 2), Bytes(1, 4), Bytes(0x10049, 4), Bytes(0, 4));
    assert payload[2..4] == LinkBase()[2..4] && payload[4..8] == LinkBase()[4..8];
    assert payload[8..12] == LinkBase()[8..12];
    SmallValue(772, 2);
    SmallValue(1, 4);
    SmallValue(0x10049, 4);
  }

  lemma {:induction false} LinkSlice(a: seq<nat>, b: seq<nat>, c: seq<nat>, d: seq<nat>, e: seq<nat>)
    requires |a| == 2 && |b| == 2 && |c| == 4 && |d| == 4
    ensures (a + b + c + d + e)[2..4] == b && (a + b + c + d + e)[4..8] == c && (a + b + c + d + e)[8..12] == d
  {
  }

  lemma {:induction false} AddressSays(family: nat, dump: bool, seq_: nat, pid: nat, room: nat)
    requires 32 <= room && seq_ < 0x1_0000_0000 && pid < 0x1_0000_0000
    ensures SaysAddress(AddrMessage(family, Flags(dump), seq_, pid, room), family, dump, pid)
  {
    var m := AddrMessage(family, Flags(dump), seq_, pid, room);
    AddrAnswers(family, Flags(dump), seq_, pid, room);
    MadeSays(20, Flags(dump), seq_, pid, m.payload);
    AddressIndex(family, m.payload);
  }

  lemma {:induction false} AddressIndex(family: nat, payload: seq<nat>)
    requires AddrBase(family, if family == 10 then 128 else 8) <= payload
    ensures |payload| >= 8 && payload[..4] == [family, if family == 10 then 128 else 8, 0x80, 254]
    ensures Value(payload[4..8]) == 1
  {
    var base := AddrBase(family, if family == 10 then 128 else 8);
    assert payload[..4] == base[..4] && payload[4..8] == base[4..8] == Bytes(1, 4);
    SmallValue(1, 4);
  }

  /** What the loopback is said to be, attribute by attribute: named "lo", an MTU of 65536,
      a queue of 1000, up, and without hardware address; 127.0.0.1 and ::1. */
  lemma {:induction false} LoopbackIs()
    ensures LinkAttrs() == [Attr(3, [108, 111, 0]), Attr(4, [0, 0, 1, 0]), Attr(13, [232, 3, 0, 0]), Attr(16, [6]),
                            Attr(1, [0, 0, 0, 0, 0, 0]), Attr(2, [0, 0, 0, 0, 0, 0])]
    ensures AddrAttrs(2) == [Attr(1, [127, 0, 0, 1]), Attr(2, [127, 0, 0, 1]), Attr(3, [108, 111, 0])]
    ensures var one := [0, 0, 0, 0, 0, 0, 0, 0, 0, 0, 0, 0, 0, 0, 0, 1];
            AddrAttrs(10) == [Attr(1, one), Attr(2, one)]
  {
    FourBytes(65536, 0, 0, 1, 0);
    FourBytes(1000, 232, 3, 0, 0);
    assert Zeroes(6) == [0, 0, 0, 0, 0, 0];
    assert Zeroes(15) + [1] == [0, 0, 0, 0, 0, 0, 0, 0, 0, 0, 0, 0, 0, 0, 0, 1];
  }

  lemma {:induction false} FourBytes(w: nat, a: nat, b: nat, c: nat, d: nat)
    requires a < 256 && b < 256 && c < 256 && d < 256 && w == a + 256 * (b + 256 * (c + 256 * d))
    ensures Bytes(w, 4) == [a, b, c, d]
  {
    var x, y := b + 256 * (c + 256 * d), c + 256 * d;
    assert w % 256 == a && w / 256 == x && x % 256 == b && x / 256 == y && y % 256 == c && y / 256 == d;
    assert Bytes(w, 4) == [a] + Bytes(x, 3) && Bytes(x, 3) == [b] + Bytes(y, 2);
    assert Bytes(y, 2) == [c] + Bytes(d, 1) && Bytes(d, 1) == [d] + Bytes(d / 256, 0);
  }

  /** What is read from the bytes of a request: nothing from fewer than 16; the kind, the
      sequence number, a dump exactly if both bits of NLM_F_DUMP are set, and the family
      of the body, if there is one. */
  lemma {:induction false} RequestIs(m: seq<nat>, wanted: bool, loopback: bool, pid: nat)
    requires AllOctets(m)
    ensures RequestIn(m, wanted, loopback).None? <==> |m| < 16
    ensures Answer(Some(m), wanted, loopback, pid) == [] <==> |m| < 16
    ensures Answer(None, wanted, loopback, pid) == []
    ensures |m| >= 16 ==>
              var q := RequestIn(m, wanted, loopback).value;
              && q.kind == m[4] + 256 * m[5] && (q.dump <==> m[7] % 4 == 3)
              && q.family == (if |m| > 16 then m[16] else 0) && q.wanted == wanted && q.loopback == loopback
  {
    if |m| >= 16 {
      TwoBytes(m[4..6]);
      TwoBytes(m[6..8]);
      DumpBits(m[6], m[7]);
      AnswerIsReply(m, wanted, loopback, pid);
    }
  }

  lemma {:induction false} AnswerIsReply(m: seq<nat>, wanted: bool, loopback: bool, pid: nat)
    requires AllOctets(m) && |m| >= 16
    ensures Answer(Some(m), wanted, loopback, pid) != []
  {
    ReplyIsWellFormed(RequestIn(m, wanted, loopback).value, pid);
  }

  lemma {:induction false} DumpBits(a: nat, b: nat)
    requires a < 256
    ensures IsDump(a + 256 * b) <==> b % 4 == 3
  {
    assert (a + 256 * b) / 256 == b;
  }

  lemma {:induction false} TwoBytes(bs: seq<nat>)
    requires |bs| == 2
    ensures Value(bs) == bs[0] + 256 * bs[1]
  {
    assert Value(bs[1..][1..]) == 0;
    assert Value(bs[1..]) == bs[1];
  }

  lemma {:induction false} ErrorSays(error: nat, seq_: nat, pid: nat)
    requires error < 0x1_0000_0000 && seq_ < 0x1_0000_0000 && pid < 0x1_0000_0000
    ensures SaysError(ErrorMessage(error, seq_, pid), error, pid)
  {
    MadeSays(2, 0, seq_, pid, Bytes(error, 4) + Zeroes(16));
    assert (Bytes(error, 4) + Zeroes(16))[..4] == Bytes(error, 4);
    SmallValue(error, 4);
  }

  /** RTM_GETADDR: the address of the family that is asked for, or both. */
  lemma {:induction false} AddressesAre(family: nat, dump: bool, seq_: Word32, pid: nat)
    requires pid < 0x1_0000_0000
    ensures var ms := Addresses(family, Flags(dump), seq_, pid);
            if family == 2 || family == 10 then |ms| == 1 && SaysAddress(ms[0], family, dump, pid)
            else |ms| == 2 && SaysAddress(ms[0], 2, dump, pid) && SaysAddress(ms[1], 10, dump, pid)
  {
    if family == 2 || family == 10 {
      AddressSays(family, dump, seq_, pid, MAX_REPLY);
    } else {
      FirstSays(dump, seq_, pid);
      SecondSays(dump, seq_, pid);
    }
  }

  lemma {:induction false} FirstSays(dump: bool, seq_: Word32, pid: nat)
    requires pid < 0x1_0000_0000
    ensures SaysAddress(FirstAddress(Flags(dump), seq_, pid), 2, dump, pid)
  {
    AddressSays(2, dump, seq_, pid, MAX_REPLY);
  }

  lemma {:induction false} SecondSays(dump: bool, seq_: Word32, pid: nat)
    requires pid < 0x1_0000_0000
    ensures SaysAddress(SecondAddress(Flags(dump), seq_, pid), 10, dump, pid)
  {
    AddressSays(10, dump, seq_, pid, MAX_REPLY - HDRLEN - |FirstAddress(Flags(dump), seq_, pid).payload|);
  }

  /** The messages before the end of a dump, by the number of the request: 18 is
      RTM_GETLINK, 22 RTM_GETADDR; -19 is the error of an unknown interface. */
  lemma {:induction false} BodyIs(r: Request, pid: nat)
    requires pid < 0x1_0000_0000
    ensures var ms := Body(r, pid);
            if r.kind == 18 then
              && |ms| == 1
              && (if r.dump || r.wanted || r.loopback then SaysLink(ms[0], r.dump, pid)
                  else SaysError(ms[0], 0x1_0000_0000 - 19, pid))
            else if r.kind == 22 then ms == Addresses(r.family, Flags(r.dump), r.seq_, pid)
            else if r.dump then ms == []
            else |ms| == 1 && SaysError(ms[0], 0, pid)
  {
    LinkSays(r.dump, r.seq_, pid, MAX_REPLY);
    ErrorSays(ENODEV, r.seq_, pid);
    ErrorSays(0, r.seq_, pid);
  }

  lemma {:induction false} BodyMarked(r: Request, pid: nat, i: nat)
    requires pid < 0x1_0000_0000 && i < |Body(r, pid)|
    ensures Marked(Body(r, pid)[i], r.dump, pid)
  {
    BodyIs(r, pid);
    if r.kind == 22 {
      AddressesAre(r.family, r.dump, r.seq_, pid);
    }
  }

  /** Every reply: these messages, and a last one that says that a dump is over, exactly
      for dumps; all of them are marked as parts of a dump, exactly for dumps, and sent
      to the process that asked. */
  lemma {:induction false} ReplyIs(r: Request, pid: nat)
    requires pid < 0x1_0000_0000
    ensures var ms := Reply(r, pid);
            && Body(r, pid) <= ms && |ms| == |Body(r, pid)| + (if r.dump then 1 else 0)
            && (r.dump ==> Says(ms[|ms| - 1], 3, true, pid))
            && forall i :: 0 <= i < |ms| ==> Marked(ms[i], r.dump, pid)
  {
    MadeSays(3, 2, r.seq_, pid, Zeroes(4));
    var body, ms := Body(r, pid), Reply(r, pid);
    forall i | 0 <= i < |ms| ensures Marked(ms[i], r.dump, pid) {
      if i < |body| {
        BodyMarked(r, pid, i);
      }
    }
  }
}
