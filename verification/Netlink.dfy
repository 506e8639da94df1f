/**
The substitute for a rtnetlink socket: replies built as netlink messages in
a fixed buffer (message format: section 2.3.2 of RFC 3549), and their
delivery as datagrams.
 */
module Netlink {
  import opened Buffers
  import opened Common
  import opened WordBytes

  type Word32 = x: nat | x < 0x1_0000_0000 witness 0

  const HDRLEN: nat := 16
  const MAX_REPLY: nat := 8192

  const NLMSG_ERROR: nat := 2
  const NLMSG_DONE: nat := 3
  const RTM_NEWLINK: nat := 16
  const RTM_GETLINK: nat := 18
  const RTM_NEWADDR: nat := 20
  const RTM_GETADDR: nat := 22
  const NLM_F_MULTI: nat := 2

  const AF_UNSPEC: nat := 0
  const AF_INET: nat := 2
  const AF_INET6: nat := 10

  // ---------------------------------------------------------------------
  // Messages as bytes
  // ---------------------------------------------------------------------

  /** NLMSG_ALIGN and RTA_ALIGN */
  function Align(n: nat): (r: nat)
    ensures n <= r < n + 4 && r % 4 == 0
  {
    (n + 3) / 4 * 4
  }

  datatype Attr = Attr(kind: nat, data: seq<nat>)

  function AttrBytes(a: Attr): (r: seq<nat>)
    ensures |r| == Align(4 + |a.data|)
  {
    Bytes(4 + |a.data|, 2) + Bytes(a.kind, 2) + a.data + Zeroes(Align(4 + |a.data|) - 4 - |a.data|)
  }

  /** The attributes of a message, each as its bytes. */
  function Parts(attrs: seq<Attr>): seq<seq<nat>> {
    seq(|attrs|, i requires 0 <= i < |attrs| => AttrBytes(attrs[i]))
  }

  /** Attributes, without those that would pass `room`. */
  function Kept(parts: seq<seq<nat>>, room: nat): (r: seq<nat>)
    ensures |r| <= room
  {
    if parts == [] then []
    else
      var n := |parts| - 1;
      var before := Kept(parts[..n], room);
      if |before| + |parts[n]| > room then before else before + parts[n]
  }

  /** A few small attributes of whole words. */
  ghost predicate Small(parts: seq<seq<nat>>) {
    |parts| <= 6 && forall i :: 0 <= i < |parts| ==> |parts[i]| % 4 == 0 && |parts[i]| <= 24
  }

  lemma {:induction false} KeptSize(parts: seq<seq<nat>>, room: nat)
    requires Small(parts)
    ensures |Kept(parts, room)| <= 24 * |parts|
    decreases |parts|
  {
    if parts != [] {
      KeptSize(parts[..|parts| - 1], room);
    }
  }

  lemma {:induction false} KeptAligned(parts: seq<seq<nat>>, room: nat)
    requires forall i :: 0 <= i < |parts| ==> |parts[i]| % 4 == 0
    ensures |Kept(parts, room)| % 4 == 0
    decreases |parts|
  {
    if parts != [] {
      KeptAligned(parts[..|parts| - 1], room);
    }
  }

  /** A message: the sixteen bytes of its header, then its payload. */
  datatype Message = Message(header: seq<nat>, payload: seq<nat>)

  function Length(m: Message): nat
    requires |m.header| == HDRLEN
  {
    Value(m.header[..4])
  }

  function Kind(m: Message): nat
    requires |m.header| == HDRLEN
  {
    Value(m.header[4..6])
  }

  function SeqOf(m: Message): nat
    requires |m.header| == HDRLEN
  {
    Value(m.header[8..12])
  }

  /** What the format and the walk over a reply demand of a message. */
  predicate WellFormed(m: Message) {
    |m.header| == HDRLEN && |m.payload| % 4 == 0 && Length(m) == HDRLEN + |m.payload|
  }

  function Header(length: nat, kind: nat, flags: nat, seq_: nat, pid: nat): (r: seq<nat>)
    ensures |r| == HDRLEN
  {
    Bytes(length, 4) + Bytes(kind, 2) + Bytes(flags, 2) + Bytes(seq_, 4) + Bytes(pid, 4)
  }

  function Made(kind: nat, flags: nat, seq_: nat, pid: nat, payload: seq<nat>): Message {
    Message(Header(HDRLEN + |payload|, kind, flags, seq_, pid), payload)
  }

  function Encoded(m: Message): seq<nat> {
    m.header + m.payload
  }

  function AllEncoded(ms: seq<Message>): seq<nat> {
    if ms == [] then [] else Encoded(ms[0]) + AllEncoded(ms[1..])
  }

  lemma {:induction false} HeaderSlices(a: seq<nat>, b: seq<nat>, c: seq<nat>, d: seq<nat>, e: seq<nat>)
    requires |a| == 4 && |b| == 2 && |c| == 2 && |d| == 4
    ensures (a + b + c + d + e)[..4] == a && (a + b + c + d + e)[4..6] == b && (a + b + c + d + e)[8..12] == d
  {
  }

  lemma {:induction false} SmallValue(x: nat, n: nat)
    requires (n == 4 && x < 0x1_0000_0000) || (n == 2 && x < 0x1_0000)
    ensures Value(Bytes(x, n)) == x
  {
    ValueOfBytes(x, n);
    PowerOfWords();
  }

  /** The fields of a header are read back. */
  lemma {:induction false} MadeReads(kind: nat, flags: nat, seq_: nat, pid: nat, payload: seq<nat>)
    requires |payload| % 4 == 0 && |payload| < 0x1_0000 && kind < 0x1_0000 && seq_ < 0x1_0000_0000
    ensures var m := Made(kind, flags, seq_, pid, payload);
            WellFormed(m) && Kind(m) == kind && SeqOf(m) == seq_
  {
    var length := HDRLEN + |payload|;
    HeaderSlices(Bytes(length, 4), Bytes(kind, 2), Bytes(flags, 2), Bytes(seq_, 4), Bytes(pid, 4));
    SmallValue(length, 4);
    SmallValue(kind, 2);
    SmallValue(seq_, 4);
  }

  // ---------------------------------------------------------------------
  // Building in a buffer
  // ---------------------------------------------------------------------

  /** nl_add_attr() */
  method AddAttr(buf: array<nat>, off: nat, max: nat, a: Attr) returns (next: nat)
    requires off <= max <= buf.Length
    modifies buf
    ensures var bs := AttrBytes(a);
            if off + |bs| > max then next == off && buf[..] == old(buf[..])
            else next == off + |bs| && buf[..] == Put(old(buf[..]), off, bs)
  {
    var space := Align(4 + |a.data|);
    if off + space > max {
      return off;
    }
    next := CopyBytes(buf, off, AttrBytes(a));
  }

  /** The attributes of a message, one after the other. */
  method AddAttrs(buf: array<nat>, off: nat, max: nat, attrs: seq<Attr>) returns (next: nat)
    requires off <= max <= buf.Length
    modifies buf
    ensures next == off + |Kept(Parts(attrs), max - off)|
    ensures buf[..] == Put(old(buf[..]), off, Kept(Parts(attrs), max - off))
  {
    next := off;
    ghost var parts, before := Parts(attrs), buf[..];
    ghost var done, now := [], before;
    var i := 0;
    while i < |attrs|
      invariant 0 <= i <= |attrs|
      invariant next == off + |done| <= max
      invariant IsKept(parts, i, max - off, done)
      invariant now == buf[..]
      invariant IsPut(before, off, done, now)
    {
      KeptStep(parts, i, max - off);
      next, done, now := AddNext(buf, next, max, attrs[i], before, off, done, now);
      i := i + 1;
    }
    assert parts[..|parts|] == parts;
  }

  ghost predicate IsKept(parts: seq<seq<nat>>, i: nat, room: nat, done: seq<nat>) {
    i <= |parts| && done == Kept(parts[..i], room)
  }

  ghost predicate IsPut(before: seq<nat>, at: nat, bs: seq<nat>, now: seq<nat>) {
    at + |bs| <= |before| && now == Put(before, at, bs)
  }

  method AddNext(buf: array<nat>, off: nat, max: nat, a: Attr, ghost before: seq<nat>, ghost start: nat,
                 ghost done: seq<nat>, ghost was: seq<nat>)
    returns (next: nat, ghost done': seq<nat>, ghost now: seq<nat>)
    requires start <= off == start + |done| <= max <= buf.Length == |before|
    requires was == buf[..] && IsPut(before, start, done, was)
    modifies buf
    ensures done' == if |done| + |AttrBytes(a)| > max - start then done else done + AttrBytes(a)
    ensures next == start + |done'| && |done'| <= max - start
    ensures now == buf[..] && IsPut(before, start, done', now)
  {
    done' := done;
    if off + |AttrBytes(a)| <= max {
      PutPut(before, start, done, AttrBytes(a));
      done' := done + AttrBytes(a);
    }
    next := AddAttr(buf, off, max, a);
    now := buf[..];
  }

  lemma {:induction false} KeptStep(parts: seq<seq<nat>>, i: nat, room: nat)
    requires i < |parts|
    ensures var before := Kept(parts[..i], room);
            Kept(parts[..i + 1], room) == if |before| + |parts[i]| > room then before else before + parts[i]
  {
    assert parts[..i + 1][..i] == parts[..i];
  }

  /** A message with a fixed part and attributes, in what is left of the buffer. */
  function Built(kind: nat, flags: nat, seq_: nat, pid: nat, base: seq<nat>, parts: seq<seq<nat>>, room: nat): Message
    requires HDRLEN + |base| <= room
  {
    Made(kind, flags, seq_, pid, base + Kept(parts, room - HDRLEN - |base|))
  }

  /** The fixed part and the attributes, after room for the header. */
  method BuildPayload(buf: array<nat>, off: nat, max: nat, base: seq<nat>, attrs: seq<Attr>) returns (end: nat)
    requires off + HDRLEN + |base| <= max <= buf.Length
    modifies buf
    ensures var payload := base + Kept(Parts(attrs), max - off - HDRLEN - |base|);
            && end == off + HDRLEN + |payload| <= max
            && buf[..] == Put(old(buf[..]), off + HDRLEN, payload)
  {
    PutPut(buf[..], off + HDRLEN, base, Kept(Parts(attrs), max - off - HDRLEN - |base|));
    end := CopyBytes(buf, off + HDRLEN, base);
    end := AddAttrs(buf, end, max, attrs);
  }

  /** The header goes in front of a payload that is in place. */
  method WriteHeader(buf: array<nat>, off: nat, header: seq<nat>, ghost before: seq<nat>, ghost payload: seq<nat>)
    requires |header| == HDRLEN && off + HDRLEN + |payload| <= buf.Length == |before|
    requires buf[..] == Put(before, off + HDRLEN, payload)
    modifies buf
    ensures buf[..] == Put(before, off, header + payload)
  {
    HeaderInFront(before, off, header, payload);
    var _ := CopyBytes(buf, off, header);
  }

  lemma {:induction false} HeaderInFront(s: seq<nat>, off: nat, header: seq<nat>, payload: seq<nat>)
    requires off + |header| + |payload| <= |s|
    ensures Put(Put(s, off + |header|, payload), off, header) == Put(s, off, header + payload)
  {
    PutApart(s, off, header, off + |header|, payload);
    PutPut(s, off, header, payload);
  }

  lemma {:induction false} PayloadAligned(base: seq<nat>, attrs: seq<Attr>, room: nat)
    requires |base| % 4 == 0
    ensures |base + Kept(Parts(attrs), room)| % 4 == 0
    ensures Align(HDRLEN + |base + Kept(Parts(attrs), room)|) == HDRLEN + |base + Kept(Parts(attrs), room)|
  {
    KeptAligned(Parts(attrs), room);
  }

  /** The common shape of nl_build_link() and nl_build_addr(): the fixed part, the
      attributes, and at last the header with the length. */
  method BuildMessage(buf: array<nat>, off: nat, max: nat, kind: nat, flags: nat, seq_: nat, pid: nat,
                      base: seq<nat>, attrs: seq<Attr>) returns (next: nat)
    requires off <= max <= buf.Length && |base| % 4 == 0
    modifies buf
    ensures off + HDRLEN + |base| > max ==> next == off && buf[..] == old(buf[..])
    ensures off + HDRLEN + |base| <= max ==>
              var payload := base + Kept(Parts(attrs), max - off - HDRLEN - |base|);
              && next == off + HDRLEN + |payload| <= max
              && buf[..] == Put(old(buf[..]), off, Header(HDRLEN + |payload|, kind, flags, seq_, pid) + payload)
  {
    if off + HDRLEN + |base| > max {
      return off;
    }
    var end := BuildPayload(buf, off, max, base, attrs);
    ghost var payload := base + Kept(Parts(attrs), max - off - HDRLEN - |base|);
    PayloadAligned(base, attrs, max - off - HDRLEN - |base|);
    WriteHeader(buf, off, Header(end - off, kind, flags, seq_, pid), old(buf[..]), payload);
    return off + Align(end - off);
  }

  // ---------------------------------------------------------------------
  // The messages of replies
  // ---------------------------------------------------------------------

  const ARPHRD_LOOPBACK: nat := 772
  const IFLA_ADDRESS: nat := 1
  const IFLA_BROADCAST: nat := 2
  const IFLA_IFNAME: nat := 3
  const IFLA_MTU: nat := 4
  const IFLA_TXQLEN: nat := 13
  const IFLA_OPERSTATE: nat := 16
  const IFA_ADDRESS: nat := 1
  const IFA_LOCAL: nat := 2
  const IFA_LABEL: nat := 3
  const RT_SCOPE_HOST: nat := 254
  const LO: seq<nat> := [108, 111, 0]

  /** struct ifinfomsg of the loopback: up, loopback, running and lower up. */
  function LinkBase(): (r: seq<nat>)
    ensures |r| == 16
  {
    [AF_UNSPEC, 0] + Bytes(ARPHRD_LOOPBACK, 2) + Bytes(1, 4) + Bytes(0x10049, 4) + Bytes(0, 4)
  }

  function LinkAttrs(): seq<Attr> {
    [Attr(IFLA_IFNAME, LO), Attr(IFLA_MTU, Bytes(65536, 4)), Attr(IFLA_TXQLEN, Bytes(1000, 4)),
     Attr(IFLA_OPERSTATE, [6]), Attr(IFLA_ADDRESS, Zeroes(6)), Attr(IFLA_BROADCAST, Zeroes(6))]
  }

  /** struct ifaddrmsg of a permanent address of the loopback. */
  function AddrBase(family: nat, prefixlen: nat): (r: seq<nat>)
    ensures |r| == 8
  {
    [family, prefixlen, 0x80, RT_SCOPE_HOST] + Bytes(1, 4)
  }

  function AddrAttrs(family: nat): seq<Attr> {
    if family == AF_INET6 then
      var address := Zeroes(15) + [1];
      [Attr(IFA_ADDRESS, address), Attr(IFA_LOCAL, address)]
    else
      [Attr(IFA_ADDRESS, [127, 0, 0, 1]), Attr(IFA_LOCAL, [127, 0, 0, 1]), Attr(IFA_LABEL, LO)]
  }

  function LinkMessage(flags: nat, seq_: nat, pid: nat, room: nat): Message
    requires 32 <= room
  {
    Built(RTM_NEWLINK, flags, seq_, pid, LinkBase(), Parts(LinkAttrs()), room)
  }

  function AddrMessage(family: nat, flags: nat, seq_: nat, pid: nat, room: nat): Message
    requires 24 <= room
  {
    Built(RTM_NEWADDR, flags, seq_, pid, AddrBase(family, if family == AF_INET6 then 128 else 8),
          Parts(AddrAttrs(family)), room)
  }

  function DoneMessage(seq_: nat, pid: nat): Message {
    Made(NLMSG_DONE, NLM_F_MULTI, seq_, pid, Zeroes(4))
  }

  /** The error, then the header of the request, zeroed. */
  function ErrorMessage(error: nat, seq_: nat, pid: nat): Message {
    Made(NLMSG_ERROR, 0, seq_, pid, Bytes(error, 4) + Zeroes(16))
  }

  lemma {:induction false} LoopbackAttrs(family: nat)
    ensures Small(Parts(LinkAttrs())) && Small(Parts(AddrAttrs(family)))
  {
  }

  /** A message that is no NLMSG_DONE. */
  ghost predicate Answers(m: Message, seq_: nat) {
    WellFormed(m) && Kind(m) != NLMSG_DONE && SeqOf(m) == seq_
  }

  lemma {:induction false} BuiltAnswers(kind: nat, flags: nat, seq_: nat, pid: nat, base: seq<nat>,
                                        parts: seq<seq<nat>>, room: nat)
    requires HDRLEN + |base| <= room && |base| % 4 == 0 && |base| <= 16 && Small(parts)
    requires kind < 0x1_0000 && kind != NLMSG_DONE && seq_ < 0x1_0000_0000
    ensures var m := Built(kind, flags, seq_, pid, base, parts, room);
            Answers(m, seq_) && |m.payload| <= 160
  {
    KeptSize(parts, room - HDRLEN - |base|);
    KeptAligned(parts, room - HDRLEN - |base|);
    MadeAnswers(kind, flags, seq_, pid, base + Kept(parts, room - HDRLEN - |base|));
  }

  lemma {:induction false} MadeAnswers(kind: nat, flags: nat, seq_: nat, pid: nat, payload: seq<nat>)
    requires |payload| % 4 == 0 && |payload| < 0x1_0000
    requires kind < 0x1_0000 && kind != NLMSG_DONE && seq_ < 0x1_0000_0000
    ensures Answers(Made(kind, flags, seq_, pid, payload), seq_)
  {
    MadeReads(kind, flags, seq_, pid, payload);
  }

  lemma {:induction false} LinkAnswers(flags: nat, seq_: nat, pid: nat, room: nat)
    requires 32 <= room && seq_ < 0x1_0000_0000
    ensures Answers(LinkMessage(flags, seq_, pid, room), seq_)
    ensures |LinkMessage(flags, seq_, pid, room).payload| <= 160
  {
    LoopbackAttrs(AF_INET);
    BuiltAnswers(RTM_NEWLINK, flags, seq_, pid, LinkBase(), Parts(LinkAttrs()), room);
  }

  lemma {:induction false} AddrAnswers(family: nat, flags: nat, seq_: nat, pid: nat, room: nat)
    requires 32 <= room && seq_ < 0x1_0000_0000
    ensures Answers(AddrMessage(family, flags, seq_, pid, room), seq_)
    ensures |AddrMessage(family, flags, seq_, pid, room).payload| <= 160
  {
    LoopbackAttrs(family);
    BuiltAnswers(RTM_NEWADDR, flags, seq_, pid, AddrBase(family, if family == AF_INET6 then 128 else 8),
                 Parts(AddrAttrs(family)), room);
  }

  /** What the guest asks for; `wanted` and `loopback` say whether a single RTM_GETLINK is
      answered by the enumeration, respectively by the fallback. */
  datatype Request = Request(kind: nat, dump: bool, seq_: Word32, family: nat, wanted: bool, loopback: bool)

  const ENODEV: nat := 0xffff_ffed

  ghost predicate AllAnswer(ms: seq<Message>, seq_: nat) {
    forall i :: 0 <= i < |ms| ==> Answers(ms[i], seq_)
  }

  lemma {:induction false} ErrorAnswers(error: nat, seq_: nat, pid: nat)
    requires seq_ < 0x1_0000_0000
    ensures Answers(ErrorMessage(error, seq_, pid), seq_)
  {
    MadeReads(NLMSG_ERROR, 0, seq_, pid, Bytes(error, 4) + Zeroes(16));
  }

  function Flags(dump: bool): nat {
    if dump then NLM_F_MULTI else 0
  }

  /** The addresses of the loopback, one or both. */
  function Addresses(family: nat, flags: nat, seq_: Word32, pid: nat): seq<Message> {
    if family == AF_INET || family == AF_INET6 then [AddrMessage(family, flags, seq_, pid, MAX_REPLY)]
    else [FirstAddress(flags, seq_, pid), SecondAddress(flags, seq_, pid)]
  }

  function FirstAddress(flags: nat, seq_: Word32, pid: nat): (m: Message)
    ensures |m.payload| <= 160
  {
    AddrAnswers(AF_INET, flags, seq_, pid, MAX_REPLY);
    AddrMessage(AF_INET, flags, seq_, pid, MAX_REPLY)
  }

  function SecondAddress(flags: nat, seq_: Word32, pid: nat): Message {
    AddrMessage(AF_INET6, flags, seq_, pid, MAX_REPLY - HDRLEN - |FirstAddress(flags, seq_, pid).payload|)
  }

  lemma {:induction false} AddressesAnswer(family: nat, flags: nat, seq_: Word32, pid: nat)
    ensures Addresses(family, flags, seq_, pid) != [] && AllAnswer(Addresses(family, flags, seq_, pid), seq_)
  {
    if family == AF_INET || family == AF_INET6 {
      AddrAnswers(family, flags, seq_, pid, MAX_REPLY);
      OneAnswers(AddrMessage(family, flags, seq_, pid, MAX_REPLY), seq_);
    } else {
      FirstAnswers(flags, seq_, pid);
      SecondAnswers(flags, seq_, pid);
      BothAnswer(FirstAddress(flags, seq_, pid), SecondAddress(flags, seq_, pid), seq_);
    }
  }

  lemma {:induction false} FirstAnswers(flags: nat, seq_: Word32, pid: nat)
    ensures Answers(FirstAddress(flags, seq_, pid), seq_)
  {
    AddrAnswers(AF_INET, flags, seq_, pid, MAX_REPLY);
  }

  lemma {:induction false} SecondAnswers(flags: nat, seq_: Word32, pid: nat)
    ensures Answers(SecondAddress(flags, seq_, pid), seq_)
  {
    AddrAnswers(AF_INET6, flags, seq_, pid, MAX_REPLY - HDRLEN - |FirstAddress(flags, seq_, pid).payload|);
  }

  lemma {:induction false} OneAnswers(m: Message, seq_: nat)
    requires Answers(m, seq_)
    ensures AllAnswer([m], seq_)
  {
  }

  lemma {:induction false} BothAnswer(a: Message, b: Message, seq_: nat)
    requires Answers(a, seq_) && Answers(b, seq_)
    ensures AllAnswer([a, b], seq_)
  {
  }

  /** The messages before the end of a dump. */
  function Body(r: Request, pid: nat): seq<Message> {
    if r.kind == RTM_GETLINK then
      if r.dump || r.wanted || r.loopback then [LinkMessage(Flags(r.dump), r.seq_, pid, MAX_REPLY)]
      else [ErrorMessage(ENODEV, r.seq_, pid)]
    else if r.kind == RTM_GETADDR then Addresses(r.family, Flags(r.dump), r.seq_, pid)
    else if r.dump then []
    else [ErrorMessage(0, r.seq_, pid)]
  }

  /** The reply: a dump is closed by NLMSG_DONE. */
  function Reply(r: Request, pid: nat): seq<Message> {
    Body(r, pid) + if r.dump then [DoneMessage(r.seq_, pid)] else []
  }

  ghost predicate AllWellFormed(ms: seq<Message>) {
    forall i :: 0 <= i < |ms| ==> WellFormed(ms[i])
  }

  /** Only a last message can be NLMSG_DONE. */
  ghost predicate DoneLast(ms: seq<Message>)
    requires AllWellFormed(ms)
  {
    forall i :: 0 <= i < |ms| && Kind(ms[i]) == NLMSG_DONE ==> i == |ms| - 1
  }

  lemma {:induction false} BodyAnswers(r: Request, pid: nat)
    ensures AllAnswer(Body(r, pid), r.seq_)
    ensures !r.dump ==> Body(r, pid) != []
  {
    if r.kind == RTM_GETLINK {
      LinkAnswers(Flags(r.dump), r.seq_, pid, MAX_REPLY);
      OneAnswers(LinkMessage(Flags(r.dump), r.seq_, pid, MAX_REPLY), r.seq_);
      ErrorAnswers(ENODEV, r.seq_, pid);
    } else if r.kind == RTM_GETADDR {
      AddressesAnswer(r.family, Flags(r.dump), r.seq_, pid);
    } else {
      ErrorAnswers(0, r.seq_, pid);
    }
  }

  /** Every reply: well-formed messages with the sequence number of the request, and
      NLMSG_DONE last, exactly for dumps. */
  lemma {:induction false} ReplyIsWellFormed(r: Request, pid: nat)
    ensures var ms := Reply(r, pid);
            && ms != [] && AllWellFormed(ms) && DoneLast(ms)
            && (forall i :: 0 <= i < |ms| ==> SeqOf(ms[i]) == r.seq_)
            && (Kind(ms[|ms| - 1]) == NLMSG_DONE <==> r.dump)
  {
    BodyAnswers(r, pid);
    MadeReads(NLMSG_DONE, NLM_F_MULTI, r.seq_, pid, Zeroes(4));
    ClosedIsWellFormed(Body(r, pid), r.dump, r.seq_, DoneMessage(r.seq_, pid));
  }

  lemma {:induction false} ClosedIsWellFormed(body: seq<Message>, dump: bool, seq_: nat, done: Message)
    requires AllAnswer(body, seq_) && (!dump ==> body != [])
    requires WellFormed(done) && Kind(done) == NLMSG_DONE && SeqOf(done) == seq_
    ensures var ms := body + if dump then [done] else [];
            && ms != [] && AllWellFormed(ms) && DoneLast(ms)
            && (forall i :: 0 <= i < |ms| ==> SeqOf(ms[i]) == seq_)
            && (Kind(ms[|ms| - 1]) == NLMSG_DONE <==> dump)
  {
    var ms := body + if dump then [done] else [];
    forall i | 0 <= i < |ms|
      ensures WellFormed(ms[i]) && SeqOf(ms[i]) == seq_ && (Kind(ms[i]) == NLMSG_DONE <==> dump && i == |ms| - 1)
    {
      if i < |body| {
        assert ms[i] == body[i] && Answers(body[i], seq_);
      }
    }
  }

  // ---------------------------------------------------------------------
  // Building a reply
  // ---------------------------------------------------------------------

  lemma {:induction false} AllEncodedAppend(a: seq<Message>, b: seq<Message>)
    ensures AllEncoded(a + b) == AllEncoded(a) + AllEncoded(b)
    decreases |a|
  {
    if a == [] {
      assert a + b == b;
    } else {
      assert (a + b)[1..] == a[1..] + b;
      AllEncodedAppend(a[1..], b);
    }
  }

  lemma {:induction false} AllEncodedOne(m: Message)
    ensures AllEncoded([m]) == Encoded(m)
  {
    assert [m][1..] == [];
  }

  /** `off` bytes of the buffer hold these messages. */
  ghost predicate Holds(buf: seq<nat>, off: nat, ms: seq<Message>) {
    off <= |buf| && buf[..off] == AllEncoded(ms)
  }

  lemma {:induction false} HoldsMore(before: seq<nat>, off: nat, ms: seq<Message>, m: Message)
    requires Holds(before, off, ms) && off + |Encoded(m)| <= |before|
    ensures Holds(Put(before, off, Encoded(m)), off + |Encoded(m)|, ms + [m])
  {
    PutIs(before, off, Encoded(m));
    AllEncodedAppend(ms, [m]);
    AllEncodedOne(m);
  }

  /** One more message after `ms`. */
  method AppendBuilt(buf: array<nat>, off: nat, kind: nat, flags: nat, seq_: Word32, pid: nat, base: seq<nat>,
                     attrs: seq<Attr>, ghost ms: seq<Message>) returns (next: nat)
    requires off + HDRLEN + |base| <= MAX_REPLY <= buf.Length && |base| % 4 == 0 && Holds(buf[..], off, ms)
    modifies buf
    ensures var m := Built(kind, flags, seq_, pid, base, Parts(attrs), MAX_REPLY - off);
            next == off + HDRLEN + |m.payload| <= MAX_REPLY && Holds(buf[..], next, ms + [m])
  {
    ghost var before, m := buf[..], Built(kind, flags, seq_, pid, base, Parts(attrs), MAX_REPLY - off);
    next := BuildMessage(buf, off, MAX_REPLY, kind, flags, seq_, pid, base, attrs);
    assert next == off + |Encoded(m)| && buf[..] == Put(before, off, Encoded(m));
    HoldsMore(before, off, ms, m);
  }

  /** nl_build_loopback_link(), after the messages `ms` */
  method AppendLink(buf: array<nat>, off: nat, flags: nat, seq_: Word32, pid: nat, ghost ms: seq<Message>)
    returns (next: nat)
    requires off + 32 <= MAX_REPLY <= buf.Length && Holds(buf[..], off, ms)
    modifies buf
    ensures next <= off + 176 && next <= MAX_REPLY
    ensures Holds(buf[..], next, ms + [LinkMessage(flags, seq_, pid, MAX_REPLY - off)])
  {
    LinkAnswers(flags, seq_, pid, MAX_REPLY - off);
    next := AppendBuilt(buf, off, RTM_NEWLINK, flags, seq_, pid, LinkBase(), LinkAttrs(), ms);
  }

  /** nl_build_loopback_addr() */
  method AppendAddr(buf: array<nat>, off: nat, family: nat, flags: nat, seq_: Word32, pid: nat,
                    ghost ms: seq<Message>) returns (next: nat)
    requires off + 32 <= MAX_REPLY <= buf.Length && Holds(buf[..], off, ms)
    modifies buf
    ensures next <= off + 176 && next <= MAX_REPLY
    ensures Holds(buf[..], next, ms + [AddrMessage(family, flags, seq_, pid, MAX_REPLY - off)])
    ensures next == off + HDRLEN + |AddrMessage(family, flags, seq_, pid, MAX_REPLY - off).payload|
  {
    var base := AddrBase(family, if family == AF_INET6 then 128 else 8);
    AddrAnswers(family, flags, seq_, pid, MAX_REPLY - off);
    next := AppendBuilt(buf, off, RTM_NEWADDR, flags, seq_, pid, base, AddrAttrs(family), ms);
  }

  /** nl_build_done() and nl_build_error(): dropped when there is no room. */
  method AppendPlain(buf: array<nat>, off: nat, m: Message, ghost ms: seq<Message>) returns (next: nat)
    requires off <= MAX_REPLY <= buf.Length && |m.header| == HDRLEN && |m.payload| % 4 == 0
    requires Holds(buf[..], off, ms)
    modifies buf
    ensures next == if off + |Encoded(m)| > MAX_REPLY then off else off + |Encoded(m)|
    ensures Holds(buf[..], next, if off + |Encoded(m)| > MAX_REPLY then ms else ms + [m])
  {
    if off + Align(HDRLEN + |m.payload|) > MAX_REPLY {
      return off;
    }
    HoldsMore(buf[..], off, ms, m);
    next := CopyBytes(buf, off, Encoded(m));
  }

  /** The messages of a reply before its end. */
  method BuildBody(buf: array<nat>, r: Request, pid: nat) returns (off: nat)
    requires buf.Length >= MAX_REPLY
    modifies buf
    ensures off <= 400 && Holds(buf[..], off, Body(r, pid))
  {
    assert Holds(buf[..], 0, []);
    if r.kind == RTM_GETLINK {
      if r.dump || r.wanted || r.loopback {
        off := AppendLink(buf, 0, Flags(r.dump), r.seq_, pid, []);
        assert Body(r, pid) == [] + [LinkMessage(Flags(r.dump), r.seq_, pid, MAX_REPLY)];
      } else {
        off := AppendPlain(buf, 0, ErrorMessage(ENODEV, r.seq_, pid), []);
        assert Body(r, pid) == [] + [ErrorMessage(ENODEV, r.seq_, pid)];
      }
    } else if r.kind == RTM_GETADDR {
      off := BuildAddresses(buf, r.family, Flags(r.dump), r.seq_, pid);
    } else if r.dump {
      off := 0;
      assert Body(r, pid) == [];
    } else {
      off := AppendPlain(buf, 0, ErrorMessage(0, r.seq_, pid), []);
      assert Body(r, pid) == [] + [ErrorMessage(0, r.seq_, pid)];
    }
  }

  /** build_host_addrs() */
  method BuildAddresses(buf: array<nat>, family: nat, flags: nat, seq_: Word32, pid: nat) returns (off: nat)
    requires buf.Length >= MAX_REPLY
    modifies buf
    ensures off <= 400 && Holds(buf[..], off, Addresses(family, flags, seq_, pid))
  {
    var wanted := if family == AF_INET || family == AF_INET6 then family else AF_UNSPEC;
    off := 0;
    ghost var ms: seq<Message> := [];
    if wanted == AF_UNSPEC || wanted == AF_INET {
      ms := [AddrMessage(AF_INET, flags, seq_, pid, MAX_REPLY)];
      off := AppendAddr(buf, 0, AF_INET, flags, seq_, pid, []);
    }
    if wanted == AF_UNSPEC || wanted == AF_INET6 {
      off := AppendAddr(buf, off, AF_INET6, flags, seq_, pid, ms);
    }
  }

  /** build_fake_netlink_reply(): the end of a dump always fits. */
  method BuildReply(buf: array<nat>, r: Request, pid: nat) returns (length: nat)
    requires buf.Length >= MAX_REPLY
    modifies buf
    ensures length <= MAX_REPLY && Holds(buf[..], length, Reply(r, pid))
  {
    length := BuildBody(buf, r, pid);
    if r.dump {
      length := AppendPlain(buf, length, DoneMessage(r.seq_, pid), Body(r, pid));
    } else {
      assert Reply(r, pid) == Body(r, pid);
    }
  }

  // ---------------------------------------------------------------------
  // From the bytes of a request
  // ---------------------------------------------------------------------

  ghost predicate AllOctets(bs: seq<nat>) {
    forall i :: 0 <= i < |bs| ==> bs[i] < 256
  }

  lemma {:induction false} ValueBound(bs: seq<nat>)
    requires AllOctets(bs)
    ensures Value(bs) < Power(|bs|)
  {
    if bs != [] {
      ValueBound(bs[1..]);
    }
  }

  /** All the bits of NLM_F_DUMP, 0x300. */
  predicate IsDump(flags: nat) {
    flags / 256 % 4 == 3
  }

  /** The request in a message of the guest, None if it is shorter than a header. */
  function RequestIn(message: seq<nat>, wanted: bool, loopback: bool): Option<Request>
    requires AllOctets(message)
  {
    if |message| < HDRLEN then None
    else
      ValueBound(message[8..12]);
      PowerOfWords();
      Some(Request(Value(message[4..6]), IsDump(Value(message[6..8])), Value(message[8..12]),
                   if |message| > HDRLEN then message[HDRLEN] else AF_UNSPEC, wanted, loopback))
  }

  /** The reply to a message; None stands for one that can not be read. */
  function Answer(message: Option<seq<nat>>, wanted: bool, loopback: bool, pid: nat): seq<Message>
    requires message.Some? ==> AllOctets(message.value)
  {
    if message.None? then []
    else
      match RequestIn(message.value, wanted, loopback)
      case None => []
      case Some(r) => Reply(r, pid)
  }

  /** What the guest put in the header of its request is what is answered. */
  lemma {:induction false} RequestReads(length: nat, kind: nat, flags: nat, seq_: Word32, sender: nat,
                                        payload: seq<nat>, wanted: bool, loopback: bool)
    requires kind < 0x1_0000 && flags < 0x1_0000 && AllOctets(Header(length, kind, flags, seq_, sender) + payload)
    ensures RequestIn(Header(length, kind, flags, seq_, sender) + payload, wanted, loopback)
            == Some(Request(kind, IsDump(flags), seq_, if payload == [] then AF_UNSPEC else payload[0],
                            wanted, loopback))
  {
    RequestSlices(Bytes(length, 4), Bytes(kind, 2), Bytes(flags, 2), Bytes(seq_, 4), Bytes(sender, 4), payload);
    SmallValue(kind, 2);
    SmallValue(flags, 2);
    SmallValue(seq_, 4);
  }

  lemma {:induction false} RequestSlices(a: seq<nat>, b: seq<nat>, c: seq<nat>, d: seq<nat>, e: seq<nat>,
                                         rest: seq<nat>)
    requires |a| == 4 && |b| == 2 && |c| == 2 && |d| == 4 && |e| == 4
    ensures var m := a + b + c + d + e + rest;
            m[4..6] == b && m[6..8] == c && m[8..12] == d && m[16..] == rest
  {
  }

  /** build_fake_netlink_reply(), from the bytes of a request. */
  method AnswerMessage(buf: array<nat>, message: Option<seq<nat>>, wanted: bool, loopback: bool, pid: nat)
    returns (length: nat)
    requires buf.Length >= MAX_REPLY && (message.Some? ==> AllOctets(message.value))
    modifies buf
    ensures length <= MAX_REPLY && Holds(buf[..], length, Answer(message, wanted, loopback, pid))
  {
    if message.None? || |message.value| < HDRLEN {
      return 0;
    }
    length := BuildReply(buf, RequestIn(message.value, wanted, loopback).value, pid);
  }
}
