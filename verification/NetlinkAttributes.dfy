/**
The attributes of a netlink message, walked as RTA_NEXT() does, and those of
every reply.
 */
module NetlinkAttributes {
  import opened Common
  import opened Netlink
  import opened Sequences
  import opened WordBytes

  /** Where there is room for all the attributes, none is dropped. */
  lemma {:induction false} AllKept(parts: seq<seq<nat>>, room: nat)
    requires |Flat(parts)| <= room
    ensures Kept(parts, room) == Flat(parts)
    decreases |parts|
  {
    if parts != [] {
      AllKept(parts[..|parts| - 1], room);
    }
  }

  lemma {:induction false} FlatSize(parts: seq<seq<nat>>)
    requires Small(parts)
    ensures |Flat(parts)| <= 24 * |parts|
    decreases |parts|
  {
    if parts != [] {
      FlatSize(parts[..|parts| - 1]);
    }
  }

  /** RTA_OK() and RTA_NEXT(): the attributes that fill these bytes, if they do. */
  function Walked(bs: seq<nat>): Option<seq<Attr>>
    decreases |bs|
  {
    if bs == [] then Some([])
    else if |bs| < 4 then None
    else
      var n := Value(bs[..2]);
      if n < 4 || Align(n) > |bs| then None
      else
        match Walked(bs[Align(n)..])
        case None => None
        case Some(rest) => Some([Attr(Value(bs[2..4]), bs[4..n])] + rest)
  }

  /** Attributes whose lengths and kinds fit 16 bits. */
  ghost predicate Plain(attrs: seq<Attr>) {
    forall i :: 0 <= i < |attrs| ==> 4 + |attrs[i].data| < 0x1_0000 && attrs[i].kind < 0x1_0000
  }

  lemma {:induction false} AttrSlices(a: seq<nat>, b: seq<nat>, data: seq<nat>, pad: seq<nat>, rest: seq<nat>)
    requires |a| == 2 && |b| == 2
    ensures var s := (a + b + data + pad) + rest; var n := 4 + |data|;
            s[..2] == a && s[2..4] == b && s[4..n] == data && s[n + |pad|..] == rest
  {
  }

  /** One attribute is read back, and what follows is next. */
  lemma {:induction false} AttrReads(a: Attr, rest: seq<nat>)
    requires 4 + |a.data| < 0x1_0000 && a.kind < 0x1_0000
    ensures var bs := AttrBytes(a) + rest; var n := 4 + |a.data|;
            Value(bs[..2]) == n && Value(bs[2..4]) == a.kind && bs[4..n] == a.data && bs[Align(n)..] == rest
  {
    var n := 4 + |a.data|;
    AttrSlices(Bytes(n, 2), Bytes(a.kind, 2), a.data, Zeroes(Align(n) - n), rest);
    SmallValue(n, 2);
    SmallValue(a.kind, 2);
  }

  lemma {:induction false} WalkedCons(a: Attr, rest: seq<nat>, attrs: seq<Attr>)
    requires 4 + |a.data| < 0x1_0000 && a.kind < 0x1_0000 && Walked(rest) == Some(attrs)
    ensures Walked(AttrBytes(a) + rest) == Some([a] + attrs)
  {
    AttrReads(a, rest);
  }

  /** Attributes round trip. */
  lemma {:induction false} AttrsRoundTrip(attrs: seq<Attr>)
    requires Plain(attrs)
    ensures Walked(Flat(Parts(attrs))) == Some(attrs)
    decreases |attrs|
  {
    if attrs != [] {
      var rest := attrs[1..];
      AttrsRoundTrip(rest);
      PartsCons(attrs);
      WalkedCons(attrs[0], Flat(Parts(rest)), rest);
      assert [attrs[0]] + rest == attrs;
    }
  }

  lemma {:induction false} PartsCons(attrs: seq<Attr>)
    requires attrs != []
    ensures Flat(Parts(attrs)) == AttrBytes(attrs[0]) + Flat(Parts(attrs[1..]))
  {
    assert Parts(attrs)[0] == AttrBytes(attrs[0]) && Parts(attrs)[1..] == Parts(attrs[1..]);
    FlatCons(Parts(attrs));
  }

  /** The bytes after the fixed part of a payload are all its attributes. */
  lemma {:induction false} PayloadWalked(base: seq<nat>, attrs: seq<Attr>, room: nat)
    requires 144 <= room && Small(Parts(attrs)) && Plain(attrs)
    ensures Walked((base + Kept(Parts(attrs), room))[|base|..]) == Some(attrs)
  {
    FlatSize(Parts(attrs));
    AllKept(Parts(attrs), room);
    AttrsRoundTrip(attrs);
    AfterBase(base, Flat(Parts(attrs)));
  }

  lemma {:induction false} AfterBase(base: seq<nat>, rest: seq<nat>)
    ensures (base + rest)[|base|..] == rest
  {
  }

  lemma {:induction false} LoopbackPlain(family: nat)
    ensures Plain(LinkAttrs()) && Plain(AddrAttrs(family))
  {
  }

  /** A link or an address carries exactly the attributes of the loopback. */
  ghost predicate Attributed(m: Message) {
    && |m.header| == HDRLEN
    && (Kind(m) == RTM_NEWLINK ==> |m.payload| >= 16 && Walked(m.payload[16..]) == Some(LinkAttrs()))
    && (Kind(m) == RTM_NEWADDR ==>
          && |m.payload| >= 8
          && (m.payload[0] == AF_INET || m.payload[0] == AF_INET6)
          && Walked(m.payload[8..]) == Some(AddrAttrs(m.payload[0])))
  }

  lemma {:induction false} LinkAttributed(flags: nat, seq_: Word32, pid: nat, room: nat)
    requires 200 <= room
    ensures Attributed(LinkMessage(flags, seq_, pid, room))
  {
    LoopbackAttrs(AF_INET);
    LoopbackPlain(AF_INET);
    PayloadWalked(LinkBase(), LinkAttrs(), room - 32);
    var payload := LinkMessage(flags, seq_, pid, room).payload;
    PayloadKind(RTM_NEWLINK, flags, seq_, pid, payload);
  }

  lemma {:induction false} AddrAttributed(family: nat, flags: nat, seq_: Word32, pid: nat, room: nat)
    requires 200 <= room && (family == AF_INET || family == AF_INET6)
    ensures Attributed(AddrMessage(family, flags, seq_, pid, room))
  {
    var base := AddrBase(family, if family == AF_INET6 then 128 else 8);
    LoopbackAttrs(family);
    LoopbackPlain(family);
    PayloadWalked(base, AddrAttrs(family), room - 24);
    var payload := AddrMessage(family, flags, seq_, pid, room).payload;
    assert payload[0] == base[0] == family;
    PayloadKind(RTM_NEWADDR, flags, seq_, pid, payload);
  }

  lemma {:induction false} PayloadKind(kind: nat, flags: nat, seq_: nat, pid: nat, payload: seq<nat>)
    requires kind < 0x1_0000
    ensures Kind(Made(kind, flags, seq_, pid, payload)) == kind
  {
    HeaderSlices(Bytes(HDRLEN + |payload|, 4), Bytes(kind, 2), Bytes(flags, 2), Bytes(seq_, 4), Bytes(pid, 4));
    SmallValue(kind, 2);
  }

  ghost predicate AllAttributed(ms: seq<Message>) {
    forall i :: 0 <= i < |ms| ==> Attributed(ms[i])
  }

  lemma {:induction false} PlainAttributed(kind: nat, flags: nat, seq_: nat, pid: nat, payload: seq<nat>)
    requires kind == NLMSG_ERROR || kind == NLMSG_DONE
    ensures Attributed(Made(kind, flags, seq_, pid, payload))
  {
    PayloadKind(kind, flags, seq_, pid, payload);
  }

  lemma {:induction false} AttributedOne(m: Message)
    requires Attributed(m)
    ensures AllAttributed([m])
  {
  }

  lemma {:induction false} AttributedAppend(a: seq<Message>, b: seq<Message>)
    requires AllAttributed(a) && AllAttributed(b)
    ensures AllAttributed(a + b)
  {
  }

  lemma {:induction false} AddressesAttributed(family: nat, flags: nat, seq_: Word32, pid: nat)
    ensures AllAttributed(Addresses(family, flags, seq_, pid))
  {
    if family == AF_INET || family == AF_INET6 {
      AddrAttributed(family, flags, seq_, pid, MAX_REPLY);
      AttributedOne(AddrMessage(family, flags, seq_, pid, MAX_REPLY));
    } else {
      var first, second := FirstAddress(flags, seq_, pid), SecondAddress(flags, seq_, pid);
      assert Addresses(family, flags, seq_, pid) == [first] + [second];
      FirstAttributed(flags, seq_, pid);
      SecondAttributed(flags, seq_, pid);
      AttributedAppend([first], [second]);
    }
  }

  lemma {:induction false} FirstAttributed(flags: nat, seq_: Word32, pid: nat)
    ensures AllAttributed([FirstAddress(flags, seq_, pid)])
  {
    AddrAttributed(AF_INET, flags, seq_, pid, MAX_REPLY);
    AttributedOne(FirstAddress(flags, seq_, pid));
  }

  lemma {:induction false} SecondAttributed(flags: nat, seq_: Word32, pid: nat)
    ensures AllAttributed([SecondAddress(flags, seq_, pid)])
  {
    AddrAttributed(AF_INET6, flags, seq_, pid, MAX_REPLY - HDRLEN - |FirstAddress(flags, seq_, pid).payload|);
    AttributedOne(SecondAddress(flags, seq_, pid));
  }

  lemma {:induction false} BodyAttributed(r: Request, pid: nat)
    ensures AllAttributed(Body(r, pid))
  {
    if r.kind == RTM_GETLINK {
      LinkAttributed(Flags(r.dump), r.seq_, pid, MAX_REPLY);
      AttributedOne(LinkMessage(Flags(r.dump), r.seq_, pid, MAX_REPLY));
      PlainAttributed(NLMSG_ERROR, 0, r.seq_, pid, Bytes(ENODEV, 4) + Zeroes(16));
      AttributedOne(ErrorMessage(ENODEV, r.seq_, pid));
    } else if r.kind == RTM_GETADDR {
      AddressesAttributed(r.family, Flags(r.dump), r.seq_, pid);
    } else {
      PlainAttributed(NLMSG_ERROR, 0, r.seq_, pid, Bytes(0, 4) + Zeroes(16));
      AttributedOne(ErrorMessage(0, r.seq_, pid));
    }
  }

  /** In every reply no attribute is dropped, and each has the length, the kind and
      the padding that the walk of a guest expects. */
  lemma {:induction false} ReplyAttributes(r: Request, pid: nat)
    ensures AllAttributed(Reply(r, pid))
  {
    BodyAttributed(r, pid);
    PlainAttributed(NLMSG_DONE, NLM_F_MULTI, r.seq_, pid, Zeroes(4));
    AttributedOne(DoneMessage(r.seq_, pid));
    AttributedAppend(Body(r, pid), if r.dump then [DoneMessage(r.seq_, pid)] else []);
  }
}
