/**
 The NFQUEUE worker's packet path: the attribute walk over a kernel message, the
 verdict that answers it, and the walk over the frames of a datagram, all on one
 receive buffer that is rewritten in place.
 Netlink header fields are little-endian here, nfqueue fields big-endian.
 */
module Nfqueue {
  import opened Wrappers
  import opened Bytes
  import opened Packet

  const NFQA_PACKET_HDR: nat := 1
  const NFQA_VERDICT_HDR: nat := 2
  const NFQA_PAYLOAD: nat := 10
  const NFQA_CAP_LEN: nat := 13
  const NF_INET_FORWARD: nat := 2
  const ETH_IPV4: nat := 0x0800
  const NLMSG_ERROR: nat := 2
  const QUEUE_PACKET: nat := 0x0300
  const QUEUE_VERDICT: nat := 0x0301

  // ----------------------------------------------------------- attribute walk

  /** One attribute: its type without the flag bits, and where its value lies. */
  datatype Attribute = Attribute(kind: nat, at: nat, len: nat)

  predicate Fits(m: bytes, off: nat)
    requires off + 4 <= |m|
  {
    4 <= Le16(m, off) && off + Le16(m, off) <= |m|
  }

  function AttributeAt(m: bytes, off: nat): (a: Attribute)
    requires off + 4 <= |m| && Fits(m, off)
    ensures a.at + a.len <= |m| && a.len <= 65531
  {
    Attribute(Le16(m, off + 2) % 0x4000, off + 4, Le16(m, off) - 4)
  }

  /** The attributes from `off` on; none when one of them does not fit. */
  function Attributes(m: bytes, off: nat): (r: Option<seq<Attribute>>)
    decreases |m| - off
  {
    if off + 4 > |m| then Some([])
    else if !Fits(m, off) then None
    else
      var rest := Attributes(m, off + Align4(Le16(m, off)));
      if rest.None? then None else Some([AttributeAt(m, off)] + rest.value)
  }

  /** What the verdict needs of a message. Later attributes override earlier ones. */
  datatype Seen = Seen(id: Option<bytes>, hook: nat, proto: nat, cap: Option<nat>, payload: Option<(nat, nat)>)

  const NOTHING_SEEN: Seen := Seen(None, 255, 0, None, None)

  function Note(m: bytes, s: Seen, a: Attribute): Seen
    requires a.at + a.len <= |m|
  {
    if a.kind == NFQA_PACKET_HDR && a.len >= 7 then
      s.(id := Some(m[a.at..a.at + 4]), proto := Be16(m, a.at + 4), hook := Byte(m, a.at + 6))
    else if a.kind == NFQA_PAYLOAD then s.(payload := Some((a.at, a.len)))
    else if a.kind == NFQA_CAP_LEN && a.len == 4 then s.(cap := Some(Be32(m, a.at)))
    else s
  }

  function Scan(m: bytes, off: nat, s: Seen): (r: Option<Seen>)
    decreases |m| - off
  {
    if off + 4 > |m| then Some(s)
    else if !Fits(m, off) then None
    else Scan(m, off + Align4(Le16(m, off)), Note(m, s, AttributeAt(m, off)))
  }

  predicate Sane(m: bytes, s: Seen) {
    && (s.id.Some? ==> |s.id.value| == 4)
    && (s.payload.Some? ==> s.payload.value.0 + s.payload.value.1 <= |m| && s.payload.value.1 <= 65531)
  }

  lemma {:induction false} ScanIsSane(m: bytes, off: nat, s: Seen)
    requires Sane(m, s)
    ensures Scan(m, off, s).Some? ==> Sane(m, Scan(m, off, s).value)
    decreases |m| - off
  {
    if off + 4 <= |m| && Fits(m, off) {
      ScanIsSane(m, off + Align4(Le16(m, off)), Note(m, s, AttributeAt(m, off)));
    }
  }

  predicate Within(m: bytes, attributes: seq<Attribute>) {
    forall i | 0 <= i < |attributes| :: attributes[i].at + attributes[i].len <= |m|
  }

  lemma {:induction false} AttributesWithin(m: bytes, off: nat)
    ensures Attributes(m, off).Some? ==> Within(m, Attributes(m, off).value)
    decreases |m| - off
  {
    if off + 4 <= |m| && Fits(m, off) {
      AttributesWithin(m, off + Align4(Le16(m, off)));
    }
  }

  function NoteAll(m: bytes, s: Seen, attributes: seq<Attribute>): Seen
    requires Within(m, attributes)
    decreases |attributes|
  {
    if attributes == [] then s else NoteAll(m, Note(m, s, attributes[0]), attributes[1..])
  }

  /** The scan reads exactly the attributes of the walk, in order. */
  lemma {:induction false} ScanReadsAttributes(m: bytes, off: nat, s: Seen)
    ensures Scan(m, off, s).Some? <==> Attributes(m, off).Some?
    ensures Attributes(m, off).Some? ==>
      Within(m, Attributes(m, off).value) && Scan(m, off, s) == Some(NoteAll(m, s, Attributes(m, off).value))
    decreases |m| - off
  {
    AttributesWithin(m, off);
    if off + 4 <= |m| && Fits(m, off) {
      var next := off + Align4(Le16(m, off));
      ScanReadsAttributes(m, next, Note(m, s, AttributeAt(m, off)));
      if Attributes(m, next).Some? {
        assert ([AttributeAt(m, off)] + Attributes(m, next).value)[1..] == Attributes(m, next).value;
      }
    }
  }

  // ------------------------------------------------------------------- replies

  function AttributeBytes(kind: nat, value: bytes): (b: bytes)
    requires kind < 0x10000 && |value| <= 65531
    ensures |b| == Align4(4 + |value|)
  {
    PadTo4(PutLe16(4 + |value|) + PutLe16(kind) + value)
  }

  /** finish_len: the first four bytes hold the size. */
  function Finished(b: bytes): (f: bytes)
    requires |b| >= 4
    ensures |f| == |b|
  {
    PutLe32(|b| % 0x1_0000_0000) + b[4..]
  }

  /** begin_into: the netlink header with NLM_F_REQUEST, and the nfqueue header for AF_INET. */
  function Beginning(kind: nat, queue: nat): (b: bytes)
    requires kind < 0x10000 && queue < 0x10000
    ensures |b| == 20
  {
    PutLe32(20) + PutLe16(kind) + PutLe16(1) + PutLe32(0) + PutLe32(0) + [2, 0, queue / 0x100, queue % 0x100]
  }

  function Appended(b: bytes, kind: nat, value: bytes): bytes
    requires kind < 0x10000 && |value| <= 65531
  {
    Finished(PadTo4(b) + AttributeBytes(kind, value))
  }

  /** The message that accepts packet `id`, with a replacement payload or without. */
  function Reply(queue: nat, id: bytes, payload: Option<bytes>): bytes
    requires queue < 0x10000 && |id| == 4 && (payload.Some? ==> |payload.value| <= 65531)
  {
    var accept := Appended(Beginning(QUEUE_VERDICT, queue), NFQA_VERDICT_HDR, [0, 0, 0, 1] + id);
    if payload.Some? then Appended(accept, NFQA_PAYLOAD, payload.value) else accept
  }

  lemma AttributeLayout(kind: nat, value: bytes)
    requires kind < 0x4000 && |value| <= 65531
    ensures var a := AttributeBytes(kind, value);
      Le16(a, 0) == 4 + |value| && Le16(a, 2) == kind && a[4..4 + |value|] == value
  {
    var n := 4 + |value|;
    var pad := Zeros(Align4(n) - n);
    LayoutReadsBack(n, kind, value, pad);
    assert AttributeBytes(kind, value) == PutLe16(n) + PutLe16(kind) + value + pad by {
      hide PutLe16, Zeros;
    }
    hide PutLe16, Le16, AttributeBytes;
  }

  /** Appending an attribute to an aligned message: it lies at the old end, the rest stays, the length is right. */
  lemma AppendedAttribute(b: bytes, kind: nat, value: bytes)
    requires |b| >= 4 && |b| % 4 == 0 && |b| + Align4(4 + |value|) < 0x1_0000_0000 && kind < 0x4000 && |value| <= 65531
    ensures var r := Appended(b, kind, value);
      && |r| == |b| + Align4(4 + |value|) && Le32(r, 0) == |r| && r[4..|b|] == b[4..]
      && Fits(r, |b|) && AttributeAt(r, |b|) == Attribute(kind, |b| + 4, |value|)
      && r[|b| + 4..|b| + 4 + |value|] == value
  {
    hide AttributeBytes, Finished, PadTo4, Le16, Le32;
    var a := AttributeBytes(kind, value);
    var r := Appended(b, kind, value);
    AttributeLayout(kind, value);
    PaddedAlready(b);
    FinishedBytes(b, a);
    AttributeBehind(r, |b|, a, kind, value);
  }

  /** An attribute's bytes at the end of a message are that attribute to the walk. */
  lemma AttributeBehind(r: bytes, at: nat, a: bytes, kind: nat, value: bytes)
    requires at <= |r| && r[at..] == a && |a| >= 4 + |value| && kind < 0x4000 && |value| <= 65531
    requires Le16(a, 0) == 4 + |value| && Le16(a, 2) == kind && a[4..4 + |value|] == value
    ensures Fits(r, at) && AttributeAt(r, at) == Attribute(kind, at + 4, |value|)
    ensures r[at + 4..at + 4 + |value|] == value
  {
    Le16Tail(r, at, 0);
    Le16Tail(r, at, 2);
    hide Le16;
    assert r[at + 4..at + 4 + |value|] == r[at..][4..4 + |value|];
  }

  lemma PaddedAlready(b: bytes)
    requires |b| % 4 == 0
    ensures PadTo4(b) == b
  {
  }

  lemma FinishedBytes(b: bytes, a: bytes)
    requires |b| >= 4 && |b + a| < 0x1_0000_0000
    ensures var r := Finished(b + a); Le32(r, 0) == |r| && r[4..|b|] == b[4..] && r[|b|..] == a
  {
    var size, tail := PutLe32(|b + a|), (b + a)[4..];
    SizeReadsBack(|b + a|, tail);
    SameBehind(size, b, a);
    assert Finished(b + a) == size + tail;
    hide PutLe32, Le32, Finished;
  }

  /** Replacing the first four bytes leaves the rest in place. */
  lemma SameBehind(head: bytes, b: bytes, a: bytes)
    requires |head| == 4 <= |b|
    ensures var r := head + (b + a)[4..]; r[4..|b|] == b[4..] && r[|b|..] == a
  {
    var tail := (b + a)[4..];
    assert (head + tail)[4..] == tail;
    assert (head + tail)[4..|b|] == tail[..|b| - 4] == (b + a)[4..|b|] == b[4..];
    assert (head + tail)[|b|..] == tail[|b| - 4..] == (b + a)[|b|..] == a;
  }

  /** The reply r, parsed with the walk the worker itself uses: accept packet `id`, with this payload or without one. */
  predicate AcceptsPacket(r: bytes, queue: nat, id: bytes, payload: Option<bytes>)
    requires |id| == 4
  {
    && |r| == 32 + (if payload.Some? then Align4(4 + |payload.value|) else 0)
    && Le32(r, 0) == |r| && Le16(r, 4) == QUEUE_VERDICT && Le16(r, 6) == 1 && Be16(r, 18) == queue
    && Attributes(r, 20) == Some([Attribute(NFQA_VERDICT_HDR, 24, 8)]
         + if payload.Some? then [Attribute(NFQA_PAYLOAD, 36, |payload.value|)] else [])
    && Be32(r, 24) == 1 && r[28..32] == id
    && (payload.Some? ==> r[36..36 + |payload.value|] == payload.value)
  }

  lemma ReplyReadsBack(queue: nat, id: bytes, payload: Option<bytes>)
    requires queue < 0x10000 && |id| == 4 && (payload.Some? ==> |payload.value| <= 65531)
    ensures AcceptsPacket(Reply(queue, id, payload), queue, id, payload)
  {
    var b := Beginning(QUEUE_VERDICT, queue);
    var header := [0, 0, 0, 1] + id;
    var accept := Appended(b, NFQA_VERDICT_HDR, header);
    AppendedAttribute(b, NFQA_VERDICT_HDR, header);
    HeaderOfReply(accept, queue);
    assert accept[24..32] == header;
    assert accept[28..32] == accept[24..32][4..] == id;
    assert accept[24] == accept[24..32][0] && accept[25] == accept[24..32][1];
    assert accept[26] == accept[24..32][2] && accept[27] == accept[24..32][3];
    var r := Reply(queue, id, payload);
    if payload.Some? {
      AppendedAttribute(accept, NFQA_PAYLOAD, payload.value);
      assert forall i | 4 <= i < 32 :: r[i] == r[4..32][i - 4] == accept[4..][i - 4] == accept[i];
      assert r[28..32] == accept[28..32];
    }
    AttributesOfReply(r);
  }

  lemma HeaderOfReply(accept: bytes, queue: nat)
    requires |accept| >= 20 && queue < 0x10000 && accept[4..20] == Beginning(QUEUE_VERDICT, queue)[4..]
    ensures Le16(accept, 4) == QUEUE_VERDICT && Le16(accept, 6) == 1 && Be16(accept, 18) == queue
  {
    var b := Beginning(QUEUE_VERDICT, queue);
    assert forall i | 4 <= i < 20 :: accept[i] == accept[4..20][i - 4] == b[4..][i - 4] == b[i];
  }

  lemma AttributesOfReply(r: bytes)
    requires |r| >= 32 && Fits(r, 20) && AttributeAt(r, 20) == Attribute(NFQA_VERDICT_HDR, 24, 8)
    requires |r| > 32 ==> |r| >= 36 && Fits(r, 32) && |r| == 32 + Align4(Le16(r, 32))
    ensures Attributes(r, 20) == Some([AttributeAt(r, 20)] + if |r| > 32 then [AttributeAt(r, 32)] else [])
  {
    if |r| > 32 {
      assert Attributes(r, |r|) == Some([]);
      assert [AttributeAt(r, 32)] + [] == [AttributeAt(r, 32)];
      assert Attributes(r, 32) == Some([AttributeAt(r, 32)]);
    } else {
      assert Attributes(r, 32) == Some([]);
    }
  }

  // ------------------------------------------------------------------- verdicts

  datatype Refusal = ShortMessage | WrongQueue | BadAttribute | MissingId

  /** A forwarded IPv4 packet whose payload the kernel sent along. */
  predicate Considered(s: Seen) { s.proto == ETH_IPV4 && s.hook == NF_INET_FORWARD && s.payload.Some? }

  /** CAP_LEN, when present, must say that the payload is the whole packet. */
  predicate Complete(s: Seen)
    requires s.payload.Some?
  {
    s.cap.Some? ==> s.cap.value == s.payload.value.1
  }

  function PayloadOf(m: bytes, s: Seen): bytes
    requires Sane(m, s) && s.payload.Some?
  {
    m[s.payload.value.0..s.payload.value.0 + s.payload.value.1]
  }

  predicate Rewrites(m: bytes, s: Seen, ttl: u8)
    requires Sane(m, s)
  {
    Considered(s) && Complete(s) && Rewritable(PayloadOf(m, s), ttl)
  }

  predicate Truncates(s: Seen) { Considered(s) && !Complete(s) }

  /** What a message says, or why it is refused. */
  function Read(m: bytes, queue: nat): (r: Result<Seen, Refusal>)
    ensures r.Ok? ==> Sane(m, r.value) && r.value.id.Some?
  {
    ScanIsSane(m, 20, NOTHING_SEEN);
    if |m| < 20 then Err(ShortMessage)
    else if Be16(m, 18) != queue then Err(WrongQueue)
    else
      var s := Scan(m, 20, NOTHING_SEEN);
      if s.None? then Err(BadAttribute)
      else if s.value.id.None? then Err(MissingId)
      else Ok(s.value)
  }

  /** The replacement payload, if the packet is rewritten. */
  function Replacement(m: bytes, s: Seen, ttl: u8): (p: Option<bytes>)
    requires Sane(m, s)
    ensures p.Some? <==> Rewrites(m, s, ttl)
    ensures p.Some? ==> |p.value| == s.payload.value.1 <= 65531
  {
    if Rewrites(m, s, ttl) then Some(Rewritten(PayloadOf(m, s), ttl)) else None
  }

  /** The message once its payload has been rewritten in place. */
  function Afterwards(m: bytes, s: Seen, ttl: u8): (a: bytes)
    requires Sane(m, s)
    ensures |a| == |m|
  {
    if Rewrites(m, s, ttl) then
      m[..s.payload.value.0] + Rewritten(PayloadOf(m, s), ttl) + m[s.payload.value.0 + s.payload.value.1..]
    else m
  }

  function Answer(m: bytes, queue: nat, ttl: u8): (r: Result<bytes, Refusal>)
    requires queue < 0x10000
  {
    var seen := Read(m, queue);
    if seen.Err? then Err(seen.error)
    else Ok(Reply(queue, seen.value.id.value, Replacement(m, seen.value, ttl)))
  }

  /** Every answer is a well-formed reply that accepts the packet by its own id. */
  lemma AnswerAccepts(m: bytes, queue: nat, ttl: u8)
    requires queue < 0x10000 && Read(m, queue).Ok?
    ensures AcceptsPacket(Answer(m, queue, ttl).value, queue, Read(m, queue).value.id.value,
                          Replacement(m, Read(m, queue).value, ttl))
  {
    var s := Read(m, queue).value;
    hide AcceptsPacket, Reply, Read, Replacement;
    ReplyReadsBack(queue, s.id.value, Replacement(m, s, ttl));
  }

  /** A replacement is the packet's own payload with a new TTL and a checksum that verifies, nothing else. */
  lemma ReplacementIsFaithful(m: bytes, s: Seen, ttl: u8)
    requires Sane(m, s) && Replacement(m, s, ttl).Some?
    ensures Considered(s) && Complete(s)
    ensures var p, q := PayloadOf(m, s), Replacement(m, s, ttl).value;
      && |q| == |p| >= 20 && q[8] == ttl && HeaderLength(q) <= |q| && Verifies(q)
      && forall i | 0 <= i < |p| && i != 8 && i != 10 && i != 11 :: q[i] == p[i]
  {
    RewrittenVerifies(PayloadOf(m, s), ttl);
  }

  class PacketStats {
    var seen: nat
    var rewritten: nat
    var truncated: nat
    var unmodified: nat

    constructor ()
      ensures seen == rewritten == truncated == unmodified == 0
    {
      seen, rewritten, truncated, unmodified := 0, 0, 0, 0;
    }

    predicate Balanced()
      reads this
    {
      seen == rewritten + unmodified && truncated <= unmodified
    }
  }

  /** The growing reply buffer. */
  class Message {
    var data: bytes

    constructor ()
      ensures data == []
    {
      data := [];
    }

    method Begin(kind: nat, queue: nat)
      requires kind < 0x100 && queue < 0x10000
      modifies this
      ensures data == Beginning(0x0300 + kind, queue)
    {
      data := [];
      data := data + PutLe32(20) + PutLe16(0x0300 + kind) + PutLe16(1) + PutLe32(0) + PutLe32(0);
      data := data + [2];
      data := data + [0];
      data := data + [queue / 0x100, queue % 0x100];
    }

    /** attr: refused, after padding, when the length field cannot hold the size. */
    method Attr(kind: nat, value: bytes) returns (ok: bool)
      requires kind < 0x10000
      modifies this
      ensures ok <==> |value| <= 65531
      ensures ok ==> data == Appended(old(data), kind, value)
      ensures !ok ==> data == PadTo4(old(data))
    {
      var pos := Align4(|data|);
      while |data| < pos
        invariant |data| <= pos && data == old(data) + Zeros(|data| - |old(data)|)
      {
        data := data + [0];
      }
      var size := 4 + |value|;
      if size > 65535 {
        return false;
      }
      ghost var start := data;
      data := data + PutLe16(size);
      data := data + PutLe16(kind);
      data := data + value;
      ghost var body := PutLe16(size) + PutLe16(kind) + value;
      while |data| < pos + Align4(size)
        invariant |data| <= pos + Align4(size) && data == start + (body + Zeros(|data| - pos - size))
        invariant |data| >= pos + size
      {
        data := data + [0];
      }
      data := PutLe32(|data| % 0x1_0000_0000) + data[4..];
      ok := true;
    }
  }

  /** verdict on the message that lies at rx[lo..hi]. */
  method Verdict(rx: array<u8>, lo: nat, hi: nat, queue: nat, ttl: u8, v: Message, stats: PacketStats)
    returns (r: Result<(), Refusal>)
    requires lo <= hi <= rx.Length && queue < 0x10000 && stats.Balanced()
    modifies rx, v, stats
    ensures stats.Balanced()
    ensures rx[..lo] == old(rx[..lo]) && rx[hi..] == old(rx[hi..])
    ensures Read(old(rx[lo..hi]), queue).Err? ==>
      r == Err(Read(old(rx[lo..hi]), queue).error) && rx[..] == old(rx[..]) && stats.seen == old(stats.seen)
    ensures Read(old(rx[lo..hi]), queue).Ok? ==>
      var m := old(rx[lo..hi]);
      var s := Read(m, queue).value;
      && r == Ok(()) && Ok(v.data) == Answer(m, queue, ttl) && rx[lo..hi] == Afterwards(m, s, ttl)
      && stats.seen == old(stats.seen) + 1
      && stats.rewritten == old(stats.rewritten) + (if Rewrites(m, s, ttl) then 1 else 0)
      && stats.truncated == old(stats.truncated) + (if Truncates(s) then 1 else 0)
  {
    ghost var m := rx[lo..hi];
    if hi - lo < 20 {
      return Err(ShortMessage);
    }
    if Be16(rx[lo..hi], 18) != queue {
      return Err(WrongQueue);
    }
    var seen := ReadAttributes(rx, lo, hi);
    if seen.None? {
      return Err(BadAttribute);
    }
    if seen.value.id.None? {
      return Err(MissingId);
    }
    ScanIsSane(m, 20, NOTHING_SEEN);
    assert Read(m, queue) == Ok(seen.value);
    hide Read, Scan;
    Decide(rx, lo, hi, queue, ttl, seen.value, v, stats, m);
    r := Ok(());
  }

  /** The second half of verdict: rewrite if allowed, count, and compose the reply. */
  method Decide(rx: array<u8>, lo: nat, hi: nat, queue: nat, ttl: u8, s: Seen, v: Message, stats: PacketStats,
                ghost m: bytes)
    requires lo <= hi <= rx.Length && queue < 0x10000 && stats.Balanced() && m == rx[lo..hi] && Sane(m, s) && s.id.Some?
    modifies rx, v, stats
    ensures stats.Balanced()
    ensures rx[..lo] == old(rx[..lo]) && rx[hi..] == old(rx[hi..]) && rx[lo..hi] == Afterwards(m, s, ttl)
    ensures v.data == Reply(queue, s.id.value, Replacement(m, s, ttl))
    ensures stats.seen == old(stats.seen) + 1
    ensures stats.rewritten == old(stats.rewritten) + (if Rewrites(m, s, ttl) then 1 else 0)
    ensures stats.truncated == old(stats.truncated) + (if Truncates(s) then 1 else 0)
  {
    hide Reply, Rewritten, Rewritable;
    var payload := None;
    stats.seen := stats.seen + 1;
    if s.proto == ETH_IPV4 && s.hook == NF_INET_FORWARD && s.payload.Some? {
      if s.cap.None? || s.cap.value == s.payload.value.1 {
        payload := RewriteSlice(rx, lo, hi, s.payload.value.0, s.payload.value.1, ttl, m);
      } else {
        stats.truncated := stats.truncated + 1;
      }
    }
    Compose(v, queue, s.id.value, payload);
    if payload.Some? {
      stats.rewritten := stats.rewritten + 1;
    } else {
      stats.unmodified := stats.unmodified + 1;
    }
  }

  /** The reply. The payload attribute is never too large to send back: it came in an attribute itself. */
  method Compose(v: Message, queue: nat, id: bytes, payload: Option<bytes>)
    requires queue < 0x10000 && |id| == 4 && (payload.Some? ==> |payload.value| <= 65531)
    modifies v
    ensures v.data == Reply(queue, id, payload)
  {
    hide Appended;
    v.Begin(1, queue);
    var done := v.Attr(NFQA_VERDICT_HDR, [0, 0, 0, 1] + id);
    if payload.Some? {
      done := v.Attr(NFQA_PAYLOAD, payload.value);
      assert done;
    }
  }

  /** set_ipv4_ttl on the slice [p, p + l) of the message at rx[lo..hi]: the new payload, if it was rewritten. */
  method RewriteSlice(rx: array<u8>, lo: nat, hi: nat, p: nat, l: nat, ttl: u8, ghost m: bytes)
    returns (payload: Option<bytes>)
    requires lo <= hi <= rx.Length && p + l <= hi - lo && m == rx[lo..hi]
    modifies rx
    ensures rx[..lo] == old(rx[..lo]) && rx[hi..] == old(rx[hi..])
    ensures payload == if Rewritable(m[p..p + l], ttl) then Some(Rewritten(m[p..p + l], ttl)) else None
    ensures rx[lo..hi] == if payload.Some? then m[..p] + payload.value + m[p + l..] else m
  {
    hide Rewritten, Rewritable;
    ghost var was := rx[..];
    assert rx[lo + p..lo + p + l] == m[p..p + l];
    var changed := SetIpv4Ttl(rx, lo + p, lo + p + l, ttl);
    if !changed {
      return None;
    }
    payload := Some(rx[lo + p..lo + p + l]);
    assert rx[..] == was[..lo + p] + payload.value + was[lo + p + l..];
    Splice(was, rx[..], lo, hi, p, l, payload.value);
  }

  lemma Splice(was: bytes, now: bytes, lo: nat, hi: nat, p: nat, l: nat, payload: bytes)
    requires lo <= hi <= |was| && p + l <= hi - lo && |payload| == l
    requires now == was[..lo + p] + payload + was[lo + p + l..]
    ensures now[lo..hi] == was[lo..hi][..p] + payload + was[lo..hi][p + l..]
    ensures now[..lo] == was[..lo] && now[hi..] == was[hi..]
  {
    var before, after := was[..lo + p], was[lo + p + l..];
    assert now[..lo] == before[..lo] == was[..lo];
    assert now[hi..] == after[hi - lo - p - l..] == was[hi..];
    assert was[lo..hi][..p] == before[lo..] && was[lo..hi][p + l..] == after[..hi - lo - p - l];
    assert now[lo..hi] == before[lo..] + payload + after[..hi - lo - p - l];
  }

  /** The attribute loop of verdict. */
  method ReadAttributes(rx: array<u8>, lo: nat, hi: nat) returns (r: Option<Seen>)
    requires lo + 20 <= hi <= rx.Length
    ensures r == Scan(rx[lo..hi], 20, NOTHING_SEEN)
  {
    ghost var m := rx[lo..hi];
    var s := NOTHING_SEEN;
    var off := 20;
    while off + 4 <= hi - lo
      invariant Scan(m, off, s) == Scan(m, 20, NOTHING_SEEN)
    {
      var b0: nat, b1: nat, b2: nat, b3: nat := rx[lo + off], rx[lo + off + 1], rx[lo + off + 2], rx[lo + off + 3];
      var len, kind := b0 + 0x100 * b1, (b2 + 0x100 * b3) % 0x4000;
      assert len == Le16(m, off) && kind == Le16(m, off + 2) % 0x4000;
      if len < 4 || off + len > hi - lo {
        return None;
      }
      var d := rx[lo + off + 4..lo + off + len];
      assert forall i | 0 <= i < |d| :: d[i] == m[off + 4 + i];
      ghost var before := s;
      if kind == NFQA_PACKET_HDR && |d| >= 7 {
        assert d[..4] == m[off + 4..off + 8];
        s := s.(id := Some(d[..4]), proto := Be16(d, 4), hook := Byte(d, 6));
      } else if kind == NFQA_PAYLOAD {
        s := s.(payload := Some((off + 4, |d|)));
      } else if kind == NFQA_CAP_LEN && |d| == 4 {
        s := s.(cap := Some(Be32(d, 0)));
      }
      assert s == Note(m, before, AttributeAt(m, off));
      off := off + Align4(len);
    }
    r := Some(s);
  }

  // ----------------------------------------------------------------- datagrams

  datatype Failure = BadFrame | KernelError | Refused(why: Refusal) | SendFailed

  /** The replies a datagram gets, up to the first failure. */
  datatype Service = Service(replies: seq<bytes>, failure: Option<Failure>)

  predicate FrameFits(d: bytes)
    requires |d| >= 16
  {
    16 <= Le32(d, 0) <= |d|
  }

  /** What is left behind the first frame and its padding. */
  function Behind(d: bytes): (rest: bytes)
    requires |d| >= 16 && FrameFits(d)
    ensures |rest| < |d|
  {
    if Align4(Le32(d, 0)) >= |d| then [] else d[Align4(Le32(d, 0))..]
  }

  function Serve(d: bytes, queue: nat, ttl: u8): (r: Service)
    requires queue < 0x10000
    decreases |d|
  {
    if |d| < 16 then Service([], None)
    else if !FrameFits(d) then Service([], Some(BadFrame))
    else if Le16(d, 4) == QUEUE_PACKET then
      var answer := Answer(d[..Le32(d, 0)], queue, ttl);
      if answer.Err? then Service([], Some(Refused(answer.error)))
      else
        var rest := Serve(Behind(d), queue, ttl);
        Service([answer.value] + rest.replies, rest.failure)
    else if Le16(d, 4) == NLMSG_ERROR then Service([], Some(KernelError))
    else Serve(Behind(d), queue, ttl)
  }

  /** A reply socket that may fail. */
  method Send(message: bytes) returns (ok: bool)
  {
    ok := *;
  }

  function Before(sent: seq<bytes>, rest: Service): Service { Service(sent + rest.replies, rest.failure) }

  lemma ServePacket(d: bytes, queue: nat, ttl: u8)
    requires queue < 0x10000 && |d| >= 16 && FrameFits(d) && Le16(d, 4) == QUEUE_PACKET
    ensures var m := d[..Le32(d, 0)];
      && (Read(m, queue).Err? ==> Serve(d, queue, ttl) == Service([], Some(Refused(Read(m, queue).error))))
      && (Read(m, queue).Ok? ==>
            Answer(m, queue, ttl).Ok?
            && Serve(d, queue, ttl) == Before([Answer(m, queue, ttl).value], Serve(Behind(d), queue, ttl)))
  {
    hide Read;
  }

  lemma BeforeBefore(a: seq<bytes>, b: seq<bytes>, r: Service)
    ensures Before(a, Before(b, r)) == Before(a + b, r)
  {
  }

  /** The unread part of the buffer is as received. */
  ghost predicate Unread(now: bytes, d: bytes, off: nat)
  {
    |now| == |d| && (off <= |d| ==> now[off..] == d[off..])
  }

  function Left(d: bytes, off: nat): bytes { if off <= |d| then d[off..] else [] }

  lemma UnreadLater(now: bytes, then': bytes, d: bytes, off: nat, end: nat, next: nat)
    requires Unread(now, d, off) && |then'| == |now| && off <= end <= |d| && end <= next
    requires then'[end..] == now[end..]
    ensures Unread(then', d, next)
  {
    if next <= |d| {
      assert then'[next..] == then'[end..][next - end..] == now[end..][next - end..];
      assert now[end..][next - end..] == now[off..][next - off..] == d[next..];
    }
  }

  lemma ServeError(d: bytes, queue: nat, ttl: u8)
    requires queue < 0x10000 && |d| >= 16 && FrameFits(d)
    ensures Le16(d, 4) == NLMSG_ERROR ==> Serve(d, queue, ttl) == Service([], Some(KernelError))
  {
    hide Answer;
  }

  lemma NothingBefore(r: Service)
    ensures Before([], r) == r
    ensures forall reply :: Before([reply], r).replies != []
  {
  }

  function SentBy(reply: Option<bytes>): seq<bytes> { if reply.Some? then [reply.value] else [] }

  /**
   One frame of the loop, at rx[off..off + len]: the reply sent, or nothing to send, or the failure
   that ends the worker.
   */
  method ServeFrame(rx: array<u8>, off: nat, len: nat, queue: nat, ttl: u8, tx: Message, stats: PacketStats,
                    ghost left: bytes)
    returns (r: Result<Option<bytes>, Failure>)
    requires queue < 0x10000 && stats.Balanced() && off + len <= rx.Length
    requires left == rx[off..] && |left| >= 16 && FrameFits(left) && len == Le32(left, 0)
    modifies rx, tx, stats
    ensures stats.Balanced() && rx[off + len..] == old(rx[off + len..])
    ensures r.Ok? ==> Serve(left, queue, ttl) == Before(SentBy(r.value), Serve(Behind(left), queue, ttl))
    ensures r.Err? && r.error != SendFailed ==> Serve(left, queue, ttl) == Service([], Some(r.error))
    ensures r == Err(SendFailed) ==> Serve(left, queue, ttl).replies != []
    ensures stats.seen == old(stats.seen) + (if r == Err(SendFailed) || (r.Ok? && r.value.Some?) then 1 else 0)
  {
    hide Answer, Read, Afterwards, Le32, Le16, Serve, Behind, FrameFits, Before, Rewrites, Truncates;
    assert rx[off..off + len] == left[..len];
    ServeError(left, queue, ttl);
    NothingBefore(Serve(Behind(left), queue, ttl));
    var kind := Le16(rx[off..], 4);
    if kind == QUEUE_PACKET {
      var v := Verdict(rx, off, off + len, queue, ttl, tx, stats);
      ServePacket(left, queue, ttl);
      if v.Err? {
        return Err(Refused(v.error));
      }
      var ok := Send(tx.data);
      r := if ok then Ok(Some(tx.data)) else Err(SendFailed);
    } else if kind == NLMSG_ERROR {
      r := Err(KernelError);
    } else {
      ServeIgnored(left, queue, ttl);
      r := Ok(None);
    }
  }

  /**
   The frame loop of the worker on a received datagram: although every verdict rewrites
   the buffer, the replies are those of the datagram as it was received.
   */
  method ServeDatagram(rx: array<u8>, queue: nat, ttl: u8, tx: Message, stats: PacketStats)
    returns (sent: seq<bytes>, failure: Option<Failure>)
    requires queue < 0x10000 && stats.Balanced()
    modifies rx, tx, stats
    ensures stats.Balanced()
    ensures failure != Some(SendFailed) ==> Service(sent, failure) == Serve(old(rx[..]), queue, ttl)
    ensures failure == Some(SendFailed) ==> sent < Serve(old(rx[..]), queue, ttl).replies
    ensures stats.seen == old(stats.seen) + |sent| + (if failure == Some(SendFailed) then 1 else 0)
  {
    hide Unread, Left, Behind, Serve, Before, Le32, FrameFits;
    ghost var d := rx[..];
    Start(d, queue, ttl);
    sent := [];
    var off := 0;
    while off + 16 <= rx.Length
      invariant stats.Balanced() && stats.seen == old(stats.seen) + |sent|
      invariant Unread(rx[..], d, off)
      invariant Serve(d, queue, ttl) == Before(sent, Serve(Left(d, off), queue, ttl))
      decreases rx.Length - off
    {
      ghost var left, was := Left(d, off), rx[..];
      ReadAhead(was, d, off, queue, ttl);
      assert rx[off..] == left;
      var len := Le32(rx[off..], 0);
      if len < 16 || off + len > rx.Length {
        Stop(sent, Service([], Some(BadFrame)));
        return sent, Some(BadFrame);
      }
      var r := ServeFrame(rx, off, len, queue, ttl, tx, stats, left);
      UnreadLater(was, rx[..], d, off, off + len, off + Align4(len));
      if r.Err? {
        Stop(sent, Serve(left, queue, ttl));
        return sent, Some(r.error);
      }
      BeforeBefore(sent, SentBy(r.value), Serve(Behind(left), queue, ttl));
      sent := sent + SentBy(r.value);
      off := off + Align4(len);
    }
    ReadAhead(rx[..], d, off, queue, ttl);
    Stop(sent, Service([], None));
    failure := None;
  }

  lemma Start(d: bytes, queue: nat, ttl: u8)
    requires queue < 0x10000
    ensures Unread(d, d, 0) && Serve(d, queue, ttl) == Before([], Serve(Left(d, 0), queue, ttl))
  {
    hide Serve;
    assert d[0..] == d;
  }

  lemma Stop(sent: seq<bytes>, r: Service)
    ensures Before(sent, r) == Service(sent + r.replies, r.failure)
    ensures r.replies == [] ==> Before(sent, r) == Service(sent, r.failure)
    ensures r.replies != [] ==> sent < Before(sent, r).replies
  {
  }

  lemma ReadAhead(now: bytes, d: bytes, off: nat, queue: nat, ttl: u8)
    requires queue < 0x10000 && Unread(now, d, off)
    ensures off > |d| - 16 ==> Serve(Left(d, off), queue, ttl) == Service([], None)
    ensures off + 16 <= |d| ==>
      var left := Left(d, off);
      && |now| == |d| && left == now[off..]
      && (FrameFits(left) <==> 16 <= Le32(left, 0) && off + Le32(left, 0) <= |d|)
      && (FrameFits(left) ==> Behind(left) == Left(d, off + Align4(Le32(left, 0))))
      && (!FrameFits(left) ==> Serve(left, queue, ttl) == Service([], Some(BadFrame)))
  {
    hide Answer, Le32;
    if off + 16 <= |d| {
      var left := d[off..];
      if FrameFits(left) && off + Align4(Le32(left, 0)) <= |d| {
        assert left[Align4(Le32(left, 0))..] == d[off + Align4(Le32(left, 0))..];
      }
    }
  }

  // ------------------------------------------------------- whole, aligned frames

  predicate Frame(f: bytes) { |f| >= 16 && |f| % 4 == 0 && Le32(f, 0) == |f| }

  function Datagram(frames: seq<bytes>): bytes {
    if frames == [] then [] else frames[0] + Datagram(frames[1..])
  }

  /** A frame the worker gets past: a packet of this queue with well-formed attributes, or a message it ignores. */
  predicate SmoothFrame(f: bytes, queue: nat)
    requires Frame(f)
  {
    if Le16(f, 4) == QUEUE_PACKET then Read(f, queue).Ok? else Le16(f, 4) != NLMSG_ERROR
  }

  predicate Frames(frames: seq<bytes>) { forall i | 0 <= i < |frames| :: Frame(frames[i]) }

  /** The packets before the first frame that ends the worker. */
  function Answered(frames: seq<bytes>, queue: nat): seq<bytes>
    requires Frames(frames)
  {
    if frames == [] || !SmoothFrame(frames[0], queue) then []
    else (if Le16(frames[0], 4) == QUEUE_PACKET then [frames[0]] else []) + Answered(frames[1..], queue)
  }

  /** How the first such frame ends it. */
  function Ending(frames: seq<bytes>, queue: nat): Option<Failure>
    requires Frames(frames)
  {
    if frames == [] then None
    else if SmoothFrame(frames[0], queue) then Ending(frames[1..], queue)
    else if Le16(frames[0], 4) == QUEUE_PACKET then Some(Refused(Read(frames[0], queue).error))
    else Some(KernelError)
  }

  lemma FirstFrame(frames: seq<bytes>)
    requires frames != [] && Frame(frames[0])
    ensures var d, f := Datagram(frames), frames[0];
      && |d| >= 16 && Le32(d, 0) == |f| && FrameFits(d) && Le16(d, 4) == Le16(f, 4)
      && d[..|f|] == f && Behind(d) == Datagram(frames[1..])
  {
    FrameFirst(frames[0], Datagram(frames[1..]));
    hide Le32, Le16, FrameFits, Behind;
  }

  lemma FrameFirst(f: bytes, rest: bytes)
    requires Frame(f)
    ensures var d := f + rest;
      |d| >= 16 && Le32(d, 0) == |f| && FrameFits(d) && Le16(d, 4) == Le16(f, 4) && d[..|f|] == f && Behind(d) == rest
  {
    PrefixReads(f, f + rest);
    Aligned(|f|);
    hide Le32, Le16, Align4;
    assert (f + rest)[|f|..] == rest;
  }

  lemma Aligned(n: nat)
    requires n % 4 == 0
    ensures Align4(n) == n
  {
  }

  lemma PrefixReads(f: bytes, d: bytes)
    requires |f| >= 16 && f <= d
    ensures Le32(d, 0) == Le32(f, 0) && Le16(d, 4) == Le16(f, 4)
  {
    assert d[..|f|] == f;
  }

  predicate AnswersAll(r: Service, packets: seq<bytes>, failure: Option<Failure>, queue: nat, ttl: u8)
    requires queue < 0x10000
  {
    && r.failure == failure && |r.replies| == |packets|
    && forall i | 0 <= i < |r.replies| :: Ok(r.replies[i]) == Answer(packets[i], queue, ttl)
  }

  /**
   A datagram of whole frames: every packet before the first frame that ends the worker gets one answer,
   in order, to that very frame, and the worker ends as that frame says.
   */
  lemma {:induction false} OneAnswerPerPacket(frames: seq<bytes>, queue: nat, ttl: u8)
    requires queue < 0x10000 && Frames(frames)
    ensures AnswersAll(Serve(Datagram(frames), queue, ttl), Answered(frames, queue), Ending(frames, queue), queue, ttl)
  {
    if frames == [] {
      NoFrames(queue, ttl);
    } else {
      var d, f := Datagram(frames), frames[0];
      assert Frame(f) && Frames(frames[1..]);
      FirstFrame(frames);
      FirstServed(d, f, queue, ttl);
      if SmoothFrame(f, queue) {
        OneAnswerPerPacket(frames[1..], queue, ttl);
        var rest := Serve(Datagram(frames[1..]), queue, ttl);
        var packets, failure := Answered(frames[1..], queue), Ending(frames[1..], queue);
        hide Answer, Read, Le16, Le32, Datagram, FrameFits, Behind, Frame, SmoothFrame, Serve, AnswersAll;
        if Le16(f, 4) == QUEUE_PACKET {
          OneMore(Answer(f, queue, ttl).value, rest, f, packets, failure, queue, ttl);
        } else {
          assert Answered(frames, queue) == packets;
        }
      }
    }
  }

  lemma NoFrames(queue: nat, ttl: u8)
    requires queue < 0x10000
    ensures Serve(Datagram([]), queue, ttl) == Service([], None)
  {
  }

  /** What serving a datagram makes of its first frame f. */
  lemma FirstServed(d: bytes, f: bytes, queue: nat, ttl: u8)
    requires queue < 0x10000 && Frame(f) && |d| >= 16 && FrameFits(d)
    requires Le16(d, 4) == Le16(f, 4) && Le32(d, 0) == |f| && d[..|f|] == f
    ensures var r := Serve(d, queue, ttl);
      if SmoothFrame(f, queue) then
        if Le16(f, 4) == QUEUE_PACKET then
          Answer(f, queue, ttl).Ok? && r == Before([Answer(f, queue, ttl).value], Serve(Behind(d), queue, ttl))
        else r == Serve(Behind(d), queue, ttl)
      else r == Service([], Some(if Le16(f, 4) == QUEUE_PACKET then Refused(Read(f, queue).error) else KernelError))
  {
    hide Read, Le32;
    if Le16(f, 4) == QUEUE_PACKET {
      ServePacket(d, queue, ttl);
    }
  }

  lemma ServeIgnored(d: bytes, queue: nat, ttl: u8)
    requires queue < 0x10000 && |d| >= 16 && FrameFits(d) && Le16(d, 4) != QUEUE_PACKET && Le16(d, 4) != NLMSG_ERROR
    ensures Serve(d, queue, ttl) == Serve(Behind(d), queue, ttl)
  {
    hide Answer;
  }

  lemma OneMore(reply: bytes, rest: Service, f: bytes, packets: seq<bytes>, failure: Option<Failure>,
                queue: nat, ttl: u8)
    requires queue < 0x10000 && Ok(reply) == Answer(f, queue, ttl) && AnswersAll(rest, packets, failure, queue, ttl)
    ensures AnswersAll(Before([reply], rest), [f] + packets, failure, queue, ttl)
  {
    hide Answer;
  }
}
