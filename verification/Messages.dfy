/**
 The exchange with the kernel byte by byte: messages as nfnetlink_queue lays them out, and the
 replies that the worker sends for them. Nothing here goes through the worker's own reading of a message.
 */
module Messages {
  import opened Wrappers
  import opened Bytes
  import opened Layout
  import opened Packet
  import opened Nfqueue

  // ---------------------------------------------------------------- accepting

  /** NF_ACCEPT for packet `id` of the queue, with a new payload or without. */
  function Accepting(queue: nat, id: bytes, payload: Option<bytes>): bytes
    requires queue < 0x10000 && |id| == 4 && (payload.Some? ==> |payload.value| <= 65531)
  {
    var attributes := [Item(2, [0, 0, 0, 1] + id)] + if payload.Some? then [Item(10, payload.value)] else [];
    var rest := [1, 3, 1, 0, 0, 0, 0, 0, 0, 0, 0, 0, 2, 0, queue / 0x100, queue % 0x100] + Laid(attributes);
    LaidSize(attributes);
    Size(4 + |rest|) + rest
  }

  // ------------------------------------------------------------ what it calls for

  predicate IsA(a: Item, kind: nat, least: nat, most: nat) {
    a.kind % 0x4000 == kind && least <= |a.value| <= most
  }

  predicate Lacks(items: seq<Item>, kind: nat, least: nat, most: nat) {
    forall j | 0 <= j < |items| :: !IsA(items[j], kind, least, most)
  }

  /** The last attribute of this type with a length in these bounds. */
  predicate LastOf(items: seq<Item>, i: nat, kind: nat, least: nat, most: nat) {
    i < |items| && IsA(items[i], kind, least, most) && Lacks(items[i + 1..], kind, least, most)
  }

  lemma LastOfTail(items: seq<Item>, i: nat, kind: nat, least: nat, most: nat)
    requires items != []
    ensures LastOf(items, i, kind, least, most) <==>
      if i == 0 then IsA(items[0], kind, least, most) && Lacks(items[1..], kind, least, most)
      else LastOf(items[1..], i - 1, kind, least, most)
    ensures Lacks(items, kind, least, most) <==>
      !IsA(items[0], kind, least, most) && Lacks(items[1..], kind, least, most)
  {
    if i > 0 {
      assert i < |items| ==> items[1..][i..] == items[i + 1..];
    }
    if Lacks(items[1..], kind, least, most) && !IsA(items[0], kind, least, most) {
      assert forall j | 1 <= j < |items| :: items[j] == items[1..][j - 1];
    }
  }

  // ------------------------------------------------------------ what is read

  /** The first attribute behind `pre` is the one laid out there. */
  lemma ItemIsRead(pre: bytes, a: Item, rest: bytes)
    requires a.kind < 0x10000 && |a.value| <= 65531
    ensures var m, off := pre + ItemBytes(a) + rest, |pre|;
      && Fits(m, off) && AttributeAt(m, off) == Attribute(a.kind % 0x4000, off + 4, |a.value|)
      && off + Align4(Le16(m, off)) == |pre + ItemBytes(a)|
      && m[off + 4..off + 4 + |a.value|] == a.value
  {
    var b := ItemBytes(a);
    var m, off, n := pre + b + rest, |pre|, 4 + |a.value|;
    assert m[off] == b[0] && m[off + 1] == b[1] && m[off + 2] == b[2] && m[off + 3] == b[3];
    assert Le16(m, off) == n && Le16(m, off + 2) == a.kind;
    assert m[off + 4..off + n] == b[4..n] == a.value;
  }

  ghost predicate SaysHeader(items: seq<Item>, s: Seen, r: Seen) {
    && (Lacks(items, 1, 7, 65531) ==> r.id == s.id && r.proto == s.proto && r.hook == s.hook)
    && (forall h: nat | LastOf(items, h, 1, 7, 65531) ::
          var v := items[h].value; r.id == Some(v[..4]) && r.proto == Be16(v, 4) && r.hook == Byte(v, 6))
  }

  ghost predicate SaysCap(items: seq<Item>, s: Seen, r: Seen) {
    && (Lacks(items, 13, 4, 4) ==> r.cap == s.cap)
    && (forall k: nat | LastOf(items, k, 13, 4, 4) :: r.cap == Some(Be32(items[k].value, 0)))
  }

  predicate PointsAt(m: bytes, place: Option<(nat, nat)>, value: bytes) {
    && place.Some? && place.value.1 == |value| && place.value.0 + |value| <= |m|
    && m[place.value.0..place.value.0 + |value|] == value
  }

  ghost predicate SaysPayload(m: bytes, items: seq<Item>, s: Seen, r: Seen) {
    && (Lacks(items, 10, 0, 65531) ==> r.payload == s.payload)
    && (forall i: nat | LastOf(items, i, 10, 0, 65531) :: PointsAt(m, r.payload, items[i].value))
  }

  lemma SliceAt(m: bytes, at: nat, len: nat, i: nat)
    requires at + len <= |m| && i < len
    ensures m[at..at + len][i] == m[at + i]
  {
  }

  /** One attribute more in front changes nothing unless it is the last of its kind. */
  lemma HeaderStep(items: seq<Item>, m: bytes, a: Attribute, s: Seen, r: Seen)
    requires items != [] && |items[0].value| <= 65531 && a.at + a.len <= |m|
    requires a.kind == items[0].kind % 0x4000 && a.len == |items[0].value| && m[a.at..a.at + a.len] == items[0].value
    requires SaysHeader(items[1..], Note(m, s, a), r)
    ensures SaysHeader(items, s, r)
  {
    var v := items[0].value;
    LastOfTail(items, 0, 1, 7, 65531);
    forall h: nat
      ensures LastOf(items, h, 1, 7, 65531) ==>
        var v := items[h].value; r.id == Some(v[..4]) && r.proto == Be16(v, 4) && r.hook == Byte(v, 6)
    {
      LastOfTail(items, h, 1, 7, 65531);
      if h == 0 && IsA(items[0], 1, 7, 65531) {
        SliceAt(m, a.at, a.len, 4);
        SliceAt(m, a.at, a.len, 5);
        SliceAt(m, a.at, a.len, 6);
        assert m[a.at..a.at + 4] == v[..4];
      }
    }
  }

  lemma CapStep(items: seq<Item>, m: bytes, a: Attribute, s: Seen, r: Seen)
    requires items != [] && |items[0].value| <= 65531 && a.at + a.len <= |m|
    requires a.kind == items[0].kind % 0x4000 && a.len == |items[0].value| && m[a.at..a.at + a.len] == items[0].value
    requires SaysCap(items[1..], Note(m, s, a), r)
    ensures SaysCap(items, s, r)
  {
    var v := items[0].value;
    LastOfTail(items, 0, 13, 4, 4);
    forall k: nat
      ensures LastOf(items, k, 13, 4, 4) ==> r.cap == Some(Be32(items[k].value, 0))
    {
      LastOfTail(items, k, 13, 4, 4);
      if k == 0 && IsA(items[0], 13, 4, 4) {
        assert forall x | 0 <= x < 4 :: m[a.at + x] == v[x];
      }
    }
  }

  lemma PayloadStep(items: seq<Item>, m: bytes, a: Attribute, s: Seen, r: Seen)
    requires items != [] && |items[0].value| <= 65531 && a.at + a.len <= |m|
    requires a.kind == items[0].kind % 0x4000 && a.len == |items[0].value| && m[a.at..a.at + a.len] == items[0].value
    requires SaysPayload(m, items[1..], Note(m, s, a), r)
    ensures SaysPayload(m, items, s, r)
  {
    LastOfTail(items, 0, 10, 0, 65531);
    forall i: nat
      ensures LastOf(items, i, 10, 0, 65531) ==> PointsAt(m, r.payload, items[i].value)
    {
      LastOfTail(items, i, 10, 0, 65531);
    }
  }

  /** The scan hears the last packet header, the last capture length and the last payload, whatever stands between. */
  lemma {:induction false} LaidIsScanned(m: bytes, pre: bytes, items: seq<Item>, s: Seen)
    requires Sendable(items) && m == pre + Laid(items)
    ensures var r := Scan(m, |pre|, s);
      r.Some? && SaysHeader(items, s, r.value) && SaysCap(items, s, r.value) && SaysPayload(m, items, s, r.value)
    decreases |items|
  {
    hide Note, Le16, ItemBytes, SaysHeader, SaysCap, SaysPayload;
    if items == [] {
      assert Scan(m, |pre|, s) == Some(s);
      NothingSaid(m, s);
    } else {
      var a, b, rest := items[0], ItemBytes(items[0]), Laid(items[1..]);
      assert m == pre + b + rest == (pre + b) + rest;
      ItemIsRead(pre, a, rest);
      var at := AttributeAt(m, |pre|);
      LaidIsScanned(m, pre + b, items[1..], Note(m, s, at));
      var r := Scan(m, |pre|, s);
      assert r == Scan(m, |pre + b|, Note(m, s, at));
      HeaderStep(items, m, at, s, r.value);
      CapStep(items, m, at, s, r.value);
      PayloadStep(items, m, at, s, r.value);
    }
  }

  lemma NothingSaid(m: bytes, s: Seen)
    ensures SaysHeader([], s, s) && SaysCap([], s, s) && SaysPayload(m, [], s, s)
  {
  }

  // ---------------------------------------------------------------- the reply

  lemma ReplyIsAccepting(queue: nat, id: bytes, payload: Option<bytes>)
    requires queue < 0x10000 && |id| == 4 && (payload.Some? ==> |payload.value| <= 65531)
    ensures Reply(queue, id, payload) == Accepting(queue, id, payload)
  {
    hide Beginning, Appended, ItemBytes, Size, Laid, Accepting;
    var header := Item(2, [0, 0, 0, 1] + id);
    var accept := Appended(Beginning(QUEUE_VERDICT, queue), 2, header.value);
    ReplyStarts(queue, header);
    if payload.Some? {
      ReplyGrows(accept, accept[4..], payload.value);
      LaidTwo(header, Item(10, payload.value));
      Whole(Appended(accept, 10, payload.value), queue, id, payload);
    } else {
      LaidOne(header);
      assert [header] + [] == [header];
      Whole(accept, queue, id, payload);
    }
  }

  lemma ReplyStarts(queue: nat, header: Item)
    requires queue < 0x10000 && header.kind == 2 && |header.value| == 8
    ensures var r := Appended(Beginning(QUEUE_VERDICT, queue), 2, header.value);
      && r[4..] == [1, 3, 1, 0, 0, 0, 0, 0, 0, 0, 0, 0, 2, 0, queue / 0x100, queue % 0x100] + ItemBytes(header)
      && 4 <= |r| < 100 && |r| % 4 == 0 && r[..4] == Size(|r|)
  {
    BeginningBytes(queue);
    AppendedBytes(Beginning(QUEUE_VERDICT, queue), header);
    AttributeIsItem(header);
    hide Beginning, Appended, ItemBytes, Size;
  }

  lemma ReplyGrows(accept: bytes, behind: bytes, payload: bytes)
    requires |accept| >= 4 && |accept| % 4 == 0 && |payload| <= 65531 && |accept| < 100 && accept[4..] == behind
    ensures var r := Appended(accept, 10, payload);
      r[4..] == behind + ItemBytes(Item(10, payload)) && |r| >= 4 && |r| < 0x1_0000_0000 && r[..4] == Size(|r|)
  {
    AppendedBytes(accept, Item(10, payload));
  }

  lemma Whole(r: bytes, queue: nat, id: bytes, payload: Option<bytes>)
    requires queue < 0x10000 && |id| == 4 && (payload.Some? ==> |payload.value| <= 65531)
    requires 4 <= |r| < 0x1_0000_0000 && r[..4] == Size(|r|)
    requires var attributes := [Item(2, [0, 0, 0, 1] + id)] + if payload.Some? then [Item(10, payload.value)] else [];
      r[4..] == [1, 3, 1, 0, 0, 0, 0, 0, 0, 0, 0, 0, 2, 0, queue / 0x100, queue % 0x100] + Laid(attributes)
    ensures r == Accepting(queue, id, payload)
  {
    hide Size, Laid;
    assert r == r[..4] + r[4..] && |r| == 4 + |r[4..]|;
  }

  lemma BeginningBytes(queue: nat)
    requires queue < 0x10000
    ensures Beginning(QUEUE_VERDICT, queue)[4..] ==
      [1, 3, 1, 0, 0, 0, 0, 0, 0, 0, 0, 0, 2, 0, queue / 0x100, queue % 0x100]
  {
  }

  lemma AppendedBytes(b: bytes, a: Item)
    requires |b| >= 4 && |b| % 4 == 0 && a.kind < 0x10000 && |a.value| <= 65531
    requires |b| + |a.value| + 8 < 0x1_0000_0000
    ensures var r := Appended(b, a.kind, a.value);
      r[4..] == b[4..] + ItemBytes(a) && r[..4] == Size(|r|) && |r| == |b| + |ItemBytes(a)| && |r| % 4 == 0
  {
    hide Finished, PadTo4, AttributeBytes, ItemBytes, Size;
    PaddedAlready(b);
    AttributeIsItem(a);
    FinishedIs(b, ItemBytes(a));
  }

  lemma FinishedIs(b: bytes, item: bytes)
    requires |b| >= 4 && |b| + |item| < 0x1_0000_0000
    ensures var r := Finished(b + item); |r| == |b| + |item| && r[4..] == b[4..] + item && r[..4] == Size(|r|)
  {
    hide PutLe32, Size;
    SizeBytes(|b| + |item|);
    var all := b + item;
    assert all[4..] == b[4..] + item;
    assert Finished(all) == PutLe32(|all|) + all[4..];
  }

  lemma AttributeIsItem(a: Item)
    requires a.kind < 0x10000 && |a.value| <= 65531
    ensures AttributeBytes(a.kind, a.value) == ItemBytes(a) && |ItemBytes(a)| % 4 == 0
    ensures |ItemBytes(a)| <= |a.value| + 7
  {
    Padded(4 + |a.value|);
    hide Align4;
  }

  // ------------------------------------------------------------ what is answered

  /**
   The last packet header says IPv4 and FORWARD, the last payload is a complete IPv4 packet with another
   TTL, and the last capture length, if there is one, is the length of that payload.
   */
  ghost predicate Calls(items: seq<Item>, h: nat, i: nat, words: nat, total: nat, ttl: u8) {
    && LastOf(items, h, 1, 7, 65531) && LastOf(items, i, 10, 0, 65531) && items[h].value[4..7] == [8, 0, 2]
    && var p := items[i].value;
    && Ipv4(p, words, total) && p[8] != ttl && ttl != 0
    && forall k: nat | LastOf(items, k, 13, 4, 4) :: items[k].value == [0, 0, |p| / 0x100, |p| % 0x100]
  }

  lemma OnlyOneLast(items: seq<Item>, i: nat, j: nat, kind: nat, least: nat, most: nat)
    requires LastOf(items, i, kind, least, most) && LastOf(items, j, kind, least, most)
    ensures i == j
  {
    var afterI, afterJ := items[i + 1..], items[j + 1..];
    assert forall k | i < k < |items| :: items[k] == afterI[k - i - 1];
    assert forall k | j < k < |items| :: items[k] == afterJ[k - j - 1];
  }

  lemma {:induction false} LastOrLacks(items: seq<Item>, kind: nat, least: nat, most: nat)
    ensures Lacks(items, kind, least, most) || exists i :: LastOf(items, i, kind, least, most)
  {
    if items != [] {
      LastOrLacks(items[1..], kind, least, most);
      LastOfTail(items, 0, kind, least, most);
      if i: nat :| LastOf(items[1..], i, kind, least, most) {
        LastOfTail(items, i + 1, kind, least, most);
      }
    }
  }

  lemma CapIsLength(v: bytes, n: nat)
    requires |v| == 4 && n < 0x10000
    ensures Be32(v, 0) == n <==> v == [0, 0, n / 0x100, n % 0x100]
  {
    var a: nat, b: nat, c: nat, d: nat := v[0], v[1], v[2], v[3];
    assert Be32(v, 0) == 0x100_0000 * a + 0x10000 * b + 0x100 * c + d;
    assert v == [v[0], v[1], v[2], v[3]];
  }

  lemma HeaderIsForwarded(v: bytes)
    requires |v| >= 7
    ensures (Be16(v, 4) == ETH_IPV4 && Byte(v, 6) == NF_INET_FORWARD) <==> v[4..7] == [8, 0, 2]
  {
    assert v[4..7] == [v[4], v[5], v[6]];
  }

  /** What was heard, with payload i, calls for a rewrite exactly when the message does. */
  lemma HeardPayload(m: bytes, items: seq<Item>, h: nat, i: nat, r: Seen, ttl: u8)
    requires Sendable(items) && LastOf(items, h, 1, 7, 65531) && LastOf(items, i, 10, 0, 65531) && Sane(m, r)
    requires SaysHeader(items, NOTHING_SEEN, r) && SaysCap(items, NOTHING_SEEN, r)
    requires PointsAt(m, r.payload, items[i].value)
    ensures PayloadOf(m, r) == items[i].value
    ensures Rewrites(m, r, ttl) ==> exists words: nat, total: nat :: Calls(items, h, i, words, total, ttl)
    ensures forall words: nat, total: nat | Calls(items, h, i, words, total, ttl) :: Rewrites(m, r, ttl)
  {
    var p := items[i].value;
    HeaderIsForwarded(items[h].value);
    CapAgrees(items, |p|, r);
    CompletePacketsAreUpdated(p, ttl);
    hide Rewritable, Be32, Be16, Byte, Ipv4, Updated, SaysCap, LastOf, Rewritten;
    if Rewrites(m, r, ttl) {
      var words: nat, total: nat :| Ipv4(p, words, total) && p[8] != ttl;
      assert Calls(items, h, i, words, total, ttl);
    }
  }

  /** What was heard calls for a rewrite exactly when the message does. */
  lemma HeardCalls(m: bytes, items: seq<Item>, h: nat, r: Seen, ttl: u8)
    requires Sendable(items) && LastOf(items, h, 1, 7, 65531) && Sane(m, r)
    requires SaysHeader(items, NOTHING_SEEN, r) && SaysCap(items, NOTHING_SEEN, r)
    requires SaysPayload(m, items, NOTHING_SEEN, r)
    ensures Rewrites(m, r, ttl) <==>
      exists i: nat, words: nat, total: nat :: Calls(items, h, i, words, total, ttl)
    ensures forall i: nat, words: nat, total: nat | Calls(items, h, i, words, total, ttl) ::
      r.payload.Some? && PayloadOf(m, r) == items[i].value
  {
    LastOrLacks(items, 10, 0, 65531);
    hide Rewritable, SaysHeader, SaysCap, LastOf, Lacks, Ipv4;
    if i: nat :| LastOf(items, i, 10, 0, 65531) {
      HeardPayload(m, items, h, i, r, ttl);
      if Rewrites(m, r, ttl) {
        var words: nat, total: nat :| Calls(items, h, i, words, total, ttl);
      }
      forall j: nat, words: nat, total: nat | Calls(items, h, j, words, total, ttl)
        ensures j == i
      {
        OnlyOneLast(items, i, j, 10, 0, 65531);
      }
    }
  }

  lemma CapAgrees(items: seq<Item>, n: nat, r: Seen)
    requires SaysCap(items, NOTHING_SEEN, r) && n < 0x10000
    ensures (r.cap.Some? ==> r.cap.value == n) <==>
      forall k: nat | LastOf(items, k, 13, 4, 4) :: items[k].value == [0, 0, n / 0x100, n % 0x100]
  {
    LastOrLacks(items, 13, 4, 4);
    hide Be32;
    if k: nat :| LastOf(items, k, 13, 4, 4) {
      CapIsLength(items[k].value, n);
      forall j: nat | LastOf(items, j, 13, 4, 4)
        ensures j == k
      {
        OnlyOneLast(items, j, k, 13, 4, 4);
      }
    }
  }

  /** A message of the kernel for this queue: its header, and then attributes in any number and order. */
  predicate Heads(head: bytes, queue: nat) {
    queue < 0x10000 && |head| == 20 && head[18] == queue / 0x100 && head[19] == queue % 0x100
  }

  /**
   A packet is accepted by the id in its last packet header, with a new payload exactly when the message
   calls for one, and that payload is its own packet brought up to date.
   */
  lemma PacketIsAnswered(head: bytes, items: seq<Item>, h: nat, queue: nat, ttl: u8) returns (payload: Option<bytes>)
    requires Heads(head, queue) && Sendable(items) && LastOf(items, h, 1, 7, 65531)
    ensures payload.Some? ==> |payload.value| <= 65531
    ensures Answer(head + Laid(items), queue, ttl) == Ok(Accepting(queue, items[h].value[..4], payload))
    ensures payload.Some? <==> exists i: nat, words: nat, total: nat :: Calls(items, h, i, words, total, ttl)
    ensures forall i: nat, words: nat, total: nat | Calls(items, h, i, words, total, ttl) ::
      payload.Some? && Updated(items[i].value, payload.value, words, ttl)
  {
    var m := head + Laid(items);
    LaidIsScanned(m, head, items, NOTHING_SEEN);
    ScanIsSane(m, 20, NOTHING_SEEN);
    var r := Scan(m, 20, NOTHING_SEEN).value;
    assert Be16(m, 18) == queue;
    assert Read(m, queue) == Ok(r);
    HeardCalls(m, items, h, r, ttl);
    payload := Replacement(m, r, ttl);
    var id := items[h].value[..4];
    ReplyIsAccepting(queue, id, payload);
    hide Scan, Laid, Accepting, Reply, Rewritten, Rewritable, LastOf, Ipv4;
    forall i: nat, words: nat, total: nat | Calls(items, h, i, words, total, ttl)
      ensures payload.Some? && Updated(items[i].value, payload.value, words, ttl)
    {
      CompletePacketsAreUpdated(items[i].value, ttl);
    }
  }

  /** Without a packet header there is no id to answer by; with another queue's number nothing is read. */
  lemma RefusedMessages(head: bytes, items: seq<Item>, queue: nat, other: nat, ttl: u8)
    requires Heads(head, queue) && Sendable(items) && other < 0x10000
    ensures Lacks(items, 1, 7, 65531) ==> Answer(head + Laid(items), queue, ttl) == Err(MissingId)
    ensures other != queue ==> Answer(head + Laid(items), other, ttl) == Err(WrongQueue)
  {
    var m := head + Laid(items);
    LaidIsScanned(m, head, items, NOTHING_SEEN);
    ScanIsSane(m, 20, NOTHING_SEEN);
    assert Be16(m, 18) == queue;
    hide Scan, Laid;
  }

  // --------------------------------------------------------------- a datagram

  datatype Message = Message(head: bytes, items: seq<Item>)

  function MessageBytes(x: Message): bytes
    requires Sendable(x.items)
  {
    x.head + Laid(x.items)
  }

  /** A packet message of the queue: its own length, NFNL_SUBSYS_QUEUE and NFQNL_MSG_PACKET, and a packet header. */
  ghost predicate PacketMessage(x: Message, queue: nat) {
    && Heads(x.head, queue) && Sendable(x.items) && |MessageBytes(x)| < 0x1_0000_0000
    && x.head[..4] == Size(|MessageBytes(x)|) && x.head[4] == 0 && x.head[5] == 3
    && exists h: nat :: LastOf(x.items, h, 1, 7, 65531)
  }

  /** The reply accepts the message's packet by its id, and carries it, brought up to date, exactly when called for. */
  ghost predicate Answers(reply: bytes, x: Message, queue: nat, ttl: u8)
    requires PacketMessage(x, queue)
  {
    exists h: nat, payload: Option<bytes> ::
      && LastOf(x.items, h, 1, 7, 65531) && (payload.Some? ==> |payload.value| <= 65531)
      && reply == Accepting(queue, x.items[h].value[..4], payload)
      && (payload.Some? <==> exists i: nat, words: nat, total: nat :: Calls(x.items, h, i, words, total, ttl))
      && forall i: nat, words: nat, total: nat | Calls(x.items, h, i, words, total, ttl) ::
           payload.Some? && Updated(x.items[i].value, payload.value, words, ttl)
  }

  lemma FrameOfMessage(x: Message, queue: nat)
    requires PacketMessage(x, queue)
    ensures Frame(MessageBytes(x)) && Le16(MessageBytes(x), 4) == QUEUE_PACKET
  {
    var f := MessageBytes(x);
    LaidIsAligned(x.items);
    HeadOfMessage(x);
    hide Laid, Size, Le32, Le16;
    SizeIsRead(f);
  }

  lemma HeadOfMessage(x: Message)
    requires Sendable(x.items) && |x.head| == 20 && x.head[4] == 0 && x.head[5] == 3
    ensures MessageBytes(x)[..4] == x.head[..4] && Le16(MessageBytes(x), 4) == QUEUE_PACKET
  {
    hide Laid;
    assert MessageBytes(x)[4] == 0 && MessageBytes(x)[5] == 3;
  }

  lemma MessageIsAnswered(x: Message, queue: nat, ttl: u8)
    requires PacketMessage(x, queue)
    ensures var answer := Answer(MessageBytes(x), queue, ttl); answer.Ok? && Answers(answer.value, x, queue, ttl)
  {
    var h: nat :| LastOf(x.items, h, 1, 7, 65531);
    IdIsFour(x.items, h);
    hide Laid, LastOf, Accepting, Answer, Updated, Calls, Size, Lacks, Heads, Sendable;
    var payload := PacketIsAnswered(x.head, x.items, h, queue, ttl);
    hide Answers;
    AnswersWith(Answer(MessageBytes(x), queue, ttl).value, x, queue, ttl, h, payload);
  }

  lemma IdIsFour(items: seq<Item>, h: nat)
    requires LastOf(items, h, 1, 7, 65531)
    ensures h < |items| && |items[h].value[..4]| == 4
  {
  }

  lemma AnswersWith(reply: bytes, x: Message, queue: nat, ttl: u8, h: nat, payload: Option<bytes>)
    requires PacketMessage(x, queue) && LastOf(x.items, h, 1, 7, 65531) && (payload.Some? ==> |payload.value| <= 65531)
    requires reply == Accepting(queue, x.items[h].value[..4], payload)
    requires payload.Some? <==> exists i: nat, words: nat, total: nat :: Calls(x.items, h, i, words, total, ttl)
    requires forall i: nat, words: nat, total: nat | Calls(x.items, h, i, words, total, ttl) ::
      payload.Some? && Updated(x.items[i].value, payload.value, words, ttl)
    ensures Answers(reply, x, queue, ttl)
  {
  }

  lemma AnsweredIsRead(f: bytes, queue: nat, ttl: u8)
    requires queue < 0x10000 && Answer(f, queue, ttl).Ok?
    ensures Read(f, queue).Ok?
  {
  }

  function Sent(messages: seq<Message>): seq<bytes>
    requires forall x | x in messages :: Sendable(x.items)
  {
    seq(|messages|, n requires 0 <= n < |messages| => assert messages[n] in messages; MessageBytes(messages[n]))
  }

  /** Any number of packet messages in one datagram: one answer each, in order, each to its own message. */
  lemma PacketsAreAnswered(messages: seq<Message>, queue: nat, ttl: u8)
    requires queue < 0x10000 && forall x | x in messages :: Sendable(x.items) && PacketMessage(x, queue)
    ensures var r := Serve(Datagram(Sent(messages)), queue, ttl);
      && r.failure == Option.None && |r.replies| == |messages|
      && forall n | 0 <= n < |messages| :: Answers(r.replies[n], messages[n], queue, ttl)
  {
    var frames := Sent(messages);
    hide PacketMessage, Answers, Serve, Read, Answer, MessageBytes, Frame;
    forall n | 0 <= n < |messages|
      ensures Frame(frames[n]) && Le16(frames[n], 4) == QUEUE_PACKET && Read(frames[n], queue).Ok?
      ensures Answer(frames[n], queue, ttl).Ok?
      ensures PacketMessage(messages[n], queue) && Answers(Answer(frames[n], queue, ttl).value, messages[n], queue, ttl)
    {
      assert messages[n] in messages;
      FrameOfMessage(messages[n], queue);
      MessageIsAnswered(messages[n], queue, ttl);
      AnsweredIsRead(frames[n], queue, ttl);
    }
    AllAnswered(frames, queue);
    OneAnswerPerPacket(frames, queue, ttl);
  }

  lemma {:induction false} AllAnswered(frames: seq<bytes>, queue: nat)
    requires Frames(frames)
    requires forall n | 0 <= n < |frames| :: Le16(frames[n], 4) == QUEUE_PACKET && Read(frames[n], queue).Ok?
    ensures Answered(frames, queue) == frames && Ending(frames, queue) == Option.None
  {
    hide Read, Frame;
    if frames != [] {
      AllAnswered(frames[1..], queue);
      assert frames == [frames[0]] + frames[1..];
    }
  }

  /** A forwarded IPv4 packet whose capture length is not that of its payload. */
  ghost predicate CutShort(items: seq<Item>, h: nat) {
    && LastOf(items, h, 1, 7, 65531) && items[h].value[4..7] == [8, 0, 2]
    && exists i: nat, k: nat :: LastOf(items, i, 10, 0, 65531) && LastOf(items, k, 13, 4, 4)
         && items[k].value != [0, 0, |items[i].value| / 0x100, |items[i].value| % 0x100]
  }

  /** What the statistics count as rewritten and as truncated. */
  lemma PacketIsCounted(head: bytes, items: seq<Item>, h: nat, queue: nat, ttl: u8)
    requires Heads(head, queue) && Sendable(items) && LastOf(items, h, 1, 7, 65531)
    ensures var m := head + Laid(items);
      && Read(m, queue).Ok?
      && (Rewrites(m, Read(m, queue).value, ttl) <==>
            exists i: nat, words: nat, total: nat :: Calls(items, h, i, words, total, ttl))
      && (Truncates(Read(m, queue).value) <==> CutShort(items, h))
  {
    var m := head + Laid(items);
    LaidIsScanned(m, head, items, NOTHING_SEEN);
    ScanIsSane(m, 20, NOTHING_SEEN);
    var r := Scan(m, 20, NOTHING_SEEN).value;
    assert Be16(m, 18) == queue;
    assert Read(m, queue) == Ok(r);
    hide Scan, Laid, Read;
    HeardCalls(m, items, h, r, ttl);
    HeardCutShort(m, items, h, r);
  }

  lemma HeardCutShort(m: bytes, items: seq<Item>, h: nat, r: Seen)
    requires Sendable(items) && LastOf(items, h, 1, 7, 65531)
    requires SaysHeader(items, NOTHING_SEEN, r) && SaysCap(items, NOTHING_SEEN, r)
    requires SaysPayload(m, items, NOTHING_SEEN, r)
    ensures Truncates(r) <==> CutShort(items, h)
  {
    HeaderIsForwarded(items[h].value);
    LastOrLacks(items, 10, 0, 65531);
    LastOrLacks(items, 13, 4, 4);
    hide Be32, Be16, Byte;
    if i: nat :| LastOf(items, i, 10, 0, 65531) {
      assert PointsAt(m, r.payload, items[i].value);
      CapAgrees(items, |items[i].value|, r);
      forall j: nat | LastOf(items, j, 10, 0, 65531)
        ensures j == i
      {
        OnlyOneLast(items, i, j, 10, 0, 65531);
      }
    }
  }

  // ------------------------------------------------------------- bad datagrams

  /** A size field below 16 or beyond the datagram ends the worker. */
  lemma BadSizesEnd(d: bytes, n: nat, queue: nat, ttl: u8)
    requires queue < 0x10000 && |d| >= 16 && n < 0x1_0000_0000 && d[..4] == Size(n) && (n < 16 || n > |d|)
    ensures Serve(d, queue, ttl) == Service([], Some(BadFrame))
  {
    SizeIs(d, n);
    hide Le32, Le16, Answer, Size;
  }

  lemma SizeIs(d: bytes, n: nat)
    requires |d| >= 4 && n < 0x1_0000_0000 && d[..4] == Size(n)
    ensures Le32(d, 0) == n
  {
    SizeBytes(n);
    assert d[0..4] == d[..4];
    PutGet32(d, 0, n);
  }

  /** An error message ends it too. */
  lemma ErrorsEnd(d: bytes, n: nat, queue: nat, ttl: u8)
    requires queue < 0x10000 && 16 <= n <= |d| && n < 0x1_0000_0000 && d[..4] == Size(n) && d[4..6] == [2, 0]
    ensures Serve(d, queue, ttl) == Service([], Some(KernelError))
  {
    SizeIs(d, n);
    KindIsRead(d);
    hide Le32, Le16, Answer, Size;
  }

  /** Messages of any other type are passed over with their padding. */
  lemma OthersArePassedOver(d: bytes, n: nat, queue: nat, ttl: u8)
    requires queue < 0x10000 && 16 <= n <= |d| && n < 0x1_0000_0000 && d[..4] == Size(n)
    requires d[4..6] != [0, 3] && d[4..6] != [2, 0]
    ensures var next := n + (4 - n % 4) % 4;
      Serve(d, queue, ttl) == Serve(if next >= |d| then [] else d[next..], queue, ttl)
  {
    hide Serve, Le16, Le32, Size, Align4;
    SizeIs(d, n);
    KindIsRead(d);
    Padded(n);
    ServeIgnored(d, queue, ttl);
  }

  lemma KindIsRead(d: bytes)
    requires |d| >= 6
    ensures d[4..6] == [2, 0] <==> Le16(d, 4) == NLMSG_ERROR
    ensures d[4..6] == [0, 3] <==> Le16(d, 4) == QUEUE_PACKET
  {
    assert d[4..6] == [d[4], d[5]];
  }

  lemma Padded(n: nat)
    ensures Align4(n) == n + (4 - n % 4) % 4
  {
  }
}
