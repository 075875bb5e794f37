/**
  The syslog intake: the bounded queue and the read loop of a TCP connection.

  A connection is the list of byte strings its successive reads return; an empty
  read is the end of the stream.
 */
module SyslogServer {
  import opened Decimal
  import opened SyslogFraming

  const MAX_TCP_FRAME := 65536
  const READ_SIZE := 65536

  /** `bytes.strip` leaves something: the buffer is not all ASCII whitespace. */
  predicate NotBlank(b: string) {
    exists i :: 0 <= i < |b| &&
      b[i] != ' ' && b[i] != '\t' && b[i] != '\n' && b[i] != '\r' && b[i] != 11 as char && b[i] != 12 as char
  }

  /** One read: the messages it completes, and the buffer after it. A very long rest is a message of its own. */
  function AfterRead(buffer: string, chunk: string): (seq<string>, string) {
    var r := Split(buffer + chunk);
    if |r.1| > MAX_TCP_FRAME then (r.0 + [r.1], []) else r
  }

  /** What a connection enqueues from the buffer contents and the reads that follow. */
  function Delivered(buffer: string, chunks: seq<string>): seq<string>
    decreases |chunks|
  {
    if chunks == [] || chunks[0] == [] then
      if NotBlank(buffer) then [buffer] else []
    else
      var r := AfterRead(buffer, chunks[0]);
      r.0 + Delivered(r.1, chunks[1..])
  }

  function SourceAddress(ip: string): string {
    if |ip| >= 7 && ip[..7] == "::ffff:" then ip[7..] else ip
  }

  /** An IPv4 peer of an IPv6 socket is known by its IPv4 address. */
  lemma SourceMeaning(ip: string)
    ensures SourceAddress("::ffff:" + ip) == ip
    ensures !("::ffff:" <= ip) ==> SourceAddress(ip) == ip
  {
    assert ("::ffff:" + ip)[..7] == "::ffff:";
  }

  datatype Entry = Entry(data: string, source: string)

  function Entries(messages: seq<string>, ip: string): (r: seq<Entry>)
    ensures |r| == |messages|
  {
    seq(|messages|, i requires 0 <= i < |messages| => Entry(messages[i], SourceAddress(ip)))
  }

  /** The queue is within its bound; a bound of zero or less is none. */
  predicate Within(queue: seq<Entry>, capacity: int) { capacity <= 0 || |queue| <= capacity }

  /** The queue after offering it `offered`: what does not fit is dropped from the end. */
  function Offer(queue: seq<Entry>, offered: seq<Entry>, capacity: int): seq<Entry>
    requires Within(queue, capacity)
  {
    var room := capacity - |queue|;
    queue + if capacity <= 0 || |offered| <= room then offered else offered[..room]
  }

  class Server {
    var queue: seq<Entry>
    const capacity: int
    var received: nat
    var dropped: nat

    /** Every message counted as received is still queued, was taken by the writer, or was dropped. */
    ghost var taken: nat

    ghost predicate Valid()
      reads this
    {
      Within(queue, capacity) && received == taken + |queue| + dropped
    }

    constructor (capacity: int)
      ensures Valid() && queue == [] && received == dropped == 0 && this.capacity == capacity
    {
      this.capacity := capacity;
      queue, received, dropped, taken := [], 0, 0, 0;
    }

    /** `enqueue`: never blocks; a full queue drops the message and counts it. */
    method Enqueue(data: string, ip: string)
      requires Valid()
      modifies this
      ensures Valid() && taken == old(taken)
      ensures received == old(received) + 1
      ensures queue == Offer(old(queue), [Entry(data, SourceAddress(ip))], capacity)
      ensures if capacity <= 0 || |old(queue)| < capacity
              then queue == old(queue) + [Entry(data, SourceAddress(ip))] && dropped == old(dropped)
              else queue == old(queue) && dropped == old(dropped) + 1
    {
      received := received + 1;
      if capacity <= 0 || |queue| < capacity {
        queue := queue + [Entry(data, SourceAddress(ip))];
      } else {
        dropped := dropped + 1;
      }
    }

    /** The writer takes a batch from the front of the queue. */
    method Take(n: nat) returns (batch: seq<Entry>)
      requires Valid() && n <= |queue|
      modifies this
      ensures Valid() && batch + queue == old(queue) && |batch| == n
      ensures received == old(received) && dropped == old(dropped) && taken == old(taken) + n
    {
      batch := queue[..n];
      queue := queue[n..];
      taken := taken + n;
    }

    /** After starting from `base`, exactly `sent` has been offered to the queue. */
    ghost predicate Offered(base: seq<Entry>, sent: seq<string>, ip: string)
      reads this
    {
      Within(base, capacity) && queue == Offer(base, Entries(sent, ip), capacity)
    }

    /** Enqueues one message that follows `sent`. */
    method Send(message: string, ip: string, ghost base: seq<Entry>, ghost sent: seq<string>)
      requires Valid() && Offered(base, sent, ip)
      modifies this
      ensures Valid() && taken == old(taken)
      ensures received == old(received) + 1
      ensures Offered(base, sent + [message], ip)
    {
      hide Offer, Entries;
      OfferMore(base, sent, [message], ip, capacity);
      OneEntry(message, ip);
      Enqueue(message, ip);
    }

    /** `_handle_tcp`: what one connection enqueues, in order, and how it is counted. */
    method HandleTcp(chunks: seq<string>, ip: string) returns (ghost sent: seq<string>)
      requires Valid()
      modifies this
      ensures Valid() && taken == old(taken)
      ensures sent == Delivered([], chunks)
      ensures received == old(received) + |sent|
      ensures Queued(old(queue), queue, Entries(sent, ip), capacity)
      ensures capacity <= 0 || |old(queue)| + |sent| <= capacity ==> dropped == old(dropped)
    {
      OfferQueuesAll(queue, ip, capacity);
      hide Queued;
      hide Delivered, AfterRead, Offer, Entries, NotBlank;
      var buffer := new StreamBuffer();
      sent := [];
      NothingOffered(queue, ip, capacity);
      var i := 0;
      assert [] + Delivered([], chunks) == Delivered([], chunks) && chunks[0..] == chunks;
      while i < |chunks| && chunks[i] != []
        invariant 0 <= i <= |chunks| && fresh(buffer)
        invariant Valid() && taken == old(taken)
        invariant received == old(received) + |sent|
        invariant Offered(old(queue), sent, ip)
        invariant Delivered([], chunks) == sent + Delivered(buffer.data, chunks[i..])
      {
        DeliverRead(sent, buffer.data, chunks, i);
        sent := HandleRead(buffer, chunks[i], ip, old(queue), sent);
        i := i + 1;
      }
      DeliverEnd(sent, buffer.data, chunks[i..]);
      if NotBlank(buffer.data) {
        Send(buffer.data, ip, old(queue), sent);
        sent := sent + [buffer.data];
      }
    }

    /** The body of the read loop. */
    method HandleRead(buffer: StreamBuffer, chunk: string, ip: string, ghost base: seq<Entry>, ghost before: seq<string>)
      returns (ghost sent: seq<string>)
      requires Valid() && Offered(base, before, ip)
      modifies this, buffer
      ensures Valid() && taken == old(taken)
      ensures (sent, buffer.data) == (before + AfterRead(old(buffer.data), chunk).0, AfterRead(old(buffer.data), chunk).1)
      ensures received == old(received) + |sent| - |before|
      ensures Offered(base, sent, ip)
    {
      hide Offer, Entries, Split;
      buffer.data := buffer.data + chunk;
      var frames := buffer.SplitOctetCounted();
      sent := before;
      var k := 0;
      assert before + frames[..0] == before;
      while k < |frames|
        invariant 0 <= k <= |frames|
        invariant Valid() && taken == old(taken)
        invariant sent == before + frames[..k]
        invariant received == old(received) + k
        invariant Offered(base, sent, ip)
        invariant (frames, buffer.data) == Split(old(buffer.data) + chunk)
      {
        Send(frames[k], ip, base, sent);
        sent := sent + [frames[k]];
        assert frames[..k + 1] == frames[..k] + [frames[k]];
        k := k + 1;
      }
      assert frames[..k] == frames;
      if |buffer.data| > MAX_TCP_FRAME {
        assert before + (frames + [buffer.data]) == (before + frames) + [buffer.data];
        Send(buffer.data, ip, base, sent);
        sent := sent + [buffer.data];
        buffer.data := "";
      }
    }
  }

  /** `offered` has been put behind the old queue: all of it if there is room, else as much as fits. */
  ghost predicate Queued(before: seq<Entry>, after: seq<Entry>, offered: seq<Entry>, capacity: int) {
    if capacity <= 0 || |before| + |offered| <= capacity then after == before + offered
    else
      && |after| == capacity && before <= after <= before + offered
  }

  lemma OfferQueues(queue: seq<Entry>, offered: seq<Entry>, capacity: int)
    requires Within(queue, capacity)
    ensures Queued(queue, Offer(queue, offered, capacity), offered, capacity)
  {
  }

  lemma OfferQueuesAll(queue: seq<Entry>, ip: string, capacity: int)
    requires Within(queue, capacity)
    ensures forall sent :: Queued(queue, Offer(queue, Entries(sent, ip), capacity), Entries(sent, ip), capacity)
    ensures forall sent :: capacity <= 0 || |queue| + |sent| <= capacity ==>
              |Offer(queue, Entries(sent, ip), capacity)| == |queue| + |sent|
  {
    forall sent ensures Queued(queue, Offer(queue, Entries(sent, ip), capacity), Entries(sent, ip), capacity) {
      OfferQueues(queue, Entries(sent, ip), capacity);
    }
  }

  lemma NothingOffered(queue: seq<Entry>, ip: string, capacity: int)
    requires Within(queue, capacity)
    ensures queue == Offer(queue, Entries([], ip), capacity)
  {
  }

  lemma OneEntry(data: string, ip: string)
    ensures Entries([data], ip) == [Entry(data, SourceAddress(ip))]
  {
  }

  lemma OfferMore(queue: seq<Entry>, sent: seq<string>, more: seq<string>, ip: string, capacity: int)
    requires Within(queue, capacity)
    ensures Within(Offer(queue, Entries(sent, ip), capacity), capacity)
    ensures Offer(queue, Entries(sent + more, ip), capacity)
         == Offer(Offer(queue, Entries(sent, ip), capacity), Entries(more, ip), capacity)
  {
    assert Entries(sent + more, ip) == Entries(sent, ip) + Entries(more, ip);
    OfferTwice(queue, Entries(sent, ip), Entries(more, ip), capacity);
  }

  lemma OfferTwice(queue: seq<Entry>, a: seq<Entry>, b: seq<Entry>, capacity: int)
    requires Within(queue, capacity)
    ensures Within(Offer(queue, a, capacity), capacity)
    ensures Offer(queue, a + b, capacity) == Offer(Offer(queue, a, capacity), b, capacity)
  {
    var room := capacity - |queue|;
    if capacity <= 0 {
      assert queue + (a + b) == (queue + a) + b;
    } else if room <= |a| {
      assert (a + b)[..room] == a[..room];
    } else if room < |a| + |b| {
      assert (a + b)[..room] == a + b[..room - |a|];
    }
  }

  lemma DeliverRead(sent: seq<string>, buffer: string, chunks: seq<string>, i: nat)
    requires i < |chunks| && chunks[i] != []
    ensures var r := AfterRead(buffer, chunks[i]);
            sent + Delivered(buffer, chunks[i..]) == (sent + r.0) + Delivered(r.1, chunks[i + 1..])
  {
    hide AfterRead;
    assert chunks[i..][1..] == chunks[i + 1..];
  }

  lemma DeliverEnd(sent: seq<string>, buffer: string, chunks: seq<string>)
    requires chunks == [] || chunks[0] == []
    ensures sent + Delivered(buffer, chunks) == if NotBlank(buffer) then sent + [buffer] else sent
  {
  }

  // ----- the messages do not depend on how the stream is cut into reads

  function Joined(chunks: seq<string>): string {
    if chunks == [] then [] else chunks[0] + Joined(chunks[1..])
  }

  /** No read leaves more than `MAX_TCP_FRAME` bytes waiting for their delimiter or the rest of their count. */
  ghost predicate NeverOverflows(buffer: string, chunks: seq<string>)
    decreases |chunks|
  {
    chunks == [] ||
    (var r := Split(buffer + chunks[0]);
     |r.1| <= MAX_TCP_FRAME && NeverOverflows(r.1, chunks[1..]))
  }

  /** What the whole stream holds: its complete messages, and the rest at the end of the stream. */
  function Whole(stream: string): seq<string> {
    var r := Split(stream);
    r.0 + if NotBlank(r.1) then [r.1] else []
  }

  lemma {:induction false} DeliveredIsWhole(buffer: string, chunks: seq<string>)
    requires forall i :: 0 <= i < |chunks| ==> chunks[i] != []
    requires NeverOverflows(buffer, chunks)
    requires Split(buffer) == ([], buffer)
    ensures Delivered(buffer, chunks) == Whole(buffer + Joined(chunks))
    decreases |chunks|
  {
    hide Split, NotBlank;
    if chunks == [] {
      assert buffer + Joined(chunks) == buffer;
      assert [] + Delivered(buffer, chunks) == Delivered(buffer, chunks);
    } else {
      var r, rest := Split(buffer + chunks[0]), Joined(chunks[1..]);
      SplitIsFinal(buffer + chunks[0]);
      DeliveredIsWhole(r.1, chunks[1..]);
      SplitInPieces(buffer + chunks[0], rest);
      assert (buffer + chunks[0]) + rest == buffer + Joined(chunks);
      var q := Split(r.1 + rest);
      var last := if NotBlank(q.1) then [q.1] else [];
      assert r.0 + (q.0 + last) == (r.0 + q.0) + last;
    }
  }

  /** What is left over yields nothing more by itself. */
  lemma SplitIsFinal(b: string)
    ensures Split(Split(b).1) == ([], Split(b).1)
  {
    var r := Split(b);
    SplitInPieces(b, []);
    assert b + [] == b && r.1 + [] == r.1;
    assert |r.0 + Split(r.1).0| == |r.0| + |Split(r.1).0|;
  }

  /** Two cuts of one stream deliver the same messages, as long as neither overflows. */
  lemma CutIndependent(chunks: seq<string>, others: seq<string>)
    requires forall i :: 0 <= i < |chunks| ==> chunks[i] != []
    requires forall i :: 0 <= i < |others| ==> others[i] != []
    requires Joined(chunks) == Joined(others)
    requires NeverOverflows([], chunks) && NeverOverflows([], others)
    ensures Delivered([], chunks) == Delivered([], others) == Whole(Joined(chunks))
  {
    SplitNothing();
    DeliveredIsWhole([], chunks);
    DeliveredIsWhole([], others);
    assert [] + Joined(chunks) == Joined(chunks);
  }

  // ----- what the reads up to some point have done

  /** The messages enqueued by a list of reads, and the buffer after them. */
  function Run(buffer: string, chunks: seq<string>): (seq<string>, string)
    decreases |chunks|
  {
    if chunks == [] then ([], buffer)
    else
      var r := AfterRead(buffer, chunks[0]);
      var q := Run(r.1, chunks[1..]);
      (r.0 + q.0, q.1)
  }

  lemma {:induction false} DeliveredIsRun(buffer: string, chunks: seq<string>)
    requires forall i :: 0 <= i < |chunks| ==> chunks[i] != []
    ensures var r := Run(buffer, chunks);
            Delivered(buffer, chunks) == r.0 + if NotBlank(r.1) then [r.1] else []
    decreases |chunks|
  {
    hide AfterRead, NotBlank;
    if chunks == [] {
      assert [] + [buffer] == [buffer];
    } else {
      var r := AfterRead(buffer, chunks[0]);
      DeliveredIsRun(r.1, chunks[1..]);
      var q := Run(r.1, chunks[1..]);
      var last := if NotBlank(q.1) then [q.1] else [];
      assert r.0 + (q.0 + last) == (r.0 + q.0) + last;
    }
  }

  lemma {:induction false} RunConcat(buffer: string, a: seq<string>, b: seq<string>)
    ensures var r := Run(buffer, a);
            Run(buffer, a + b) == (r.0 + Run(r.1, b).0, Run(r.1, b).1)
    decreases |a|
  {
    hide AfterRead;
    if a == [] {
      assert a + b == b && [] + Run(buffer, b).0 == Run(buffer, b).0;
    } else {
      var r := AfterRead(buffer, a[0]);
      RunConcat(r.1, a[1..], b);
      assert (a + b)[1..] == a[1..] + b;
      var q := Run(r.1, a[1..]);
      assert r.0 + (q.0 + Run(q.1, b).0) == (r.0 + q.0) + Run(q.1, b).0;
    }
  }

  lemma RunCons(buffer: string, chunks: seq<string>)
    requires chunks != []
    ensures var r := AfterRead(buffer, chunks[0]);
            Run(buffer, chunks) == (r.0 + Run(r.1, chunks[1..]).0, Run(r.1, chunks[1..]).1)
  {
    hide AfterRead;
  }

  lemma RunOne(buffer: string, chunks: seq<string>)
    requires chunks != []
    ensures var r, rest := Split(buffer + chunks[0]), chunks[1..];
            && (|r.1| <= MAX_TCP_FRAME ==> Run(buffer, chunks) == (r.0 + Run(r.1, rest).0, Run(r.1, rest).1))
            && (|r.1| > MAX_TCP_FRAME ==> Run(buffer, chunks) == ((r.0 + [r.1]) + Run([], rest).0, Run([], rest).1))
  {
    hide Split, Run;
    RunCons(buffer, chunks);
  }

  /** A read that completes a message is that message and a read of the rest. */
  lemma RunFrame(buffer: string, chunks: seq<string>, msg: string, rest: string)
    requires chunks != []
    requires Split(buffer + chunks[0]) == ([msg] + Split(rest).0, Split(rest).1)
    ensures var q := Run([], [rest] + chunks[1..]);
            Run(buffer, chunks) == ([msg] + q.0, q.1)
  {
    hide Split, Run;
    var more := [rest] + chunks[1..];
    RunCons(buffer, chunks);
    RunCons([], more);
    assert more[0] == rest && more[1..] == chunks[1..] && [] + rest == rest;
    var r, s := AfterRead(buffer, chunks[0]), AfterRead([], rest);
    var f := Split(rest);
    assert ([msg] + f.0) + [f.1] == [msg] + (f.0 + [f.1]);
    assert r.0 == [msg] + s.0 && r.1 == s.1;
    hide AfterRead;
    var q := Run(s.1, chunks[1..]);
    assert ([msg] + s.0) + q.0 == [msg] + (s.0 + q.0);
  }

  // ----- bytes in which no message is complete

  /** Nothing is complete in `t`, and no part of it overflows. */
  ghost predicate Waits(t: string) {
    Split(t).0 == [] && forall m :: 0 <= m <= |t| ==> |Split(t[..m]).1| <= MAX_TCP_FRAME
  }

  lemma PrefixWaits(t: string, n: nat)
    requires Split(t).0 == [] && n <= |t|
    ensures Split(t[..n]).0 == []
    ensures Split(Split(t[..n]).1 + t[n..]) == Split(t)
  {
    hide Split;
    Halves(t, n);
    PartsWait(t[..n], t[n..]);
  }

  lemma Halves(t: string, n: nat)
    requires n <= |t|
    ensures t[..n] + t[n..] == t
  {
  }

  lemma Regroup(a: string, b: string, c: string)
    ensures a + (b + c) == (a + b) + c
  {
  }

  lemma PartsWait(a: string, b: string)
    requires Split(a + b).0 == []
    ensures Split(a).0 == []
    ensures Split(Split(a).1 + b) == Split(a + b)
  {
    hide Split;
    SplitInPieces(a, b);
    var first, second := Split(a), Split(Split(a).1 + b);
    NoFrames(first.0, second.0);
    assert second == (second.0, second.1);
  }

  lemma NoFrames(a: seq<string>, b: seq<string>)
    requires a + b == []
    ensures a == [] && b == []
  {
    assert |a + b| == |a| + |b|;
  }

  /** Having read a part of `t`, what is left of it in the buffer and the rest still wait. */
  lemma WaitsOn(t: string, n: nat)
    requires Waits(t) && n <= |t|
    ensures var u := Split(t[..n]).1 + t[n..];
            Waits(u) && Split(u).1 == Split(t).1
  {
    hide Split;
    PrefixWaits(t, n);
    var u := Split(t[..n]).1 + t[n..];
    forall m | 0 <= m <= |u| ensures |Split(u[..m]).1| <= MAX_TCP_FRAME {
      PartWaitsOn(t, n, m);
    }
  }

  lemma PartWaitsOn(t: string, n: nat, m: nat)
    requires Waits(t) && n <= |t| && m <= |Split(t[..n]).1 + t[n..]|
    ensures |Split((Split(t[..n]).1 + t[n..])[..m]).1| <= MAX_TCP_FRAME
  {
    var b := Split(t[..n]).1;
    var k := n + m - |b|;
    hide Split;
    if m <= |b| {
      assert |b| <= MAX_TCP_FRAME;
      SplitShrinks((b + t[n..])[..m]);
    } else {
      assert |Split(t[..k]).1| <= MAX_TCP_FRAME;
      PrefixWaits(t, k);
      hide Waits;
      SubParts(t, b, n, k);
      PrefixWaits(t[..k], n);
    }
  }

  lemma SubParts(t: string, b: string, n: nat, k: nat)
    requires n <= k <= |t|
    ensures t[..k][..n] == t[..n] && t[..k][n..] == t[n..k]
    ensures (b + t[n..])[..|b| + k - n] == b + t[n..k]
  {
  }

  lemma SplitShrinks(b: string)
    ensures |Split(b).1| <= |b|
  {
  }

  lemma WaitsLead(d: char, t: string)
    requires IsStray(d) && Waits(t)
    ensures Waits([d] + t) && Split([d] + t).1 == Split(t).1
  {
    hide Split;
    var u := [d] + t;
    StrayLead(d, t);
    forall m | 0 <= m <= |u| ensures |Split(u[..m]).1| <= MAX_TCP_FRAME {
      if m == 0 {
        SplitShrinks(u[..m]);
      } else {
        assert u[..m] == [d] + t[..m - 1];
        StrayLead(d, t[..m - 1]);
      }
    }
  }

  lemma StrayLead(d: char, t: string)
    requires IsStray(d)
    ensures Split([d] + t) == Split(t)
  {
    assert ([d] + t)[1..] == t;
    SplitSkips([d] + t, t);
  }

  /** Waiting bytes enqueue nothing, however they are cut. */
  lemma {:induction false} RunWaits(buffer: string, chunks: seq<string>, t: string)
    requires Waits(t) && buffer + Joined(chunks) == t && Split(buffer) == ([], buffer)
    ensures Run(buffer, chunks) == ([], Split(t).1)
    decreases |chunks|
  {
    hide Split, Waits;
    if chunks == [] {
      assert buffer == t;
    } else {
      var x, rest := buffer + chunks[0], Joined(chunks[1..]);
      assert x + rest == t && t[..|x|] == x && t[|x|..] == rest;
      WaitsMeaning(t, |x|);
      WaitsOn(t, |x|);
      SplitIsFinal(x);
      RunOne(buffer, chunks);
      RunWaits(Split(x).1, chunks[1..], Split(x).1 + rest);
      assert [] + Run(Split(x).1, chunks[1..]).0 == [];
    }
  }

  lemma WaitsMeaning(t: string, n: nat)
    requires Waits(t) && n <= |t|
    ensures Split(t[..n]).0 == [] && |Split(t[..n]).1| <= MAX_TCP_FRAME
  {
    hide Split;
    PrefixWaits(t, n);
  }

  lemma NothingWaits()
    ensures Waits([]) && Split([]) == ([], [])
  {
    SplitNothing();
  }

  // ----- framed messages survive every cut iff none is too long

  /** No cut can make a read leave more than `MAX_TCP_FRAME` bytes of the item, or what it leaves is the message itself. */
  predicate Fits(item: Item) {
    match item
    case Counted(_, _) => |Payload(item)| <= MAX_TCP_FRAME + 1
    case Delimited(_, msg, crs, _) => |msg| + crs <= MAX_TCP_FRAME || (crs == 0 && |msg| <= MAX_TCP_FRAME + 1)
  }

  function WithPadding(item: Item, padding: string): (r: Item)
    ensures r.msg == item.msg && Payload(r) == Payload(item) && Encode(r) == padding + Payload(item)
    ensures Fits(r) == Fits(item)
    ensures WellFormed(item) && (forall i :: 0 <= i < |padding| ==> IsStray(padding[i])) ==> WellFormed(r)
  {
    match item
    case Counted(_, msg) => Counted(padding, msg)
    case Delimited(_, msg, crs, delimiter) => Delimited(padding, msg, crs, delimiter)
  }

  /** Part of the payload waits. */
  lemma PartOfPayload(item: Item, n: nat)
    requires WellFormed(item) && n < |Payload(item)|
    ensures Split(Payload(item)[..n]) == ([], Payload(item)[..n])
  {
    hide NextCut, SkipStrays, Encode, Payload, WellFormed, Split;
    var p := Payload(item);
    var q := p[..n];
    if n == 0 {
      SplitNothing();
    } else {
      CutPayload(item);
      assert q[0] == p[0] && p == q + p[n..];
      if NextCut(q).Frame? {
        CompleteFrameStable(q, p[n..]);
      }
      SplitFrame(q);
    }
  }

  /** Part of an item: nothing is complete, padding is dropped, and what remains is the item with less padding. */
  lemma PartOfItem(item: Item, n: nat) returns (left: Item)
    requires WellFormed(item) && n < |Encode(item)|
    ensures var k := |item.padding|;
            var b := if n <= k then [] else Payload(item)[..n - k];
            Split(Encode(item)[..n]) == ([], b) && Encode(left) == b + Encode(item)[n..]
    ensures n > |item.padding| ==> n - |item.padding| < |Payload(item)|
    ensures WellFormed(left) && left.msg == item.msg && Fits(left) == Fits(item)
  {
    hide NextCut, SkipStrays, Payload, WellFormed, Split, Fits;
    PaddingIsStray(item);
    var e, p, k := Encode(item), Payload(item), |item.padding|;
    CutPayload(item);
    if n <= k {
      assert e[..n] == item.padding[..n];
      AllStray(item.padding[..n]);
      SplitNothing();
      SplitSkipped(item.padding[..n], []);
      left := WithPadding(item, item.padding[n..]);
      assert e[n..] == item.padding[n..] + p;
    } else {
      var q := p[..n - k];
      assert q[0] == p[0];
      assert e[..n] == item.padding + q;
      SkipPadding(item.padding, q);
      SplitSkipped(item.padding + q, q);
      PartOfPayload(item, n - k);
      left := WithPadding(item, []);
      assert e[n..] == p[n - k..] && [] + p == q + p[n - k..];
    }
  }

  lemma SplitSkipped(b: string, q: string)
    requires SkipStrays(b) == q
    ensures Split(b) == Split(q)
  {
    SkipStraysTwice(b);
  }

  lemma PaddingIsStray(item: Item)
    requires WellFormed(item)
    ensures forall i :: 0 <= i < |item.padding| ==> IsStray(item.padding[i])
  {
  }

  lemma {:induction false} AllStray(b: string)
    requires forall i :: 0 <= i < |b| ==> IsStray(b[i])
    ensures SkipStrays(b) == []
  {
    if b == [] {
    } else {
      AllStray(b[1..]);
    }
  }

  ghost predicate AllFit(items: seq<Item>) {
    forall i :: 0 <= i < |items| ==> WellFormed(items[i]) && Fits(items[i])
  }

  /** A delimiter in front of framed messages is padding. */
  lemma Lead(d: char, items: seq<Item>, t: string) returns (items': seq<Item>, t': string)
    requires IsStray(d) && AllFit(items) && Waits(t)
    ensures AllFit(items') && Waits(t') && |items'| == |items|
    ensures EncodeAll(items') + t' == [d] + (EncodeAll(items) + t)
    ensures Messages(items') == Messages(items) && Split(t').1 == Split(t).1
  {
    hide Split, Waits, Encode, EncodeAll, Payload, WellFormed, Fits;
    if items == [] {
      WaitsLead(d, t);
      EncodeNothing();
      items', t' := [], [d] + t;
      assert EncodeAll(items) + t == t && EncodeAll(items') + t' == t';
    } else {
      PaddingIsStray(items[0]);
      var first := WithPadding(items[0], [d] + items[0].padding);
      EncodeIs(items[0]);
      Regroup([d], items[0].padding, Payload(items[0]));
      items', t' := [first] + items[1..], t;
      LeadAll(d, items, items', t);
    }
  }

  lemma EncodeNothing()
    ensures EncodeAll([]) == []
  {
  }

  lemma LeadAll(d: char, items: seq<Item>, items': seq<Item>, t: string)
    requires items != [] && items' != [] && items'[1..] == items[1..]
    requires Encode(items'[0]) == [d] + Encode(items[0]) && items'[0].msg == items[0].msg
    ensures EncodeAll(items') + t == [d] + (EncodeAll(items) + t) && Messages(items') == Messages(items)
  {
    hide Encode;
    var e, more := Encode(items[0]), EncodeAll(items[1..]);
    assert ([d] + e) + more == [d] + (e + more);
    assert ([d] + (e + more)) + t == [d] + ((e + more) + t);
  }

  lemma EncodeIs(item: Item)
    ensures Encode(item) == item.padding + Payload(item)
  {
  }

  /** A part of a fitting item that overflows is a whole message, and only its delimiter is still to come. */
  lemma OverflowIsMessage(item: Item, n: nat)
    requires WellFormed(item) && Fits(item) && |item.padding| < n < |Encode(item)| && n - |item.padding| > MAX_TCP_FRAME
    ensures Payload(item)[..n - |item.padding|] == item.msg
    ensures |Encode(item)[n..]| == 1 && IsStray(Encode(item)[n])
  {
    hide Numeral, FirstDelimiter;
    assert item.Delimited? && item.crs == 0;
    assert Payload(item) == item.msg + [item.delimiter];
  }

  lemma ReadSplit(buffer: string, chunks: seq<string>, items: seq<Item>, t: string)
    requires chunks != [] && items != [] && buffer + Joined(chunks) == EncodeAll(items) + t
    ensures (buffer + chunks[0]) + Joined(chunks[1..]) == Encode(items[0]) + (EncodeAll(items[1..]) + t)
  {
    hide Encode;
    var c, rest, e, more := chunks[0], Joined(chunks[1..]), Encode(items[0]), EncodeAll(items[1..]);
    assert (buffer + c) + rest == buffer + (c + rest);
    assert e + (more + t) == (e + more) + t;
  }

  lemma PrefixOf(x: string, rest: string, e: string, more: string)
    requires x + rest == e + more
    ensures |x| >= |e| ==> x == e + x[|e|..] && x[|e|..] + rest == more
    ensures |x| < |e| ==> e[..|x|] == x && rest == e[|x|..] + more
  {
    if |x| >= |e| {
      assert x[..|e|] == (x + rest)[..|e|] == (e + more)[..|e|] == e;
      assert x[|e|..] + rest == (x + rest)[|e|..] == (e + more)[|e|..];
    } else {
      assert x == (x + rest)[..|x|] == (e + more)[..|x|] == e[..|x|];
      assert rest == (x + rest)[|x|..] == (e + more)[|x|..] == e[|x|..] + more;
    }
  }

  /** Reads of fitting messages followed by waiting bytes: the messages come out, the rest stays in the buffer. */
  lemma {:induction false} RunFits(buffer: string, chunks: seq<string>, items: seq<Item>, t: string)
    requires AllFit(items) && Waits(t)
    requires buffer + Joined(chunks) == EncodeAll(items) + t
    requires Split(buffer) == ([], buffer)
    ensures Run(buffer, chunks) == (Messages(items), Split(t).1)
    decreases |chunks|, |items|
  {
    hide Split, Run, Waits, Encode, WellFormed, Fits, AfterRead;
    if items == [] {
      assert EncodeAll(items) + t == t;
      RunWaits(buffer, chunks, t);
    } else {
      var e, more := Encode(items[0]), EncodeAll(items[1..]) + t;
      if chunks == [] {
        assert EncodeAll(items) + t == e + more;
        assert buffer == e + more;
        SplitItem(items[0], more);
      } else {
        var x, rest := buffer + chunks[0], Joined(chunks[1..]);
        ReadSplit(buffer, chunks, items, t);
        PrefixOf(x, rest, e, more);
        if |x| >= |e| {
          RunPast(buffer, chunks, items, t, x[|e|..]);
        } else {
          RunInside(buffer, chunks, items, t);
        }
      }
    }
  }

  /** The read reaches the end of the first item. */
  lemma {:induction false} RunPast(buffer: string, chunks: seq<string>, items: seq<Item>, t: string, y: string)
    requires AllFit(items) && Waits(t) && items != [] && chunks != []
    requires buffer + Joined(chunks) == EncodeAll(items) + t
    requires buffer + chunks[0] == Encode(items[0]) + y
    ensures Run(buffer, chunks) == (Messages(items), Split(t).1)
    decreases |chunks|, |items|, 0
  {
    hide Split, Run, Waits, Encode, WellFormed, Fits, AfterRead;
    var e, more := Encode(items[0]), EncodeAll(items[1..]) + t;
    var rest, next := Joined(chunks[1..]), [y] + chunks[1..];
    ReadSplit(buffer, chunks, items, t);
    PrefixOf(e + y, rest, e, more);
    assert (e + y)[|e|..] == y;
    assert next[1..] == chunks[1..] && [] + Joined(next) == y + rest;
    SplitItem(items[0], y);
    RunFrame(buffer, chunks, items[0].msg, y);
    SplitNothing();
    RunFits([], next, items[1..], t);
  }

  /** The read ends inside the first item. */
  lemma {:induction false} RunInside(buffer: string, chunks: seq<string>, items: seq<Item>, t: string)
    requires AllFit(items) && Waits(t) && items != [] && chunks != []
    requires buffer + Joined(chunks) == EncodeAll(items) + t
    requires |buffer + chunks[0]| < |Encode(items[0])|
    ensures Run(buffer, chunks) == (Messages(items), Split(t).1)
    decreases |chunks|, |items|, 0
  {
    hide Split, Run, Waits, Encode, WellFormed, Fits, AfterRead, Payload;
    var e, more := Encode(items[0]), EncodeAll(items[1..]) + t;
    var x, rest := buffer + chunks[0], Joined(chunks[1..]);
    ReadSplit(buffer, chunks, items, t);
    PrefixOf(x, rest, e, more);
    hide Joined, EncodeAll, Messages;
    var left := PartOfItem(items[0], |x|);
    if |Split(x).1| <= MAX_TCP_FRAME {
      RunShort(buffer, chunks, items, t, left, e[|x|..]);
    } else {
      OverflowIsMessage(items[0], |x|);
      assert e[|x|..] == [e[|x|]];
      RunLong(buffer, chunks, items, t, e[|x|]);
    }
  }

  /** What is left of the first item stays in the buffer. */
  lemma {:induction false} RunShort(buffer: string, chunks: seq<string>, items: seq<Item>, t: string,
                                    left: Item, after: string)
    requires AllFit(items) && Waits(t) && items != [] && chunks != []
    requires Joined(chunks[1..]) == after + (EncodeAll(items[1..]) + t)
    requires WellFormed(left) && Fits(left) && left.msg == items[0].msg
    requires var r := Split(buffer + chunks[0]);
             r.0 == [] && |r.1| <= MAX_TCP_FRAME && Encode(left) == r.1 + after
    ensures Run(buffer, chunks) == (Messages(items), Split(t).1)
    decreases |chunks| - 1, |items| + 1
  {
    hide Split, Run, Waits, Encode, WellFormed, Fits, AfterRead, Payload, AllFit, Joined, EncodeAll, Messages;
    var b := Split(buffer + chunks[0]).1;
    var items' := [left] + items[1..];
    RunOne(buffer, chunks);
    SameMessages(items, items', left, b, after, t);
    SplitIsFinal(buffer + chunks[0]);
    RunFits(b, chunks[1..], items', t);
    assert [] + Messages(items') == Messages(items);
  }

  /** The whole first message overflows, and its delimiter is still to come. */
  lemma {:induction false} RunLong(buffer: string, chunks: seq<string>, items: seq<Item>, t: string, d: char)
    requires AllFit(items) && Waits(t) && items != [] && chunks != [] && IsStray(d)
    requires Joined(chunks[1..]) == [d] + (EncodeAll(items[1..]) + t)
    requires Split(buffer + chunks[0]) == ([], items[0].msg) && |items[0].msg| > MAX_TCP_FRAME
    ensures Run(buffer, chunks) == (Messages(items), Split(t).1)
    decreases |chunks| - 1, |items| + 1
  {
    hide Split, Run, Waits, Encode, WellFormed, Fits, AfterRead, Payload, AllFit, Joined, EncodeAll, Messages;
    RunOne(buffer, chunks);
    FitRest(items);
    var items', t' := Lead(d, items[1..], t);
    assert [] + Joined(chunks[1..]) == EncodeAll(items') + t';
    SplitNothing();
    RunFits([], chunks[1..], items', t');
    FirstMessage(items);
    assert [] + [items[0].msg] == [items[0].msg];
  }

  /** Replacing the first item by what is left of it. */
  lemma SameMessages(items: seq<Item>, items': seq<Item>, left: Item, b: string, after: string, t: string)
    requires AllFit(items) && items != [] && items' == [left] + items[1..]
    requires WellFormed(left) && Fits(left) && left.msg == items[0].msg && Encode(left) == b + after
    ensures AllFit(items') && Messages(items') == Messages(items)
    ensures b + (after + (EncodeAll(items[1..]) + t)) == EncodeAll(items') + t
  {
    hide Encode, WellFormed, Fits;
    var more := EncodeAll(items[1..]);
    assert items'[1..] == items[1..];
    assert b + (after + (more + t)) == ((b + after) + more) + t;
  }

  lemma FitRest(items: seq<Item>)
    requires AllFit(items) && items != []
    ensures AllFit(items[1..])
  {
    hide WellFormed, Fits;
  }

  lemma FirstMessage(items: seq<Item>)
    requires items != []
    ensures Messages(items) == [items[0].msg] + Messages(items[1..])
  {
  }

  /**
    End to end: a sender frames messages by octet count or delimiter, the network cuts the
    stream anywhere, and the connection enqueues exactly those messages in order.
   */
  lemma FramedMessagesDelivered(items: seq<Item>, chunks: seq<string>)
    requires AllFit(items)
    requires forall i :: 0 <= i < |chunks| ==> chunks[i] != []
    requires Joined(chunks) == EncodeAll(items)
    ensures Delivered([], chunks) == Messages(items)
  {
    hide Split, Encode, WellFormed, Fits, Waits;
    NothingWaits();
    assert [] + Joined(chunks) == EncodeAll(items) + [];
    RunFits([], chunks, items, []);
    DeliveredIsRun([], chunks);
    assert Messages(items) + [] == Messages(items);
  }

  /** White space of Python bytes: space, tab, newline, carriage return, vertical tab, form feed. */
  ghost predicate OnlyWhiteSpace(b: string) {
    forall i :: 0 <= i < |b| ==> b[i] in " \t\n\r" || b[i] == 11 as char || b[i] == 12 as char
  }

  /** A line without its delimiter is the last message at the end of the stream, unless it is only white space. */
  lemma UnterminatedLine(items: seq<Item>, msg: string, chunks: seq<string>)
    requires AllFit(items) && IsLine(msg) && |msg| <= MAX_TCP_FRAME
    requires forall i :: 0 <= i < |chunks| ==> chunks[i] != []
    requires Joined(chunks) == EncodeAll(items) + msg
    ensures Delivered([], chunks) == Messages(items) + if OnlyWhiteSpace(msg) then [] else [msg]
  {
    BlankMeaning(msg);
    hide Split, Encode, WellFormed, Fits, Waits, IsLine, NotBlank, OnlyWhiteSpace;
    LineMeaning(msg);
    SplitNothing();
    assert [] + Joined(chunks) == EncodeAll(items) + msg;
    RunFits([], chunks, items, msg);
    DeliveredIsRun([], chunks);
  }

  lemma BlankMeaning(b: string)
    ensures OnlyWhiteSpace(b) <==> !NotBlank(b)
  {
  }

  lemma LineMeaning(msg: string)
    requires IsLine(msg) && |msg| <= MAX_TCP_FRAME
    ensures Waits(msg) && Split(msg).1 == msg
  {
    hide Split, IsLine;
    LineEncoded(msg);
    var p := msg + "\n";
    forall m | 0 <= m <= |msg| ensures Split(msg[..m]) == ([], msg[..m]) {
      PartOfPayload(LineItem(msg), m);
      assert p[..m] == msg[..m];
    }
    assert msg[..|msg|] == msg;
  }

  // ----- a message that does not fit is broken by some cut

  /** A way in which reads of at most `READ_SIZE` bytes can bring a stream. */
  ghost predicate IsCut(chunks: seq<string>, stream: string) {
    (forall i :: 0 <= i < |chunks| ==> 0 < |chunks[i]| <= READ_SIZE) && Joined(chunks) == stream
  }

  /** One byte at a time. */
  function Bytes(s: string): (r: seq<string>)
    ensures IsCut(r, s)
  {
    if s == [] then []
    else
      var r := [[s[0]]] + Bytes(s[1..]);
      assert r[1..] == Bytes(s[1..]) && s == [s[0]] + s[1..];
      r
  }

  lemma {:induction false} JoinedConcat(a: seq<string>, b: seq<string>)
    ensures Joined(a + b) == Joined(a) + Joined(b)
  {
    if a == [] {
      assert a + b == b && [] + Joined(b) == Joined(b);
    } else {
      JoinedConcat(a[1..], b);
      assert (a + b)[1..] == a[1..] + b;
      Regroup(a[0], Joined(a[1..]), Joined(b));
    }
  }

  lemma {:induction false} EncodeConcat(a: seq<Item>, b: seq<Item>)
    ensures EncodeAll(a + b) == EncodeAll(a) + EncodeAll(b)
  {
    hide Encode;
    if a == [] {
      assert a + b == b && [] + EncodeAll(b) == EncodeAll(b);
    } else {
      EncodeConcat(a[1..], b);
      assert (a + b)[1..] == a[1..] + b;
      Regroup(Encode(a[0]), EncodeAll(a[1..]), EncodeAll(b));
    }
  }

  lemma {:induction false} MessagesConcat(a: seq<Item>, b: seq<Item>)
    ensures Messages(a + b) == Messages(a) + Messages(b) && |Messages(a)| == |a|
  {
    if a == [] {
      assert a + b == b;
    } else {
      MessagesConcat(a[1..], b);
      assert (a + b)[1..] == a[1..] + b;
    }
  }

  /** Length of a part that overflows and is not the message: one byte more than fits, or two. */
  function BadLength(item: Item): nat {
    if item.Delimited? && |item.msg| == MAX_TCP_FRAME + 1 then MAX_TCP_FRAME + 2 else MAX_TCP_FRAME + 1
  }

  lemma BadPart(item: Item)
    requires WellFormed(item) && !Fits(item)
    ensures BadLength(item) < |Payload(item)|
    ensures Payload(item)[..BadLength(item)] != item.msg
  {
    hide Numeral, FirstDelimiter;
    var part := Payload(item)[..BadLength(item)];
    if item.Counted? {
      ValueOfNumeral(|item.msg|);
      assert part[0] == Numeral(|item.msg|)[0] && IsDigit(part[0]) && item.msg[0] == '<';
    } else {
      assert |part| != |item.msg|;
    }
  }

  /** The bytes up to a part of an item that just does not overflow wait. */
  lemma UpToOverflow(item: Item)
    requires WellFormed(item) && |Payload(item)| > MAX_TCP_FRAME
    ensures var t := item.padding + Payload(item)[..MAX_TCP_FRAME];
            Waits(t) && Split(t).1 == Payload(item)[..MAX_TCP_FRAME]
  {
    hide Split, Payload, WellFormed, Fits;
    var e, k := Encode(item), |item.padding|;
    var t := item.padding + Payload(item)[..MAX_TCP_FRAME];
    forall m | 0 <= m <= |t| ensures Split(t[..m]).0 == [] && |Split(t[..m]).1| <= MAX_TCP_FRAME {
      assert t[..m] == e[..m];
      var left := PartOfItem(item, m);
    }
    assert t == e[..|t|];
    var left := PartOfItem(item, |t|);
  }

  /** The reads that bring out a wrong message at place `i`. */
  lemma BreakingCut(items: seq<Item>, i: nat) returns (chunks: seq<string>)
    requires i < |items| && (forall j :: 0 <= j < |items| ==> WellFormed(items[j])) && !Fits(items[i])
    requires AllFit(items[..i])
    ensures IsCut(chunks, EncodeAll(items)) && Delivered([], chunks) != Messages(items)
  {
    hide Split, Run, Waits, Encode, Payload, WellFormed, Fits, AfterRead, NotBlank, Delivered;
    var pre, item, p, n := items[..i], items[i], Payload(items[i]), BadLength(items[i]);
    BadPart(item);
    UpToOverflow(item);
    var t := item.padding + p[..MAX_TCP_FRAME];
    var a, c, d := EncodeAll(pre) + t, p[MAX_TCP_FRAME..n], p[n..] + EncodeAll(items[i + 1..]);
    StreamParts(items, i, n);
    chunks := Bytes(a) + ([c] + Bytes(d));
    JoinedConcat(Bytes(a), [c] + Bytes(d));
    assert ([c] + Bytes(d))[1..] == Bytes(d);
    assert IsCut(chunks, EncodeAll(items));
    SplitNothing();
    assert [] + Joined(Bytes(a)) == EncodeAll(pre) + t;
    RunFits([], Bytes(a), pre, t);
    RunConcat([], Bytes(a), [c] + Bytes(d));
    PartOfPayload(item, n);
    assert p[..MAX_TCP_FRAME] + c == p[..n];
    RunOne(p[..MAX_TCP_FRAME], [c] + Bytes(d));
    DeliveredIsRun([], chunks);
    MessageAt(items, i);
    assert Delivered([], chunks)[i] == p[..n];
  }

  lemma StreamParts(items: seq<Item>, i: nat, n: nat)
    requires i < |items| && MAX_TCP_FRAME <= n <= |Payload(items[i])|
    ensures var p := Payload(items[i]);
            (EncodeAll(items[..i]) + (items[i].padding + p[..MAX_TCP_FRAME])) +
            (p[MAX_TCP_FRAME..n] + (p[n..] + EncodeAll(items[i + 1..]))) == EncodeAll(items)
  {
    hide Payload;
    var item, p, rest := items[i], Payload(items[i]), EncodeAll(items[i + 1..]);
    EncodeConcat(items[..i], items[i..]);
    assert items[..i] + items[i..] == items && items[i..][1..] == items[i + 1..];
    assert EncodeAll(items[i..]) == (item.padding + p) + rest;
    assert p == p[..MAX_TCP_FRAME] + (p[MAX_TCP_FRAME..n] + p[n..]);
  }

  lemma MessageAt(items: seq<Item>, i: nat)
    requires i < |items|
    ensures |Messages(items[..i])| == i && i < |Messages(items)| && Messages(items)[i] == items[i].msg
  {
    MessagesConcat(items[..i], items[i..]);
    assert items[..i] + items[i..] == items;
    assert Messages(items[i..])[0] == items[i].msg;
  }

  /**
    Framed messages come out exactly and in order for every cut into possible reads iff every one fits:
    a counted one with its count in `MAX_TCP_FRAME + 1` bytes, a delimited one with its carriage returns in
    `MAX_TCP_FRAME`, or without any in one more.
   */
  lemma DeliveredForEveryCutIffFits(items: seq<Item>)
    requires forall i :: 0 <= i < |items| ==> WellFormed(items[i])
    ensures (forall chunks :: IsCut(chunks, EncodeAll(items)) ==> Delivered([], chunks) == Messages(items)) <==>
            (forall i :: 0 <= i < |items| ==> Fits(items[i]))
  {
    hide Delivered, Encode, EncodeAll, WellFormed, Fits;
    if forall i :: 0 <= i < |items| ==> Fits(items[i]) {
      forall chunks | IsCut(chunks, EncodeAll(items)) ensures Delivered([], chunks) == Messages(items) {
        FramedMessagesDelivered(items, chunks);
      }
    } else {
      var i := FirstBad(items);
      var chunks := BreakingCut(items, i);
    }
  }

  lemma FirstBad(items: seq<Item>) returns (i: nat)
    requires exists i :: 0 <= i < |items| && !Fits(items[i])
    ensures i < |items| && !Fits(items[i]) && forall j :: 0 <= j < i ==> Fits(items[j])
  {
    hide Fits;
    i := 0;
    while Fits(items[i])
      invariant i < |items| && forall j :: 0 <= j < i ==> Fits(items[j])
      decreases |items| - i
    {
      i := i + 1;
    }
  }

  /** A line comes out whole for every cut iff it is at most one byte longer than `MAX_TCP_FRAME`. */
  lemma LineWholeIffShort(body: string)
    requires IsLine(body)
    ensures (forall chunks :: IsCut(chunks, body + "\n") ==> Delivered([], chunks) == [body]) <==>
            |body| <= MAX_TCP_FRAME + 1
  {
    hide Delivered, IsLine, IsCut;
    var items := [LineItem(body)];
    LineEncoded(body);
    DeliveredForEveryCutIffFits(items);
    assert Fits(items[0]) <==> |body| <= MAX_TCP_FRAME + 1;
  }

  function LineItem(body: string): Item {
    Delimited([], body, 0, '\n')
  }

  lemma LineEncoded(body: string)
    requires IsLine(body)
    ensures WellFormed(LineItem(body)) && Payload(LineItem(body)) == body + "\n" && Encode(LineItem(body)) == body + "\n"
    ensures EncodeAll([LineItem(body)]) == body + "\n" && Messages([LineItem(body)]) == [body]
  {
    hide IsLine;
    var item := LineItem(body);
    assert body + CarriageReturns(0) == body;
    assert [] + (body + "\n") == body + "\n";
    assert [item][1..] == [] && EncodeAll([]) == [] && (body + "\n") + [] == body + "\n";
  }

  // ----- a concrete line beyond the bound

  /** `n` letters, then `tail`. */
  function Letters(n: nat, tail: string): string {
    seq(n, i => 'a') + tail
  }

  lemma LettersAreLine(n: nat)
    requires n > 0
    ensures IsLine(Letters(n, []))
  {
    assert FirstDelimiter(Letters(n, [])) == -1;
  }

  lemma LettersWait(n: nat)
    requires n > 0
    ensures Split(Letters(n, [])) == ([], Letters(n, []))
  {
    var b := Letters(n, []);
    LettersAreLine(n);
    hide IsLine, Letters, Split;
    LineEncoded(b);
    PartOfPayload(LineItem(b), |b|);
    assert (b + "\n")[..|b|] == b;
  }

  lemma LettersLine(n: nat)
    requires n > 0
    ensures Split(Letters(n, "\n")) == ([Letters(n, [])], [])
  {
    var b := Letters(n, []);
    LettersAreLine(n);
    assert b + "\n" == Letters(n, "\n");
    hide IsLine, Letters, Split;
    LineEncoded(b);
    SplitItem(LineItem(b), []);
    SplitNothing();
    assert (b + "\n") + [] == b + "\n" && [b] + [] == [b];
  }

  /** A line longer than `MAX_TCP_FRAME` is delivered whole or in two pieces, depending on the reads. */
  lemma LongLineDependsOnCut()
    ensures var n := MAX_TCP_FRAME;
            var one, two := [Letters(n, []), Letters(2, "\n")], [Letters(n, []), Letters(1, []), Letters(1, "\n")];
            && IsCut(one, Letters(n + 2, "\n")) && IsCut(two, Letters(n + 2, "\n"))
            && Delivered([], one) == [Letters(n + 2, [])]
            && Delivered([], two) == [Letters(n + 1, []), Letters(1, [])]
  {
    hide Split, Letters, AfterRead;
    var n := MAX_TCP_FRAME;
    var a, b, c, d := Letters(n, []), Letters(2, "\n"), Letters(1, []), Letters(1, "\n");
    LettersMeaning(n);
    assert [] + a == a && [] + d == d;
    assert AfterRead([], a) == ([], a) by { LettersWait(n); AfterReadIs([], a); }
    assert AfterRead(a, b) == ([Letters(n + 2, [])], []) by { LettersLine(n + 2); AfterReadIs(a, b); }
    assert AfterRead(a, c) == ([Letters(n + 1, [])], []) by { LettersWait(n + 1); AfterReadIs(a, c); }
    assert AfterRead([], d) == ([c], []) by { LettersLine(1); AfterReadIs([], d); }
    OneRead([], a, [b]);
    OneRead(a, b, []);
    OneRead([], a, [c, d]);
    OneRead(a, c, [d]);
    OneRead([], d, []);
    assert [a, b] == [a] + [b] && [b] == [b] + [] && [a, c, d] == [a] + [c, d] && [c, d] == [c] + [d] && [d] == [d] + [];
    assert Delivered([], []) == [];
    assert a + (b + []) == a + b && a + (c + (d + [])) == a + (c + d);
  }

  lemma AfterReadIs(buffer: string, chunk: string)
    ensures var r := Split(buffer + chunk);
            AfterRead(buffer, chunk) == if |r.1| > MAX_TCP_FRAME then (r.0 + [r.1], []) else r
    ensures Split(buffer + chunk).0 == [] ==> [] + [Split(buffer + chunk).1] == [Split(buffer + chunk).1]
  {
  }

  lemma OneRead(buffer: string, chunk: string, rest: seq<string>)
    requires chunk != []
    ensures var r := AfterRead(buffer, chunk);
            Delivered(buffer, [chunk] + rest) == r.0 + Delivered(r.1, rest)
    ensures Joined([chunk] + rest) == chunk + Joined(rest)
  {
    hide AfterRead;
    assert ([chunk] + rest)[1..] == rest;
  }

  lemma LettersMeaning(n: nat)
    requires n > 0
    ensures |Letters(n, [])| == n && |Letters(n + 1, [])| == n + 1
    ensures Letters(n, []) + Letters(2, "\n") == Letters(n + 2, "\n")
    ensures Letters(n, []) + Letters(1, []) == Letters(n + 1, [])
    ensures Letters(1, []) + Letters(1, "\n") == Letters(2, "\n")
    ensures |Letters(1, [])| == 1 && |Letters(1, "\n")| == 2 && |Letters(2, "\n")| == 3
  {
  }
}
