/** The receiving side of the HTTP client's TCP connection (k64_net.c:632-645, 771-834). */
module Tcp {
  import opened Blocks

  const BUFFER_SIZE: nat := 16 * 1024 * 1024
  const MODULUS: nat := 0x1_0000_0000
  const MAX_SEGMENT: nat := 65515

  datatype Phase = Idle | Resolving | Arp | SynSent | Established | RequestSent | Finished | Error

  datatype Segment = Segment(seqNo: nat, ackNo: nat, syn: bool, ack: bool, fin: bool, rst: bool, data: seq<Byte>)

  /** The client's side of the connection; `complete` is the check of the response read so far. */
  datatype Client = Client(phase: Phase, seqNo: nat, ackNo: nat, response: seq<Byte>)

  type Complete = seq<Byte> -> bool

  function Receiving(c: Client): bool { c.phase == RequestSent || c.phase == Established }

  // ---------------------------------------------------------------------------------------
  // One segment, as a function
  // ---------------------------------------------------------------------------------------

  /** What is left of the buffer takes as much of the bytes as fits. */
  function Appended(response: seq<Byte>, data: seq<Byte>): seq<Byte> {
    if |response| + 1 >= BUFFER_SIZE then response
    else if |data| > BUFFER_SIZE - 1 - |response| then response + data[..BUFFER_SIZE - 1 - |response|]
    else response + data
  }

  /** The data of a segment: taken when it is next, its new part when it overlaps, nothing when there is a gap. */
  function TakeData(c: Client, s: Segment): Client {
    if s.seqNo == c.ackNo then c.(response := Appended(c.response, s.data), ackNo := (s.seqNo + |s.data|) % MODULUS)
    else if s.seqNo < c.ackNo && c.ackNo - s.seqNo < |s.data| then
      var seen := c.ackNo - s.seqNo;
      c.(response := Appended(c.response, s.data[seen..]), ackNo := (c.ackNo + |s.data| - seen) % MODULUS)
    else c
  }

  function Handle(c: Client, s: Segment, complete: Complete): Client {
    if c.phase == Idle then c
    else if s.rst then c.(phase := Error)
    else if c.phase == SynSent && s.syn && s.ack && s.ackNo == (c.seqNo + 1) % MODULUS then
      c.(phase := Established, seqNo := (c.seqNo + 1) % MODULUS, ackNo := (s.seqNo + 1) % MODULUS)
    else
      var c1 := if Receiving(c) && s.data != [] then
                  var t := TakeData(c, s); if complete(t.response) then t.(phase := Finished) else t
                else c;
      if s.fin then c1.(phase := Finished, ackNo := if (s.seqNo + |s.data|) % MODULUS == c1.ackNo then (c1.ackNo + 1) % MODULUS else c1.ackNo)
      else c1
  }

  class HttpClient {
    const complete: Complete
    var phase: Phase
    var seqNo: nat
    var ackNo: nat
    var response: seq<Byte>

    ghost function Now(): Client
      reads this
    {
      Client(phase, seqNo, ackNo, response)
    }

    constructor (seqNo: nat, complete: Complete)
      ensures Now() == Client(SynSent, seqNo, 0, []) && this.complete == complete
    {
      this.phase, this.seqNo, this.ackNo, this.response, this.complete := SynSent, seqNo, 0, [], complete;
    }

    method Append(payload: seq<Byte>)
      modifies this`response
      ensures response == Appended(old(response), payload)
    {
      if |payload| == 0 || |response| + 1 >= BUFFER_SIZE {
        return;
      }
      var room := BUFFER_SIZE - 1 - |response|;
      var len := |payload|;
      if len > room {
        len := room;
      }
      for i := 0 to len
        invariant response == old(response) + payload[..i]
      {
        response := response + [payload[i]];
      }
      assert payload[..|payload|] == payload;
    }

    method Take(s: Segment)
      requires s.seqNo < MODULUS && ackNo < MODULUS
      modifies this`response, this`ackNo
      ensures Now() == TakeData(old(Now()), s)
    {
      if s.seqNo == ackNo {
        Append(s.data);
        ackNo := (s.seqNo + |s.data|) % MODULUS;
      } else if s.seqNo < ackNo {
        var seen := ackNo - s.seqNo;
        if seen < |s.data| {
          Append(s.data[seen..]);
          ackNo := (ackNo + |s.data| - seen) % MODULUS;
        }
      }
    }

    /** handle_tcp_payload, for a segment of this connection with a sound header. */
    method Receive(s: Segment)
      requires s.seqNo < MODULUS && ackNo < MODULUS
      modifies this
      ensures Now() == Handle(old(Now()), s, complete)
    {
      if phase == Idle {
        return;
      }
      if s.rst {
        phase := Error;
        return;
      }
      if phase == SynSent && s.syn && s.ack && s.ackNo == (seqNo + 1) % MODULUS {
        seqNo, ackNo := (seqNo + 1) % MODULUS, (s.seqNo + 1) % MODULUS;
        phase := Established;
        return;
      }
      if (phase == RequestSent || phase == Established) && s.data != [] {
        Take(s);
        if complete(response) {
          phase := Finished;
        }
      }
      if s.fin {
        if (s.seqNo + |s.data|) % MODULUS == ackNo {
          ackNo := (ackNo + 1) % MODULUS;
        }
        phase := Finished;
      }
    }
  }

  // ---------------------------------------------------------------------------------------
  // What a peer can send
  // ---------------------------------------------------------------------------------------

  /** The peer's side: its initial sequence number and the bytes of its stream. */
  datatype Peer = Peer(isn: nat, stream: seq<Byte>)

  /** The sequence number of stream offset o: the SYN takes one. */
  function SeqAt(p: Peer, o: nat): nat { (p.isn + 1 + o) % MODULUS }

  /** Longer streams would come round to sequence numbers in use. */
  ghost predicate Fits(p: Peer) { |p.stream| + MAX_SEGMENT < MODULUS }

  /** A slice of the stream at offset o, with FIN only at its end; or the SYN. */
  ghost predicate SliceAt(p: Peer, s: Segment, o: nat) {
    && o + |s.data| <= |p.stream| && s.data == p.stream[o..o + |s.data|] && |s.data| <= MAX_SEGMENT
    && s.seqNo == SeqAt(p, o) && !s.syn && (s.fin ==> o + |s.data| == |p.stream|)
  }

  ghost predicate SentBy(p: Peer, s: Segment) {
    || (exists o :: SliceAt(p, s, o))
    || (s.syn && s.seqNo == p.isn % MODULUS && s.data == [] && !s.fin)
  }

  // ---------------------------------------------------------------------------------------
  // The response is a prefix of the stream
  // ---------------------------------------------------------------------------------------

  function Prefix(p: Peer, n: nat): seq<Byte>
    requires n <= |p.stream|
  {
    p.stream[..if n < BUFFER_SIZE then n else BUFFER_SIZE - 1]
  }

  /** The first n bytes of the stream are acknowledged, and as many of them as fit are in the buffer. */
  ghost predicate Consumed(p: Peer, c: Client, n: nat, fin: bool) {
    && n <= |p.stream| && c.response == Prefix(p, n)
    && c.ackNo == (if fin then (SeqAt(p, n) + 1) % MODULUS else SeqAt(p, n))
    && (fin ==> n == |p.stream| && !Receiving(c) && c.phase != SynSent)
  }

  /** Before the connection stands, or after: nothing received, or a prefix. */
  ghost predicate InSync(p: Peer, c: Client) {
    || (c.response == [] && !Receiving(c))
    || (c.phase != SynSent && exists n, fin :: Consumed(p, c, n, fin))
  }

  lemma {:induction false} ModDifference(b: nat, x: nat, y: nat)
    requires x <= y < x + MODULUS
    ensures (b + x) % MODULUS == (b + y) % MODULUS <==> x == y
    ensures (b + y) % MODULUS - (b + x) % MODULUS == y - x || (b + y) % MODULUS - (b + x) % MODULUS == y - x - MODULUS
  {
    var q, r := (b + x) / MODULUS, (b + x) % MODULUS;
    assert b + x == q * MODULUS + r;
    var d := y - x;
    if r + d < MODULUS {
      assert (b + y) / MODULUS == q && (b + y) % MODULUS == r + d;
    } else {
      assert b + y == (q + 1) * MODULUS + (r + d - MODULUS);
      assert (b + y) / MODULUS == q + 1 && (b + y) % MODULUS == r + d - MODULUS;
    }
  }

  lemma {:induction false} SeqAfter(p: Peer, o: nat, n: nat)
    ensures (SeqAt(p, o) + n) % MODULUS == SeqAt(p, o + n)
  {
    var x := p.isn + 1 + o;
    assert x == x / MODULUS * MODULUS + x % MODULUS;
    assert x + n == x / MODULUS * MODULUS + (x % MODULUS + n);
    ModShift(x / MODULUS, x % MODULUS + n);
  }

  lemma {:induction false} ModShift(q: nat, r: nat)
    ensures (q * MODULUS + r) % MODULUS == r % MODULUS
  {
    assert r == r / MODULUS * MODULUS + r % MODULUS;
    assert q * MODULUS + r == (q + r / MODULUS) * MODULUS + r % MODULUS;
  }

  lemma {:induction false} AppendedPrefix(p: Peer, n: nat, m: nat)
    requires n <= m <= |p.stream|
    ensures Appended(Prefix(p, n), p.stream[n..m]) == Prefix(p, m)
  {
    var room := BUFFER_SIZE - 1 - n;
    if n + 1 < BUFFER_SIZE {
      if m - n > room {
        assert p.stream[n..m][..room] == p.stream[n..BUFFER_SIZE - 1];
        assert p.stream[..n] + p.stream[n..BUFFER_SIZE - 1] == p.stream[..BUFFER_SIZE - 1];
      } else {
        assert p.stream[..n] + p.stream[n..m] == p.stream[..m];
      }
    }
  }

  /** How many bytes are acknowledged after a slice at offset o arrives when n were. */
  function After(c: Client, s: Segment, o: nat, n: nat): nat {
    if s.seqNo == c.ackNo || (s.seqNo < c.ackNo && c.ackNo - s.seqNo < |s.data|) then o + |s.data| else n
  }

  /** The sequence numbers of two offsets of one stream compare as the code expects, or too far apart to matter. */
  lemma {:induction false} Compared(p: Peer, o: nat, n: nat)
    requires Fits(p) && o <= |p.stream| && n <= |p.stream|
    ensures SeqAt(p, o) == SeqAt(p, n) <==> o == n
    ensures SeqAt(p, o) < SeqAt(p, n) && SeqAt(p, n) - SeqAt(p, o) < MAX_SEGMENT ==> SeqAt(p, n) - SeqAt(p, o) == n - o
  {
    if o <= n {
      ModDifference(p.isn + 1, o, n);
    } else {
      ModDifference(p.isn + 1, n, o);
    }
  }

  /** Appending the part of a slice that is new. */
  lemma {:induction false} TakeFrom(p: Peer, c: Client, n: nat, s: Segment, o: nat)
    requires Consumed(p, c, n, false) && SliceAt(p, s, o) && o <= n <= o + |s.data|
    ensures var m := o + |s.data|;
            Consumed(p, c.(response := Appended(c.response, s.data[n - o..]), ackNo := (s.seqNo + |s.data|) % MODULUS), m, false)
  {
    var m := o + |s.data|;
    assert s.data[n - o..] == p.stream[n..m];
    AppendedPrefix(p, n, m);
    SeqAfter(p, o, |s.data|);
  }

  lemma {:induction false} TakeDataConsumes(p: Peer, c: Client, n: nat, s: Segment, o: nat)
    requires Fits(p) && Consumed(p, c, n, false) && SliceAt(p, s, o) && s.data != []
    ensures n <= After(c, s, o, n) && Consumed(p, TakeData(c, s), After(c, s, o, n), false)
  {
    Compared(p, o, n);
    if s.seqNo == c.ackNo {
      TakeFrom(p, c, n, s, o);
      assert s.data[0..] == s.data;
    } else if s.seqNo < c.ackNo && c.ackNo - s.seqNo < |s.data| {
      assert c.ackNo - s.seqNo == n - o;
      TakeFrom(p, c, n, s, o);
      assert c.ackNo + |s.data| - (n - o) == s.seqNo + |s.data|;
    }
  }

  /** Data at the point the stream has been read to is always taken: without gaps the reader never stalls. */
  lemma {:induction false} NextSliceIsTaken(p: Peer, c: Client, n: nat, s: Segment, complete: Complete)
    requires Fits(p) && Consumed(p, c, n, false) && Receiving(c) && SliceAt(p, s, n) && s.data != [] && !s.rst && !s.fin
    ensures Consumed(p, Handle(c, s, complete), n + |s.data|, false)
  {
    TakeDataConsumes(p, c, n, s, n);
  }

  lemma {:induction false} FinKeepsConsumed(p: Peer, c: Client, n: nat, fin: bool, s: Segment, o: nat)
    requires Fits(p) && Consumed(p, c, n, fin) && SliceAt(p, s, o) && s.fin
    ensures var end := (s.seqNo + |s.data|) % MODULUS;
            var c' := c.(phase := Finished, ackNo := if end == c.ackNo then (c.ackNo + 1) % MODULUS else c.ackNo);
            Consumed(p, c', n, fin || n == |p.stream|)
  {
    SeqAfter(p, o, |s.data|);
    Compared(p, |p.stream|, n);
    if fin {
      SeqAfter(p, n, 1);
      ModDifference(p.isn + 1, n, n + 1);
    }
  }

  /** Every segment of the peer keeps the response a prefix of its stream. */
  lemma {:induction false} HandleKeepsSync(p: Peer, c: Client, s: Segment, complete: Complete)
    requires Fits(p) && InSync(p, c) && SentBy(p, s)
    ensures InSync(p, Handle(c, s, complete))
  {
    var c' := Handle(c, s, complete);
    if c.response == [] && !Receiving(c) {
      if Receiving(c') {
        SeqAfter(p, 0, 0);
        SynAck(p);
        assert Consumed(p, c', 0, false);
      }
    } else {
      var n, fin :| Consumed(p, c, n, fin);
      if s.rst || c.phase == Idle || s.syn {
        assert c'.response == c.response;
        if !s.rst && c.phase != Idle {
          assert c' == c;
        }
        assert Consumed(p, c', n, fin);
      } else {
        var o :| SliceAt(p, s, o);
        HandleSlice(p, c, n, fin, s, o, complete);
      }
    }
  }

  lemma {:induction false} SynAck(p: Peer)
    ensures (p.isn % MODULUS + 1) % MODULUS == SeqAt(p, 0)
  {
    var q, r := p.isn / MODULUS, p.isn % MODULUS;
    ModShift(q, r + 1);
    assert p.isn + 1 == q * MODULUS + (r + 1);
  }

  lemma {:induction false} HandleSlice(p: Peer, c: Client, n: nat, fin: bool, s: Segment, o: nat, complete: Complete)
    requires Fits(p) && Consumed(p, c, n, fin) && SliceAt(p, s, o) && c.phase != SynSent && c.phase != Idle && !s.rst
    ensures Handle(c, s, complete).phase != SynSent && exists m, f :: Consumed(p, Handle(c, s, complete), m, f)
  {
    var c1, m := c, n;
    if Receiving(c) && s.data != [] {
      TakeDataConsumes(p, c, n, s, o);
      c1, m := TakeData(c, s), After(c, s, o, n);
      if complete(c1.response) {
        c1 := c1.(phase := Finished);
      }
    }
    assert Consumed(p, c1, m, fin);
    if s.fin {
      FinKeepsConsumed(p, c1, m, fin, s, o);
      assert Consumed(p, Handle(c, s, complete), m, fin || m == |p.stream|);
    } else {
      assert Handle(c, s, complete) == c1;
    }
  }

  // ---------------------------------------------------------------------------------------
  // Whole connections
  // ---------------------------------------------------------------------------------------

  /** A segment comes in, or the client sends its request. */
  datatype Event = Incoming(segment: Segment) | SendRequest(len: nat)

  function Step(c: Client, e: Event, complete: Complete): Client {
    match e
    case Incoming(s) => Handle(c, s, complete)
    case SendRequest(len) =>
      if c.phase == Established then c.(phase := RequestSent, seqNo := (c.seqNo + len) % MODULUS) else c
  }

  function Run(c: Client, events: seq<Event>, complete: Complete): Client
    decreases |events|
  {
    if events == [] then c else Run(Step(c, events[0], complete), events[1..], complete)
  }

  lemma {:induction false} RunKeepsSync(p: Peer, c: Client, events: seq<Event>, complete: Complete)
    requires Fits(p) && InSync(p, c) && forall i :: 0 <= i < |events| && events[i].Incoming? ==> SentBy(p, events[i].segment)
    ensures InSync(p, Run(c, events, complete))
    decreases |events|
  {
    if events != [] {
      var c' := Step(c, events[0], complete);
      if events[0].Incoming? {
        HandleKeepsSync(p, c, events[0].segment, complete);
      } else if !(c.response == [] && !Receiving(c)) {
        var n, fin :| Consumed(p, c, n, fin);
        assert Consumed(p, c', n, fin);
      }
      RunKeepsSync(p, c', events[1..], complete);
    }
  }

  /**
   * Whatever order, duplicates, overlaps and gaps the segments come in, the response is a prefix of the peer's stream;
   * while data is accepted its length is what the acknowledgement number says, as far as the buffer reaches.
   */
  lemma {:induction false} ResponseIsPrefix(p: Peer, seqNo: nat, events: seq<Event>, complete: Complete)
    requires Fits(p) && forall i :: 0 <= i < |events| && events[i].Incoming? ==> SentBy(p, events[i].segment)
    ensures var c := Run(Client(SynSent, seqNo, 0, []), events, complete);
            && c.response <= p.stream
            && (Receiving(c) && |p.stream| < BUFFER_SIZE ==> c.ackNo == SeqAt(p, |c.response|))
  {
    RunKeepsSync(p, Client(SynSent, seqNo, 0, []), events, complete);
    var c := Run(Client(SynSent, seqNo, 0, []), events, complete);
    if !(c.response == [] && !Receiving(c)) {
      var n, fin :| Consumed(p, c, n, fin);
    }
  }

  // ---------------------------------------------------------------------------------------
  // How a connection begins and ends
  // ---------------------------------------------------------------------------------------

  /** A connection that waits for the answer to its SYN stands exactly after a SYN-ACK of its own number, and counts from the peer's. */
  lemma {:induction false} Handshake(c: Client, s: Segment, complete: Complete)
    requires c.phase == SynSent
    ensures var c' := Handle(c, s, complete);
            && (Receiving(c') <==> !s.rst && s.syn && s.ack && s.ackNo == (c.seqNo + 1) % 0x1_0000_0000)
            && (Receiving(c') ==>
                  c' == Client(Established, (c.seqNo + 1) % 0x1_0000_0000, (s.seqNo + 1) % 0x1_0000_0000, c.response))
            && (!Receiving(c') ==> c'.phase == (if s.rst then Error else if s.fin then Finished else SynSent))
            && c'.response == c.response
  {
  }

  /** A reset is an error in every state but idle, and a FIN finishes a connection that stands, whatever is missing. */
  lemma {:induction false} Endings(c: Client, s: Segment, complete: Complete)
    requires c.phase != Idle
    ensures s.rst ==> Handle(c, s, complete) == c.(phase := Error)
    ensures !s.rst && s.fin && c.phase != SynSent ==> Handle(c, s, complete).phase == Finished
    ensures !s.rst && !s.fin && Receiving(c) ==>
              var c' := Handle(c, s, complete);
              c'.seqNo == c.seqNo && c'.phase == (if s.data != [] && complete(c'.response) then Finished else c.phase)
    ensures !s.rst && !s.fin && !Receiving(c) && c.phase != SynSent ==> Handle(c, s, complete) == c
  {
  }

  /** The rest of the stream from offset o on in order, its last slice with FIN. */
  ghost predicate Delivers(p: Peer, o: nat, slices: seq<Segment>)
    decreases |slices|
  {
    && slices != [] && SliceAt(p, slices[0], o) && slices[0].data != [] && !slices[0].rst
    && (if |slices| == 1 then slices[0].fin else !slices[0].fin && Delivers(p, o + |slices[0].data|, slices[1..]))
  }

  function Arriving(slices: seq<Segment>): (events: seq<Event>)
    ensures |events| == |slices|
  {
    if slices == [] then [] else [Incoming(slices[0])] + Arriving(slices[1..])
  }

  /** The response is not taken for complete before its end. */
  ghost predicate NotEarly(p: Peer, complete: Complete) {
    forall n :: 0 <= n < |p.stream| ==> !complete(Prefix(p, n))
  }

  lemma {:induction false} LastSlice(p: Peer, c: Client, o: nat, s: Segment, complete: Complete)
    requires Fits(p) && Consumed(p, c, o, false) && Receiving(c) && SliceAt(p, s, o) && s.data != [] && !s.rst && s.fin
    ensures var c' := Handle(c, s, complete);
            c'.phase == Finished && c'.response == Prefix(p, |p.stream|) && c'.ackNo == (SeqAt(p, |p.stream|) + 1) % MODULUS && c'.seqNo == c.seqNo
  {
    TakeDataConsumes(p, c, o, s, o);
    SeqAfter(p, o, |s.data|);
  }

  lemma {:induction false} RestArrives(p: Peer, c: Client, o: nat, slices: seq<Segment>, complete: Complete)
    requires Fits(p) && Consumed(p, c, o, false) && Receiving(c) && Delivers(p, o, slices) && NotEarly(p, complete)
    ensures var c' := Run(c, Arriving(slices), complete);
            c'.phase == Finished && c'.response == Prefix(p, |p.stream|) && c'.ackNo == (SeqAt(p, |p.stream|) + 1) % MODULUS && c'.seqNo == c.seqNo
    decreases |slices|
  {
    var s, rest := slices[0], slices[1..];
    var events := Arriving(slices);
    assert events[0] == Incoming(s) && events[1..] == Arriving(rest);
    if rest == [] {
      LastSlice(p, c, o, s, complete);
    } else {
      var n := o + |s.data|;
      NextSliceIsTaken(p, c, o, s, complete);
      Endings(c, s, complete);
      assert rest[0].data != [] && SliceAt(p, rest[0], n);
      RestArrives(p, Handle(c, s, complete), n, rest, complete);
    }
  }

  /** The SYN-ACK that answers a client with this sequence number. */
  function SynAckTo(p: Peer, seqNo: nat): Segment {
    Segment(p.isn % MODULUS, (seqNo + 1) % MODULUS, true, true, false, false, [])
  }

  /** A whole exchange: after the handshake and the request, slices that come in order make up the peer's stream, byte for byte. */
  lemma {:induction false} WholeResponse(p: Peer, seqNo: nat, len: nat, slices: seq<Segment>, complete: Complete)
    requires Fits(p) && |p.stream| < BUFFER_SIZE && Delivers(p, 0, slices) && NotEarly(p, complete)
    ensures var events := [Incoming(SynAckTo(p, seqNo)), SendRequest(len)] + Arriving(slices);
            var c := Run(Client(SynSent, seqNo, 0, []), events, complete);
            && c.phase == Finished && c.response == p.stream
            && c.ackNo == (p.isn + 2 + |p.stream|) % MODULUS && c.seqNo == ((seqNo + 1) % MODULUS + len) % MODULUS
  {
    var c0, syn := Client(SynSent, seqNo, 0, []), SynAckTo(p, seqNo);
    var events := [Incoming(syn), SendRequest(len)] + Arriving(slices);
    Handshake(c0, syn, complete);
    var c1 := Step(c0, events[0], complete);
    var c2 := Step(c1, events[1], complete);
    assert events[1..][0] == events[1] && events[1..][1..] == Arriving(slices);
    SynAck(p);
    assert Consumed(p, c2, 0, false);
    RestArrives(p, c2, 0, slices, complete);
    assert p.stream[..|p.stream|] == p.stream;
    SeqAfter(p, |p.stream|, 1);
  }
}
