/** The packet protocol on a byte stream: frames, and the loops that survive short reads and writes
    (src/protocol.c, include/protocol.h, rio_writen of src/csapp.c). */
module Wire {
  import opened Compass
  import opened Display

  type Byte = b: int | 0 <= b < 256
  type Word16 = x: int | 0 <= x < 0x1_0000
  type Word32 = x: int | 0 <= x < 0x1_0000_0000

  const HEADER_SIZE := 16

  datatype Header = Header(ptype: Byte, param1: Int8, param2: Int8, param3: Int8,
                           size: Word16, sec: Word32, nsec: Word32)

  /** What a receiver gets: a header and, unless its size is zero, a payload. */
  datatype Message = Message(header: Header, payload: Option<seq<Byte>>)

  /** What a sender is given.  `pad` are the two bytes that the compiler leaves between the size
      and the time stamp; their value is arbitrary. */
  datatype Outgoing = Outgoing(header: Header, data: Option<seq<Byte>>, pad: (Byte, Byte))

  // ---- frames ----

  function ByteOf(x: Int8): Byte {
    if x < 0 then x + 256 else x
  }

  function SignedOf(b: Byte): Int8 {
    if b < 128 then b else b - 256
  }

  function Be16(x: Word16): seq<Byte> {
    [x / 256, x % 256]
  }

  function Be32(x: Word32): seq<Byte> {
    [x / 0x100_0000, x / 0x1_0000 % 256, x / 256 % 256, x % 256]
  }

  function FromBe16(s: seq<Byte>): Word16
    requires |s| == 2
  {
    (s[0] as int) * 256 + s[1]
  }

  function FromBe32(s: seq<Byte>): Word32
    requires |s| == 4
  {
    (s[0] as int) * 0x100_0000 + (s[1] as int) * 0x1_0000 + (s[2] as int) * 256 + s[3]
  }

  function EncodeHeader(h: Header, pad: (Byte, Byte)): (s: seq<Byte>)
    ensures |s| == HEADER_SIZE
  {
    [h.ptype, ByteOf(h.param1), ByteOf(h.param2), ByteOf(h.param3)] + Be16(h.size) + [pad.0, pad.1]
    + Be32(h.sec) + Be32(h.nsec)
  }

  function DecodeHeader(s: seq<Byte>): Header
    requires |s| == HEADER_SIZE
  {
    Header(s[0], SignedOf(s[1]), SignedOf(s[2]), SignedOf(s[3]),
           FromBe16(s[4..6]), FromBe32(s[8..12]), FromBe32(s[12..16]))
  }

  /** The buffer holds at least as many bytes as the size field says. */
  predicate BufferHolds(o: Outgoing) {
    o.header.size > 0 && o.data.Some? ==> |o.data.value| >= o.header.size
  }

  /** What proto_send_packet puts on the wire; without data the payload is left out. */
  function Frame(o: Outgoing): seq<Byte>
    requires BufferHolds(o)
  {
    EncodeHeader(o.header, o.pad)
    + if o.header.size > 0 && o.data.Some? then o.data.value[..o.header.size] else []
  }

  /** What should arrive. */
  function Meant(o: Outgoing): Message
    requires BufferHolds(o)
  {
    Message(o.header, if o.header.size > 0 && o.data.Some? then Some(o.data.value[..o.header.size]) else None)
  }

  /** What proto_recv_packet makes of a stream: a message and the rest of the stream. */
  function Decode(s: seq<Byte>): Option<(Message, seq<Byte>)> {
    if |s| < HEADER_SIZE then None
    else
      var h := DecodeHeader(s[..HEADER_SIZE]);
      if h.size == 0 then Some((Message(h, None), s[HEADER_SIZE..]))
      else if |s| < HEADER_SIZE + h.size then None
      else Some((Message(h, Some(s[HEADER_SIZE..HEADER_SIZE + h.size])), s[HEADER_SIZE + h.size..]))
  }

  lemma Be32RoundTrip(x: Word32)
    ensures FromBe32(Be32(x)) == x
  {
    assert x / 0x1_0000 == x / 256 / 256;
    assert x / 0x100_0000 == x / 256 / 256 / 256;
    assert x / 256 == x / 256 / 256 * 256 + x / 256 % 256;
  }

  lemma HeaderRoundTrip(h: Header, pad: (Byte, Byte))
    ensures DecodeHeader(EncodeHeader(h, pad)) == h
  {
    var s := EncodeHeader(h, pad);
    var front: seq<Byte> := [h.ptype, ByteOf(h.param1), ByteOf(h.param2), ByteOf(h.param3)] + Be16(h.size) + [pad.0, pad.1];
    assert s == front + Be32(h.sec) + Be32(h.nsec) && |front| == 8;
    assert s[4..6] == Be16(h.size);
    assert s[8..12] == Be32(h.sec);
    assert s[12..16] == Be32(h.nsec);
    Be32RoundTrip(h.sec);
    Be32RoundTrip(h.nsec);
  }

  lemma Be32Layout(x: Word32)
    ensures var s := Be32(x); (((s[0] as int) * 256 + s[1]) * 256 + s[2]) * 256 + s[3] == x
  {
    Be32RoundTrip(x);
  }

  /** The layout of a header, byte by byte: type, three parameters, the size with its high byte first,
      two bytes of padding, and the two halves of the time stamp, high bytes first. */
  lemma HeaderLayout(h: Header, pad: (Byte, Byte))
    ensures var s := EncodeHeader(h, pad);
            && |s| == 16 && s[0] == h.ptype
            && (s[1] - h.param1) % 256 == 0 && (s[2] - h.param2) % 256 == 0 && (s[3] - h.param3) % 256 == 0
            && (s[4] as int) * 256 + s[5] == h.size
            && (((s[8] as int) * 256 + s[9]) * 256 + s[10]) * 256 + s[11] == h.sec
            && (((s[12] as int) * 256 + s[13]) * 256 + s[14]) * 256 + s[15] == h.nsec
  {
    Be32Layout(h.sec);
    Be32Layout(h.nsec);
  }

  /** What a receiver makes of any sixteen bytes, in the same terms. */
  lemma HeaderReading(s: seq<Byte>)
    requires |s| == 16
    ensures var h := DecodeHeader(s);
            && h.ptype == s[0]
            && (h.param1 - s[1]) % 256 == 0 && (h.param2 - s[2]) % 256 == 0 && (h.param3 - s[3]) % 256 == 0
            && h.size == (s[4] as int) * 256 + s[5]
            && h.sec == (((s[8] as int) * 256 + s[9]) * 256 + s[10]) * 256 + s[11]
            && h.nsec == (((s[12] as int) * 256 + s[13]) * 256 + s[14]) * 256 + s[15]
  {
  }

  /** A frame is its header followed by as much of the data as the size says, and by nothing when there
      is no data. */
  lemma FrameLayout(o: Outgoing)
    requires BufferHolds(o)
    ensures var s := Frame(o); var n := if o.data.Some? then o.header.size else 0;
            && |s| == 16 + n && s[..16] == EncodeHeader(o.header, o.pad)
            && (o.data.Some? ==> forall i :: 0 <= i < n ==> s[16 + i] == o.data.value[i])
  {
  }

  /** A frame arrives as the message that was meant, with what follows it untouched, exactly when
      its size field is zero or its payload was supplied. */
  lemma FrameRoundTrip(o: Outgoing, rest: seq<Byte>)
    requires BufferHolds(o)
    ensures Decode(Frame(o) + rest) == Some((Meant(o), rest)) <==> o.header.size == 0 || o.data.Some?
  {
    var s := Frame(o) + rest;
    var h := EncodeHeader(o.header, o.pad);
    HeaderRoundTrip(o.header, o.pad);
    assert s[..HEADER_SIZE] == h;
    if o.header.size == 0 || o.data.Some? {
      assert s[|Frame(o)|..] == rest;
    } else if |s| >= HEADER_SIZE + o.header.size {
      assert |Decode(s).value.1| < |rest|;
    }
  }

  /** A frame that is cut short is not received. */
  lemma CutFrameFails(o: Outgoing, n: nat)
    requires BufferHolds(o) && (o.header.size == 0 || o.data.Some?) && n < |Frame(o)|
    ensures Decode(Frame(o)[..n]) == None
  {
    HeaderRoundTrip(o.header, o.pad);
    if n >= HEADER_SIZE {
      assert Frame(o)[..n][..HEADER_SIZE] == EncodeHeader(o.header, o.pad);
    }
  }

  // ---- streams ----

  ghost predicate Supplied(os: seq<Outgoing>) {
    forall i :: 0 <= i < |os| ==> BufferHolds(os[i]) && (os[i].header.size == 0 || os[i].data.Some?)
  }

  function Stream(os: seq<Outgoing>): seq<Byte>
    requires forall i :: 0 <= i < |os| ==> BufferHolds(os[i])
    decreases os
  {
    if os == [] then [] else Frame(os[0]) + Stream(os[1..])
  }

  /** Receiving until reception fails. */
  function DecodeAll(s: seq<Byte>): seq<Message>
    decreases |s|
  {
    match Decode(s)
    case None => []
    case Some((m, rest)) => [m] + DecodeAll(rest)
  }

  /** How many of the frames lie wholly within the first n bytes of the stream. */
  function Whole(os: seq<Outgoing>, n: int): nat
    requires forall i :: 0 <= i < |os| ==> BufferHolds(os[i])
    decreases os
  {
    if os == [] || n < |Frame(os[0])| then 0 else 1 + Whole(os[1..], n - |Frame(os[0])|)
  }

  /** What should arrive of a list of packets. */
  function AllMeant(os: seq<Outgoing>): (ms: seq<Message>)
    requires forall i :: 0 <= i < |os| ==> BufferHolds(os[i])
    ensures |ms| == |os| && forall i :: 0 <= i < |os| ==> ms[i] == Meant(os[i])
    decreases os
  {
    if os == [] then [] else [Meant(os[0])] + AllMeant(os[1..])
  }

  lemma DecodeFirst(o: Outgoing, rest: seq<Byte>)
    requires BufferHolds(o) && (o.header.size == 0 || o.data.Some?)
    ensures DecodeAll(Frame(o) + rest) == [Meant(o)] + DecodeAll(rest)
  {
    FrameRoundTrip(o, rest);
  }

  lemma {:induction false} WholeBound(os: seq<Outgoing>, n: nat)
    requires Supplied(os) && n <= |Stream(os)|
    ensures Whole(os, n) <= |os| && (n == |Stream(os)| ==> Whole(os, n) == |os|)
    decreases os
  {
    if os != [] && n >= |Frame(os[0])| {
      WholeBound(os[1..], n - |Frame(os[0])|);
    }
  }

  lemma MeantPrefix(os: seq<Outgoing>, k: nat)
    requires os != [] && Supplied(os) && k < |os|
    ensures AllMeant(os)[..k + 1] == [Meant(os[0])] + AllMeant(os[1..])[..k]
  {
  }

  lemma CutInFirst(os: seq<Outgoing>, n: nat)
    requires os != [] && Supplied(os) && n < |Frame(os[0])|
    ensures n < |Stream(os)| && DecodeAll(Stream(os)[..n]) == []
  {
    assert Stream(os)[..n] == Frame(os[0])[..n];
    CutFrameFails(os[0], n);
  }

  lemma CutLater(os: seq<Outgoing>, n: nat)
    requires os != [] && Supplied(os) && |Frame(os[0])| <= n <= |Stream(os)|
    ensures DecodeAll(Stream(os)[..n]) == [Meant(os[0])] + DecodeAll(Stream(os[1..])[..n - |Frame(os[0])|])
  {
    var f := Frame(os[0]);
    var rest := Stream(os[1..])[..n - |f|];
    assert Stream(os)[..n] == f + rest;
    DecodeFirst(os[0], rest);
  }

  /** A stream of frames cut anywhere yields exactly the messages that were sent whole before the
      cut, in order; then reception fails. */
  lemma {:induction false} StreamsDecode(os: seq<Outgoing>, n: nat)
    requires Supplied(os) && n <= |Stream(os)|
    ensures Whole(os, n) <= |os| && (n == |Stream(os)| ==> Whole(os, n) == |os|)
    ensures DecodeAll(Stream(os)[..n]) == AllMeant(os)[..Whole(os, n)]
    decreases os
  {
    WholeBound(os, n);
    if os == [] {
      assert Stream(os)[..n] == [];
    } else {
      var f := |Frame(os[0])|;
      if n < f {
        CutInFirst(os, n);
      } else {
        CutLater(os, n);
        StreamsDecode(os[1..], n - f);
        MeantPrefix(os, Whole(os[1..], n - f));
      }
    }
  }

  /** Everything that is sent arrives. */
  lemma StreamRoundTrip(os: seq<Outgoing>)
    requires Supplied(os)
    ensures DecodeAll(Stream(os)) == AllMeant(os)
  {
    StreamsDecode(os, |Stream(os)|);
    assert Stream(os)[..|Stream(os)|] == Stream(os);
  }

  // ---- the loops ----

  /** What the system does with one write: it is interrupted, it fails, or it takes some bytes. */
  datatype WriteOutcome = WriteInterrupted | WriteBroken | WriteSome(wish: nat)

  /** What the system does with one read: it stops (an error or a signal), or it delivers some bytes. */
  datatype ReadOutcome = ReadStopped | ReadSome(wish: nat)

  /** From one to `limit` bytes: any number, depending on `wish`. */
  function Chunk(wish: nat, limit: nat): (n: nat)
    requires limit > 0
    ensures 1 <= n <= limit && (wish < limit ==> n == wish + 1)
    decreases wish
  {
    if wish < limit then wish + 1 else Chunk(wish - limit, limit)
  }

  function RestOf(plan: seq<ReadOutcome>): seq<ReadOutcome> {
    if plan == [] then plan else plan[1..]
  }

  /** What one read of at most `wanted` bytes delivers when `there` bytes are on their way. */
  function OneRead(plan: seq<ReadOutcome>, there: nat, wanted: nat): (n: int)
    requires wanted > 0
    ensures -1 <= n <= wanted && n <= there && (n == 0 <==> there == 0 && (plan == [] || plan[0].ReadSome?))
    ensures n == -1 <==> plan != [] && plan[0].ReadStopped?
  {
    var limit := if there < wanted then there else wanted;
    if plan == [] then limit
    else if plan[0].ReadStopped? then -1
    else if limit == 0 then 0
    else Chunk(plan[0].wish, limit)
  }

  /** What a read loop for `wanted` bytes takes from the stream, and whether it is stopped. */
  function Reads(plan: seq<ReadOutcome>, there: nat, wanted: nat): (r: (nat, bool))
    ensures r.0 <= there && r.0 <= wanted
    decreases wanted
  {
    if wanted == 0 then (0, false)
    else
      var n := OneRead(plan, there, wanted);
      if n < 0 then (0, true)
      else if n == 0 then (0, false)
      else
        var r := Reads(RestOf(plan), there - n, wanted - n);
        (n + r.0, r.1)
  }

  /** The same with `done` bytes taken before. */
  function After(done: nat, r: (nat, bool)): (nat, bool) {
    (done + r.0, r.1)
  }

  lemma ReadsOn(plan: seq<ReadOutcome>, there: nat, wanted: nat, done: nat)
    requires wanted > 0
    ensures var n := OneRead(plan, there, wanted);
            After(done, Reads(plan, there, wanted)) ==
            if n < 0 then (done, true)
            else if n == 0 then (done, false)
            else After(done + n, Reads(RestOf(plan), there - n, wanted - n))
  {
  }

  lemma TakenSoFar(stream: seq<Byte>, done: nat, n: nat)
    requires done + n <= |stream|
    ensures stream[..done] + stream[done..][..n] == stream[..done + n] && stream[done..][n..] == stream[done + n..]
  {
  }

  /** A read loop that is not stopped gets all it wants or all there is, and without interruptions it
      is not stopped. */
  lemma {:induction false} WholeReads(plan: seq<ReadOutcome>, there: nat, wanted: nat)
    ensures var (k, stopped) := Reads(plan, there, wanted);
            && (!stopped ==> k == if wanted <= there then wanted else there)
            && ((forall i :: 0 <= i < |plan| ==> !plan[i].ReadStopped?) ==> !stopped)
    decreases wanted
  {
    if wanted > 0 {
      var n := OneRead(plan, there, wanted);
      if n > 0 {
        WholeReads(RestOf(plan), there - n, wanted - n);
      }
    }
  }

  /** A connection: the bytes on their way, and what the system will do with the calls to come.  When
      a script is used up, calls do all they are asked.  A read of an empty stream reports its end. */
  class Channel {
    var inFlight: seq<Byte>
    var writePlan: seq<WriteOutcome>
    var readPlan: seq<ReadOutcome>

    constructor (writePlan: seq<WriteOutcome>, readPlan: seq<ReadOutcome>)
      ensures inFlight == [] && this.writePlan == writePlan && this.readPlan == readPlan
    {
      inFlight := [];
      this.writePlan := writePlan;
      this.readPlan := readPlan;
    }

    ghost predicate NeverBreaks()
      reads this
    {
      forall i :: 0 <= i < |writePlan| ==> !writePlan[i].WriteBroken?
    }

    ghost predicate NeverStops()
      reads this
    {
      forall i :: 0 <= i < |readPlan| ==> !readPlan[i].ReadStopped?
    }

    /** One call of write: the number of bytes taken, or -1. */
    method Write(buf: seq<Byte>) returns (n: int, interrupted: bool)
      requires buf != []
      modifies `inFlight, `writePlan
      ensures -1 <= n <= |buf| && n != 0
      ensures inFlight == if n < 0 then old(inFlight) else old(inFlight) + buf[..n]
      ensures |writePlan| < |old(writePlan)| || (writePlan == old(writePlan) && n > 0)
      ensures old(NeverBreaks()) ==> NeverBreaks() && (n < 0 ==> interrupted)
    {
      interrupted := false;
      n := |buf|;
      if writePlan != [] {
        var outcome := writePlan[0];
        writePlan := writePlan[1..];
        match outcome
        case WriteInterrupted => n := -1; interrupted := true;
        case WriteBroken => n := -1;
        case WriteSome(wish) => n := Chunk(wish, |buf|);
      }
      if n > 0 {
        inFlight := inFlight + buf[..n];
      }
    }

    /** rio_writen */
    method WriteN(buf: seq<Byte>) returns (n: int)
      modifies `inFlight, `writePlan
      ensures n == |buf| || n == -1
      ensures n == |buf| ==> inFlight == old(inFlight) + buf
      ensures n == -1 ==> exists k :: 0 <= k < |buf| && inFlight == old(inFlight) + buf[..k]
      ensures old(NeverBreaks()) ==> n == |buf| && NeverBreaks()
    {
      var done := 0;
      while done < |buf|
        invariant done <= |buf| && inFlight == old(inFlight) + buf[..done]
        invariant old(NeverBreaks()) ==> NeverBreaks()
        decreases |buf| - done, |writePlan|
      {
        var written, interrupted := Write(buf[done..]);
        if written <= 0 {
          if interrupted {
            written := 0;
          } else {
            return -1;
          }
        }
        assert buf[..done] + buf[done..][..written] == buf[..done + written];
        done := done + written;
      }
      assert buf[..done] == buf;
      n := |buf|;
    }

    /** One call of read into buf[from..upto]: the number of bytes delivered, 0 at the end of the
        stream, or -1. */
    method Read(buf: array<Byte>, from: nat, upto: nat) returns (n: int)
      requires from < upto <= buf.Length
      modifies `inFlight, `readPlan, buf
      ensures n == OneRead(old(readPlan), |old(inFlight)|, upto - from)
      ensures readPlan == RestOf(old(readPlan))
      ensures inFlight == if n < 0 then old(inFlight) else old(inFlight)[n..]
      ensures n < 0 ==> buf[..] == old(buf[..])
      ensures n >= 0 ==> buf[..from + n] == old(buf[..from]) + old(inFlight)[..n]
    {
      n := OneRead(readPlan, |inFlight|, upto - from);
      readPlan := RestOf(readPlan);
      if n <= 0 {
        return;
      }
      forall i | 0 <= i < n {
        buf[from + i] := inFlight[i];
      }
      assert buf[..from] == old(buf[..from]);
      assert buf[from..from + n] == inFlight[..n];
      assert buf[..from + n] == buf[..from] + buf[from..from + n];
      inFlight := inFlight[n..];
    }

    /** One more read into a buffer that holds the first `done` bytes of the stream. */
    method ReadMore(buf: array<Byte>, done: nat, ghost stream: seq<Byte>) returns (n: int)
      requires done < buf.Length && done <= |stream| && buf[..done] == stream[..done] && inFlight == stream[done..]
      modifies `inFlight, `readPlan, buf
      ensures -1 <= n <= buf.Length - done && n <= |stream| - done
      ensures old(NeverStops()) ==> NeverStops()
      ensures After(done, Reads(old(readPlan), |stream| - done, buf.Length - done)) ==
              if n < 0 then (done, true)
              else if n == 0 then (done, false)
              else After(done + n, Reads(readPlan, |stream| - done - n, buf.Length - done - n))
      ensures var now := if n < 0 then done else done + n;
              now <= |stream| && buf[..now] == stream[..now] && inFlight == stream[now..]
    {
      ReadsOn(readPlan, |stream| - done, buf.Length - done, done);
      n := Read(buf, done, buf.Length);
      if n >= 0 {
        TakenSoFar(stream, done, n);
      }
    }

    /** The loop of readn: what it takes from the stream lies in the buffer. */
    method ReadLoop(buf: array<Byte>) returns (done: nat, ghost stopped: bool, rc: int)
      modifies `inFlight, `readPlan, buf
      ensures (done, stopped) == Reads(old(readPlan), |old(inFlight)|, buf.Length) && rc == if stopped then -1 else 0
      ensures inFlight == old(inFlight)[done..] && buf[..done] == old(inFlight)[..done]
      ensures old(NeverStops()) ==> NeverStops()
    {
      done, stopped, rc := 0, false, 0;
      ghost var stream, never := inFlight, NeverStops();
      ghost var whole := Reads(readPlan, |stream|, buf.Length);
      while done < buf.Length
        invariant done <= buf.Length && done <= |stream|
        invariant buf[..done] == stream[..done] && inFlight == stream[done..]
        invariant whole == After(done, Reads(readPlan, |stream| - done, buf.Length - done))
        invariant never ==> NeverStops()
      {
        var nread := ReadMore(buf, done, stream);
        if nread < 0 {
          stopped, rc := true, -1;
          return;
        } else if nread == 0 {
          break;
        }
        done := done + nread;
      }
      assert whole == (done, false);
    }

    /** readn.  What has been read before a failure is lost: it is gone from the stream, it lies in the
        buffer, but the caller is told nothing about it. */
    method ReadN(buf: array<Byte>) returns (n: int)
      modifies `inFlight, `readPlan, buf
      ensures n == var r := Reads(old(readPlan), |old(inFlight)|, buf.Length); if r.1 then -1 else r.0
      ensures var k := Reads(old(readPlan), |old(inFlight)|, buf.Length).0;
              inFlight == old(inFlight)[k..] && buf[..k] == old(inFlight)[..k]
      ensures n >= 0 ==> n == if buf.Length <= |old(inFlight)| then buf.Length else |old(inFlight)|
      ensures old(NeverStops()) ==> NeverStops() && n >= 0
    {
      WholeReads(readPlan, |inFlight|, buf.Length);
      var done, stopped, rc := ReadLoop(buf);
      n := if rc < 0 then -1 else done;
    }

    /** proto_send_packet */
    method SendPacket(o: Outgoing) returns (rc: int)
      requires BufferHolds(o)
      modifies `inFlight, `writePlan
      ensures rc == 0 || rc == -1
      ensures rc == 0 ==> inFlight == old(inFlight) + Frame(o)
      ensures rc == -1 ==> exists k :: 0 <= k < |Frame(o)| && inFlight == old(inFlight) + Frame(o)[..k]
      ensures old(NeverBreaks()) ==> rc == 0 && NeverBreaks()
    {
      var header := EncodeHeader(o.header, o.pad);
      var size := WriteN(header);
      if size != HEADER_SIZE {
        ghost var k :| 0 <= k < HEADER_SIZE && inFlight == old(inFlight) + header[..k];
        assert header[..k] == Frame(o)[..k];
        return -1;
      }
      if o.header.size > 0 && o.data.Some? {
        ghost var before := inFlight;
        var payload := o.data.value[..o.header.size];
        size := WriteN(payload);
        if size != o.header.size {
          ghost var k :| 0 <= k < |payload| && inFlight == before + payload[..k];
          assert Frame(o)[..HEADER_SIZE + k] == header + payload[..k];
          assert inFlight == old(inFlight) + Frame(o)[..HEADER_SIZE + k];
          return -1;
        }
        assert inFlight == old(inFlight) + Frame(o);
      }
      rc := 0;
    }

    /** Read so many bytes, all or nothing. */
    method ReadBytes(count: nat) returns (ok: bool, data: seq<Byte>)
      modifies `inFlight, `readPlan
      ensures ok ==> |old(inFlight)| >= count && data == old(inFlight)[..count] && inFlight == old(inFlight)[count..]
      ensures old(NeverStops()) ==> NeverStops() && (ok <==> |old(inFlight)| >= count)
    {
      var buf := new Byte[count];
      var size := ReadN(buf);
      ok := size == count;
      data := buf[..];
    }

    /** proto_recv_packet */
    method RecvPacket() returns (rc: int, m: Message)
      modifies `inFlight, `readPlan
      ensures rc == 0 || rc == -1
      ensures rc == 0 ==> Decode(old(inFlight)) == Some((m, inFlight))
      ensures old(NeverStops()) ==> NeverStops() && (rc == 0 <==> Decode(old(inFlight)).Some?)
    {
      m := Message(Header(0, 0, 0, 0, 0, 0, 0), None);
      var ok, header := ReadBytes(HEADER_SIZE);
      if !ok {
        return -1, m;
      }
      var h := DecodeHeader(header);
      if h.size > 0 {
        ghost var stream := old(inFlight);
        var payload;
        ok, payload := ReadBytes(h.size);
        if !ok {
          return -1, m;
        }
        assert payload == stream[HEADER_SIZE..][..h.size] == stream[HEADER_SIZE..HEADER_SIZE + h.size];
        assert inFlight == stream[HEADER_SIZE..][h.size..] == stream[HEADER_SIZE + h.size..];
        m := Message(h, Some(payload));
      } else {
        m := Message(h, None);
      }
      rc := 0;
    }

    /** What the next packet adds. */
    lemma NextFrame(before: seq<Byte>, os: seq<Outgoing>, i: nat)
      requires Supplied(os) && i < |os|
      ensures before + Stream(os[i..]) == (before + Frame(os[i])) + Stream(os[i + 1..])
    {
      assert os[i..][1..] == os[i + 1..];
    }

    /** All packets of a list, one after the other. */
    method SendAll(os: seq<Outgoing>)
      requires Supplied(os) && NeverBreaks()
      modifies `inFlight, `writePlan
      ensures inFlight == old(inFlight) + Stream(os)
    {
      var i := 0;
      while i < |os|
        invariant i <= |os| && NeverBreaks()
        invariant inFlight + Stream(os[i..]) == old(inFlight) + Stream(os)
      {
        NextFrame(inFlight, os, i);
        var rc := SendPacket(os[i]);
        i := i + 1;
      }
      assert inFlight + [] == inFlight;
    }

    /** Receive until reception fails. */
    method ReceiveAll() returns (ms: seq<Message>)
      requires NeverStops()
      modifies `inFlight, `readPlan
      ensures ms == DecodeAll(old(inFlight))
    {
      ms := [];
      var rc, m := RecvPacket();
      ghost var left := old(inFlight);
      while rc == 0
        invariant rc == 0 || rc == -1
        invariant NeverStops() && (rc == 0 <==> Decode(left).Some?)
        invariant rc == 0 ==> Decode(left) == Some((m, inFlight))
        invariant ms + DecodeAll(left) == DecodeAll(old(inFlight))
        decreases |left|
      {
        assert DecodeAll(left) == [m] + DecodeAll(inFlight);
        assert ms + ([m] + DecodeAll(inFlight)) == (ms + [m]) + DecodeAll(inFlight);
        ms := ms + [m];
        left := inFlight;
        rc, m := RecvPacket();
      }
      assert ms + [] == ms;
    }

    /** A whole exchange on a connection that never fails: however the writes and the reads are cut up
        and however often writes are interrupted, what is sent is what is received. */
    method Exchange(os: seq<Outgoing>) returns (ms: seq<Message>)
      requires Supplied(os) && inFlight == [] && NeverBreaks() && NeverStops()
      modifies this
      ensures ms == AllMeant(os)
    {
      SendAll(os);
      assert inFlight == Stream(os);
      StreamRoundTrip(os);
      ms := ReceiveAll();
    }
  }
}
