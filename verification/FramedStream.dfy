/** `BufferedStream`: length-prefixed objects over a socket that reads and writes as much as it
    likes, and the link formed by two of them. */
module FramedStream {
  import opened Wrappers

  type Byte = b: nat | b < 256

  const LENGTH_BYTES: nat := 4
  const LENGTH_LIMIT: nat := 0x1_0000_0000

  // ---------------------------------------------------------------- frames

  /** `u32::to_le_bytes` and back: the least significant byte comes first. */
  function LengthBytes(n: nat): (bs: seq<Byte>)
    requires n < LENGTH_LIMIT
    ensures |bs| == LENGTH_BYTES && LengthOf(bs) == n
    ensures bs == [n % 256, n / 256 % 256, n / 0x1_0000 % 256, n / 0x100_0000]
  {
    var h1 := n / 256;
    var h2 := h1 / 256;
    WordOfDigits(n, h1, h2);
    [n % 256, h1 % 256, h2 % 256, h2 / 256]
  }

  lemma WordOfDigits(n: nat, h1: nat, h2: nat)
    requires n < LENGTH_LIMIT && h1 == n / 256 && h2 == h1 / 256
    ensures 0 <= h2 / 256 < 256 && Word(n % 256, h1 % 256, h2 % 256, h2 / 256) == n
    ensures h2 == n / 0x1_0000 && h2 / 256 == n / 0x100_0000
  {
  }

  function LengthOf(bs: seq<Byte>): (n: nat)
    requires |bs| == LENGTH_BYTES
    ensures n < LENGTH_LIMIT
  {
    Word(bs[0], bs[1], bs[2], bs[3])
  }

  function Word(b0: nat, b1: nat, b2: nat, b3: nat): nat {
    b0 + 256 * b1 + 0x1_0000 * b2 + 0x100_0000 * b3
  }

  /** A payload behind its length. */
  function Frame(payload: seq<Byte>): (bs: seq<Byte>)
    requires |payload| < LENGTH_LIMIT
    ensures var n := |payload|;
      bs == [n % 256, n / 256 % 256, n / 0x1_0000 % 256, n / 0x100_0000] + payload
  {
    LengthBytes(|payload|) + payload
  }

  /** The length a stream of frames starts with, and the payload behind it. */
  lemma FrameSplits(payload: seq<Byte>, rest: seq<Byte>)
    requires |payload| < LENGTH_LIMIT
    ensures var bs := Frame(payload) + rest;
      && bs[..LENGTH_BYTES] == LengthBytes(|payload|)
      && bs[LENGTH_BYTES..LENGTH_BYTES + |payload|] == payload
      && bs[LENGTH_BYTES + |payload|..] == rest
  {
  }

  // ---------------------------------------------------------------- the stream

  datatype Received = Payload(bytes: seq<Byte>) | WouldBlock

  /** `Buffered` is the would-block error of `send`. */
  datatype SendResult = Sent | Buffered | TooLong

  class BufferedStream {
    /** Bytes that arrived at the socket and were not read yet. */
    var incoming: seq<Byte>
    /** Bytes that the socket accepted for sending and did not transmit yet. */
    var outgoing: seq<Byte>
    var readBuf: seq<Byte>
    var writeBuf: seq<Byte>

    /** How often the socket was asked to read and to write, and how many bytes it moved the
        last time. */
    ghost var readCalls: nat
    ghost var lastRead: nat
    ghost var writeCalls: nat
    ghost var lastWrite: nat

    constructor ()
      ensures incoming == outgoing == readBuf == writeBuf == []
    {
      incoming, outgoing, readBuf, writeBuf := [], [], [], [];
      readCalls, lastRead, writeCalls, lastWrite := 0, 0, 0, 0;
    }

    /** All bytes that are still to be received, in order. */
    ghost function Unread(): seq<Byte>
      reads this
    {
      readBuf + incoming
    }

    /** All bytes that are still to be transmitted, in order. */
    ghost function Unsent(): seq<Byte>
      reads this
    {
      outgoing + writeBuf
    }

    /** The socket's `read`: any number of the available bytes, or it would block. */
    method ReadSome(buf: array<Byte>, from: nat) returns (n: Option<nat>)
      requires from <= buf.Length
      modifies this`incoming, this`readCalls, this`lastRead, buf
      ensures readCalls == old(readCalls) + 1 && lastRead == if n.None? then 0 else n.value
      ensures buf[..from] == old(buf[..from])
      ensures n.None? ==> incoming == old(incoming)
      ensures n.Some? ==> (from + n.value <= buf.Length && buf[from..from + n.value] + incoming == old(incoming))
    {
      readCalls, lastRead := readCalls + 1, 0;
      if * {
        return None;
      }
      var k: nat :| k <= |incoming| && from + k <= buf.Length;
      forall i | 0 <= i < k {
        buf[from + i] := incoming[i];
      }
      assert buf[from..from + k] == incoming[..k];
      incoming := incoming[k..];
      lastRead := k;
      return Some(k);
    }

    /** The socket's `write`: it accepts any number of bytes, or it would block. */
    method WriteSome(bytes: seq<Byte>) returns (n: Option<nat>)
      modifies this`outgoing, this`writeCalls, this`lastWrite
      ensures writeCalls == old(writeCalls) + 1 && lastWrite == if n.None? then 0 else n.value
      ensures bytes == [] ==> n.Some?
      ensures n.None? ==> outgoing == old(outgoing)
      ensures n.Some? ==> n.value <= |bytes| && outgoing == old(outgoing) + bytes[..n.value]
    {
      writeCalls, lastWrite := writeCalls + 1, 0;
      if bytes != [] {
        if * {
          return None;
        }
      }
      var k: nat :| k <= |bytes|;
      outgoing := outgoing + bytes[..k];
      lastWrite := k;
      return Some(k);
    }

    /** `read_exact`: fills the whole buffer, or keeps what was read for the next time. It gives
        up only when the socket has nothing more to read. */
    method ReadExact(buf: array<Byte>) returns (ok: bool)
      modifies this`incoming, this`readBuf, this`readCalls, this`lastRead, buf
      ensures readCalls >= old(readCalls) && (!ok ==> readCalls > old(readCalls) && lastRead == 0)
      ensures ok ==> buf[..] + Unread() == old(Unread())
      ensures !ok ==> Unread() == old(Unread()) && |readBuf| < buf.Length
      ensures old(|readBuf|) >= buf.Length ==> ok
      ensures ok ==> readBuf == if old(|readBuf|) >= buf.Length then old(readBuf[buf.Length..]) else []
      decreases |incoming|
    {
      var n := |readBuf|;
      if buf.Length <= n {
        forall i | 0 <= i < buf.Length {
          buf[i] := readBuf[i];
        }
        assert buf[..] == readBuf[..buf.Length];
        readBuf := readBuf[buf.Length..];
        return true;
      }
      var count := ReadSome(buf, n);
      if count.None? || count.value == 0 {
        return false;
      }
      var bytesRead := n + count.value;
      ghost var chunk := buf[n..bytesRead];
      assert old(incoming) == chunk + incoming;
      if bytesRead < buf.Length {
        readBuf := readBuf + buf[n..bytesRead];
        assert Unread() == old(readBuf) + (chunk + incoming);
        ok := ReadExact(buf);
      } else {
        forall i | 0 <= i < n {
          buf[i] := readBuf[i];
        }
        assert buf[..] == readBuf + chunk;
        assert buf[..] + incoming == readBuf + (chunk + incoming);
        readBuf := [];
        ok := true;
      }
    }

    /** `unread` */
    method PutBack(buf: array<Byte>)
      modifies this`readBuf
      ensures readBuf == buf[..] + old(readBuf)
    {
      readBuf := buf[..] + readBuf;
    }

    /** `try_recv` up to the parsing of the payload: a whole frame, or nothing is consumed. */
    method TryRecv() returns (r: Received)
      modifies this`incoming, this`readBuf, this`readCalls, this`lastRead
      ensures r.WouldBlock? ==> readCalls > old(readCalls) && lastRead == 0
      ensures r.Payload? ==> |r.bytes| < LENGTH_LIMIT && Frame(r.bytes) + Unread() == old(Unread())
      ensures r.WouldBlock? ==> Unread() == old(Unread()) && !HoldsFrame(readBuf)
    {
      hide Word, LengthBytes, LengthOf;
      var lenBytes := new Byte[LENGTH_BYTES];
      var ok := ReadExact(lenBytes);
      if !ok {
        return WouldBlock;
      }
      ghost var prefix, rest := lenBytes[..], Unread();
      var len := LengthOf(lenBytes[..]);
      LengthBytesOf(lenBytes[..]);
      var payload := new Byte[len];
      ok := ReadExact(payload);
      assert lenBytes[..] == prefix;
      if !ok {
        PutBack(lenBytes);
        assert Unread() == prefix + rest;
        assert readBuf[..LENGTH_BYTES] == prefix;
        return WouldBlock;
      }
      assert Frame(payload[..]) + Unread() == prefix + (payload[..] + Unread());
      return Payload(payload[..]);
    }

    /** `flush`: pushes the write buffer into the socket until it would block. */
    method Flush() returns (ok: bool)
      modifies this`outgoing, this`writeBuf, this`writeCalls, this`lastWrite
      ensures Unsent() == old(Unsent())
      ensures ok <==> writeBuf == []
      ensures writeCalls > old(writeCalls) && (!ok ==> lastWrite == 0)
      decreases |writeBuf|
    {
      var n := WriteSome(writeBuf);
      if n.None? {
        return false;
      }
      assert outgoing + writeBuf[n.value..] == old(outgoing) + (writeBuf[..n.value] + writeBuf[n.value..]);
      assert writeBuf[..n.value] + writeBuf[n.value..] == writeBuf;
      writeBuf := writeBuf[n.value..];
      if writeBuf == [] {
        return true;
      } else if n.value == 0 {
        return false;
      }
      ok := Flush();
    }

    /** `write_all`: nothing of the input is lost, whether or not the socket would block. */
    method WriteAll(bytes: seq<Byte>) returns (ok: bool)
      modifies this`outgoing, this`writeBuf, this`writeCalls, this`lastWrite
      ensures Unsent() == old(Unsent()) + bytes
      ensures ok <==> writeBuf == []
      ensures writeCalls > old(writeCalls) && (!ok ==> lastWrite == 0)
    {
      writeBuf := writeBuf + bytes;
      assert Unsent() == old(Unsent()) + bytes;
      ok := Flush();
    }

    /** `send` for an encoded object. Objects whose encoding is too long for the length prefix
        are an error, and leave no trace in the stream; otherwise nothing is lost, and what the
        socket did not take stays in the write buffer. */
    method Send(payload: seq<Byte>) returns (r: SendResult)
      modifies this`outgoing, this`writeBuf, this`writeCalls, this`lastWrite
      ensures r.TooLong? <==> |payload| >= LENGTH_LIMIT
      ensures r.TooLong? ==> outgoing == old(outgoing) && writeBuf == old(writeBuf)
      ensures !r.TooLong? ==> Unsent() == old(Unsent()) + Frame(payload)
      ensures !r.TooLong? ==> var n := |payload|;
        Unsent() == old(Unsent()) + ([n % 256, n / 256 % 256, n / 0x1_0000 % 256, n / 0x100_0000] + payload)
      ensures !r.TooLong? ==> (r.Sent? <==> writeBuf == [])
      ensures !r.TooLong? ==> writeCalls > old(writeCalls) && (r.Buffered? ==> lastWrite == 0)
    {
      if |payload| >= LENGTH_LIMIT {
        return TooLong;
      }
      var ok := WriteAll(Frame(payload));
      return if ok then Sent else Buffered;
    }
  }

  /** The bytes begin with a complete frame. */
  predicate HoldsFrame(bs: seq<Byte>) {
    |bs| >= LENGTH_BYTES && |bs| >= LENGTH_BYTES + LengthOf(bs[..LENGTH_BYTES])
  }

  lemma LengthBytesOf(bs: seq<Byte>)
    requires |bs| == LENGTH_BYTES
    ensures LengthBytes(LengthOf(bs)) == bs
  {
    hide Word;
    WordDigits(bs[0], bs[1], bs[2], bs[3]);
  }

  lemma WordDigits(b0: nat, b1: nat, b2: nat, b3: nat)
    requires b0 < 256 && b1 < 256 && b2 < 256 && b3 < 256
    ensures var n := Word(b0, b1, b2, b3);
      var h1 := n / 256;
      var h2 := h1 / 256;
      n % 256 == b0 && h1 % 256 == b1 && h2 % 256 == b2 && h2 / 256 == b3
  {
    var h2 := b2 + 256 * b3;
    assert Word(b0, b1, b2, b3) == b0 + 256 * (b1 + 256 * h2);
  }

  // ---------------------------------------------------------------- the link

  /** Serialisation of the objects; what is written can be read back. */
  datatype Codec<!T> = Codec(encode: T -> seq<Byte>, decode: seq<Byte> -> Option<T>)

  ghost predicate RoundTrips<T>(codec: Codec<T>, t: T) {
    codec.decode(codec.encode(t)) == Some(t)
  }

  ghost predicate Lossless<T(!new)>(codec: Codec<T>) {
    forall t :: RoundTrips(codec, t)
  }

  ghost predicate Fits<T>(codec: Codec<T>, t: T) {
    |codec.encode(t)| < LENGTH_LIMIT
  }

  /** The frames of a sequence of objects, one behind the other. */
  ghost function Frames<T>(codec: Codec<T>, ts: seq<T>): seq<Byte>
    requires forall i :: 0 <= i < |ts| ==> Fits(codec, ts[i])
  {
    if ts == [] then []
    else
      assert Fits(codec, ts[0]);
      Frame(codec.encode(ts[0])) + Frames(codec, ts[1..])
  }

  lemma {:induction false} FramesAppend<T>(codec: Codec<T>, ts: seq<T>, t: T)
    requires Fits(codec, t) && forall i :: 0 <= i < |ts| ==> Fits(codec, ts[i])
    ensures Frames(codec, ts + [t]) == Frames(codec, ts) + Frame(codec.encode(t))
  {
    if ts == [] {
      assert (ts + [t])[1..] == [];
    } else {
      FramesAppend(codec, ts[1..], t);
      assert (ts + [t])[1..] == ts[1..] + [t];
    }
  }

  /** Frames can be told apart: whatever frame a stream of frames starts with is the first. */
  lemma FirstFrame<T>(codec: Codec<T>, ts: seq<T>, payload: seq<Byte>, rest: seq<Byte>)
    requires forall i :: 0 <= i < |ts| ==> Fits(codec, ts[i])
    requires |payload| < LENGTH_LIMIT && Frame(payload) + rest == Frames(codec, ts)
    ensures ts != [] && payload == codec.encode(ts[0]) && rest == Frames(codec, ts[1..])
  {
    assert |Frame(payload)| >= LENGTH_BYTES;
    FrameSplits(payload, rest);
    assert Fits(codec, ts[0]);
    FrameSplits(codec.encode(ts[0]), Frames(codec, ts[1..]));
    assert LengthOf(LengthBytes(|payload|)) == LengthOf(LengthBytes(|codec.encode(ts[0])|));
  }

  datatype Event<T> = Send(value: T) | Flush | Deliver(count: nat) | TryRecv

  /** One direction of a connection: a sending stream, a receiving stream, and the bytes on
      their way in between. */
  class Link<T(!new)> {
    const codec: Codec<T>
    const sender: BufferedStream
    const receiver: BufferedStream
    ghost var sent: seq<T>
    ghost var received: seq<T>

    ghost predicate Valid()
      reads this, sender, receiver
    {
      && sender != receiver && Lossless(codec)
      && (forall i :: 0 <= i < |sent| ==> Fits(codec, sent[i]))
      && |received| <= |sent| && received == sent[..|received|]
      && receiver.Unread() + sender.Unsent() == Frames(codec, sent[|received|..])
    }

    constructor (codec: Codec<T>)
      requires Lossless(codec)
      ensures Valid() && sent == received == [] && this.codec == codec
      ensures fresh(sender) && fresh(receiver)
    {
      this.codec := codec;
      sender := new BufferedStream();
      receiver := new BufferedStream();
      sent, received := [], [];
    }

    method Send(t: T) returns (ok: bool)
      requires Valid()
      modifies this, sender
      ensures Valid()
      ensures ok <==> Fits(codec, t)
      ensures sent == if ok then old(sent) + [t] else old(sent)
      ensures received == old(received)
      ensures ok ==> sender.writeCalls > old(sender.writeCalls) && (sender.writeBuf == [] || sender.lastWrite == 0)
    {
      hide Word, LengthBytes, LengthOf, Frame, Frames, Lossless;
      ghost var before := sender.Unsent();
      var result := sender.Send(codec.encode(t));
      ok := !result.TooLong?;
      if ok {
        FramesAppend(codec, sent[|received|..], t);
        assert (sent + [t])[|received|..] == sent[|received|..] + [t];
        assert receiver.Unread() + (before + Frame(codec.encode(t)))
            == (receiver.Unread() + before) + Frame(codec.encode(t));
        sent := sent + [t];
      }
    }

    method Flush() returns (ok: bool)
      requires Valid()
      modifies sender
      ensures Valid() && (ok <==> sender.writeBuf == [])
      ensures sender.writeCalls > old(sender.writeCalls) && (!ok ==> sender.lastWrite == 0)
    {
      ok := sender.Flush();
    }

    /** The network moves some bytes from one socket to the other, in order. */
    method Deliver(count: nat)
      requires Valid()
      modifies sender, receiver
      ensures Valid()
      ensures var k := if count <= |old(sender.outgoing)| then count else |old(sender.outgoing)|;
        && sender.outgoing == old(sender.outgoing)[k..]
        && receiver.incoming == old(receiver.incoming) + old(sender.outgoing)[..k]
    {
      hide Word, LengthBytes, LengthOf, Frame, Frames, Lossless, Fits;
      var k := if count <= |sender.outgoing| then count else |sender.outgoing|;
      ghost var all := receiver.Unread() + sender.Unsent();
      receiver.incoming := receiver.incoming + sender.outgoing[..k];
      sender.outgoing := sender.outgoing[k..];
      assert receiver.Unread() + sender.Unsent() == all;
    }

    /** A successful receive yields the oldest object that was not received; a blocked one
        changes nothing. No frame is ever malformed. */
    method TryRecv() returns (r: Option<T>)
      requires Valid()
      modifies this, receiver
      ensures Valid() && sent == old(sent)
      ensures r.None? ==> received == old(received) && !HoldsFrame(receiver.readBuf)
      ensures r.None? ==> receiver.readCalls > old(receiver.readCalls) && receiver.lastRead == 0
      ensures r.Some? ==> |received| == old(|received|) + 1 && received == old(received) + [r.value]
    {
      hide Word, LengthBytes, LengthOf, Frame, Frames, Fits;
      ghost var pending := sent[|received|..];
      var frame := receiver.TryRecv();
      if frame.WouldBlock? {
        return None;
      }
      ghost var rest := receiver.Unread() + sender.Unsent();
      assert Frame(frame.bytes) + rest == (Frame(frame.bytes) + receiver.Unread()) + sender.Unsent();
      FirstFrame(codec, pending, frame.bytes, rest);
      assert RoundTrips(codec, pending[0]);
      r := codec.decode(frame.bytes);
      assert pending[1..] == sent[|received| + 1..];
      received := received + [pending[0]];
      assert received == sent[..|received|];
    }

    lemma NothingOnTheWay()
      requires Valid()
      ensures receiver.Unread() + sender.Unsent() == [] ==> received == sent
    {
      hide Word, LengthBytes, LengthOf, Lossless;
    }

    /** Under any schedule of sends, flushes, deliveries and receives, exactly the objects that
        fit are sent, and those received are an in-order prefix of them. */
    method Run(schedule: seq<Event<T>>)
      requires Valid()
      modifies this, sender, receiver
      ensures Valid() && received <= sent
      ensures sent == old(sent) + Sends(codec, schedule) && old(received) <= received
      ensures receiver.Unread() + sender.Unsent() == [] ==> received == sent
    {
      hide Word, LengthBytes, LengthOf, Frame, Frames, Lossless, Fits, HoldsFrame;
      for i := 0 to |schedule|
        invariant Valid() && sent == old(sent) + Sends(codec, schedule[..i]) && old(received) <= received
      {
        assert schedule[..i + 1][..i] == schedule[..i];
        match schedule[i] {
          case Send(t) => var _ := Send(t);
          case Flush => var _ := Flush();
          case Deliver(count) => Deliver(count);
          case TryRecv => var _ := TryRecv();
        }
      }
      assert schedule[..|schedule|] == schedule;
      NothingOnTheWay();
    }
  }

  /** The objects of a schedule that can be sent, in order. */
  ghost function Sends<T>(codec: Codec<T>, schedule: seq<Event<T>>): seq<T> {
    if schedule == [] then []
    else
      var last := schedule[|schedule| - 1];
      Sends(codec, schedule[..|schedule| - 1])
      + if last.Send? && Fits(codec, last.value) then [last.value] else []
  }
}
