/** ABCI wire framing: length-prefixed messages over a stream that arrives in
    pieces of any size. */
module Framing {
  import opened Basics

  // ------------------------------------------------------------------- varints, on values

  function Varint(n: nat): (b: Bytes)
    ensures b != []
  {
    if n < 128 then [n as byte] else [(n % 128 + 128) as byte] + Varint(n / 128)
  }

  /** The number a stream starts with and the bytes it takes, if it is complete. */
  function Unvarint(s: Bytes): (r: Option<(nat, nat)>)
    ensures r.Some? ==> 1 <= r.value.1 <= |s|
  {
    if s == [] then None
    else if s[0] < 128 then Some((s[0] as nat, 1))
    else
      var rest := Unvarint(s[1..]);
      if rest.None? then None else Some((s[0] as nat - 128 + 128 * rest.value.0, 1 + rest.value.1))
  }

  lemma {:induction false} VarintRoundTrip(n: nat, tail: Bytes)
    ensures Unvarint(Varint(n) + tail) == Some((n, |Varint(n)|))
  {
    var s := Varint(n) + tail;
    if n >= 128 {
      assert s[1..] == Varint(n / 128) + tail;
      VarintRoundTrip(n / 128, tail);
    }
  }

  /** More input never changes a number already complete: varints are prefix-free. */
  lemma {:induction false} UnvarintStable(s: Bytes, tail: Bytes)
    requires Unvarint(s).Some?
    ensures Unvarint(s + tail) == Unvarint(s)
  {
    if s[0] >= 128 {
      assert (s + tail)[1..] == s[1..] + tail;
      UnvarintStable(s[1..], tail);
    }
  }

  lemma {:induction false} VarintCutIncomplete(n: nat, k: nat)
    requires k < |Varint(n)|
    ensures Unvarint(Varint(n)[..k]).None?
  {
    if k > 0 {
      assert Varint(n)[..k][1..] == Varint(n / 128)[..k - 1];
      VarintCutIncomplete(n / 128, k - 1);
    }
  }

  // -------------------------------------------------------------------- frames, on values

  /** Protobuf serialization of a message, and parsing of a payload. */
  datatype Codec<!M> = Codec(serialize: M -> Bytes, parse: Bytes -> M)

  ghost predicate Faithful<M(!new)>(c: Codec<M>) {
    forall m :: c.parse(c.serialize(m)) == m
  }

  function Frame<M>(c: Codec<M>, message: M): Bytes {
    Varint(|c.serialize(message)|) + c.serialize(message)
  }

  function Framed<M>(c: Codec<M>, messages: seq<M>): Bytes {
    if messages == [] then [] else Frame(c, messages[0]) + Framed(c, messages[1..])
  }

  /** Where the first message of a stream starts and ends, if it is complete. */
  function FirstFrame(s: Bytes): (r: Option<(nat, nat)>)
    ensures r.Some? ==> 1 <= r.value.0 <= r.value.1 <= |s|
  {
    var head := Unvarint(s);
    if head.None? || |s| < head.value.1 + head.value.0 then None
    else Some((head.value.1, head.value.1 + head.value.0))
  }

  /** All complete messages of a stream. */
  function Messages<M>(c: Codec<M>, s: Bytes): seq<M>
    decreases |s|
  {
    var first := FirstFrame(s);
    if first.None? then [] else [c.parse(s[first.value.0..first.value.1])] + Messages(c, s[first.value.1..])
  }

  /** What follows the last complete message. */
  function Rest(s: Bytes): Bytes
    decreases |s|
  {
    var first := FirstFrame(s);
    if first.None? then s else Rest(s[first.value.1..])
  }

  lemma {:induction false} FirstFrameStable(s: Bytes, tail: Bytes)
    requires FirstFrame(s).Some?
    ensures FirstFrame(s + tail) == FirstFrame(s)
  {
    UnvarintStable(s, tail);
  }

  /** Reading a stream in two parts finds the same messages and leaves the same rest. */
  lemma {:induction false} ReadingResumes<M>(c: Codec<M>, s: Bytes, tail: Bytes)
    ensures Messages(c, s + tail) == Messages(c, s) + Messages(c, Rest(s) + tail)
    ensures Rest(s + tail) == Rest(Rest(s) + tail)
    decreases |s|
  {
    var first := FirstFrame(s);
    if first.Some? {
      FirstFrameStable(s, tail);
      var (start, end) := first.value;
      assert (s + tail)[start..end] == s[start..end];
      assert (s + tail)[end..] == s[end..] + tail;
      ReadingResumes(c, s[end..], tail);
    }
  }

  lemma {:induction false} FrameFirst<M>(c: Codec<M>, message: M, tail: Bytes)
    ensures FirstFrame(Frame(c, message) + tail) == Some((|Varint(|c.serialize(message)|)|, |Frame(c, message)|))
  {
    var payload := c.serialize(message);
    assert Frame(c, message) + tail == Varint(|payload|) + (payload + tail);
    VarintRoundTrip(|payload|, payload + tail);
  }

  /** A stream of framed messages, whole or cut inside the next frame, parses to exactly
      those messages and keeps exactly the cut piece. */
  lemma {:induction false} FramedRoundTrip<M(!new)>(c: Codec<M>, messages: seq<M>, next: M, cut: nat)
    requires Faithful(c) && cut < |Frame(c, next)|
    ensures
      var s := Framed(c, messages) + Frame(c, next)[..cut];
      Messages(c, s) == messages && Rest(s) == Frame(c, next)[..cut]
  {
    var tail := Frame(c, next)[..cut];
    var s := Framed(c, messages) + tail;
    if messages == [] {
      assert s == tail;
      CutFrameIncomplete(c, next, cut);
    } else {
      var head := Frame(c, messages[0]);
      assert s == head + (Framed(c, messages[1..]) + tail);
      FrameFirst(c, messages[0], Framed(c, messages[1..]) + tail);
      assert s[|head|..] == Framed(c, messages[1..]) + tail;
      assert s[|Varint(|c.serialize(messages[0])|)|..|head|] == c.serialize(messages[0]);
      FramedRoundTrip(c, messages[1..], next, cut);
    }
  }

  lemma {:induction false} CutFrameIncomplete<M>(c: Codec<M>, message: M, cut: nat)
    requires cut < |Frame(c, message)|
    ensures FirstFrame(Frame(c, message)[..cut]).None?
  {
    var payload := c.serialize(message);
    var n := |Varint(|payload|)|;
    if cut < n {
      assert Frame(c, message)[..cut] == Varint(|payload|)[..cut];
      VarintCutIncomplete(|payload|, cut);
    } else {
      assert Frame(c, message)[..cut] == Varint(|payload|) + payload[..cut - n];
      VarintRoundTrip(|payload|, payload[..cut - n]);
    }
  }

  // ---------------------------------------------------------------- the code that runs

  method EncodeVarint(number: nat) returns (buf: Bytes)
    ensures buf == Varint(number)
  {
    buf := [];
    var n := number;
    while n >= 128
      invariant buf + Varint(n) == Varint(number)
    {
      buf := buf + [(n % 128 + 128) as byte];
      n := n / 128;
    }
    buf := buf + [n as byte];
  }

  function Shifted(shift: nat): nat {
    if shift == 0 then 1 else 128 * Shifted(shift - 1)
  }

  lemma {:induction false} ShiftDistributes(w: nat, a: nat, b: nat)
    ensures w * (a + 128 * b) == w * a + (128 * w) * b
  {
  }

  /** Reads a number at `start`.  Or-ing seven fresh bits in above the ones already read
      adds them, so the sum is what is kept. */
  method DecodeVarint(stream: Bytes, start: nat) returns (r: Option<(nat, nat)>)
    requires start <= |stream|
    ensures r == Unvarint(stream[start..])
  {
    var groups, result, pos, weight := 0, 0, start, 1;
    ghost var whole := Unvarint(stream[start..]);
    while true
      invariant start <= pos == start + groups <= |stream| && weight == Shifted(groups)
      invariant
        var rest := Unvarint(stream[pos..]);
        && (rest.None? <==> whole.None?)
        && (rest.Some? ==> whole.value == (result + weight * rest.value.0, groups + rest.value.1))
      decreases |stream| - pos
    {
      if pos == |stream| {
        return None;
      }
      var i := stream[pos];
      assert stream[pos..][1..] == stream[pos + 1..];
      if i < 128 {
        return Some((result + weight * i as nat, groups + 1));
      }
      ghost var rest := Unvarint(stream[pos + 1..]);
      if rest.Some? {
        ShiftDistributes(weight, i as nat - 128, rest.value.0);
      }
      result := result + weight * (i as nat - 128);
      pos, groups, weight := pos + 1, groups + 1, 128 * weight;
    }
  }

  method WriteMessage<M>(c: Codec<M>, message: M) returns (buffer: Bytes)
    ensures buffer == Frame(c, message)
  {
    var payload := c.serialize(message);
    var prefix := EncodeVarint(|payload|);
    buffer := prefix + payload;
  }

  lemma {:induction false} AtFrame<M>(c: Codec<M>, stream: Bytes, pos: nat, width: nat, length: nat)
    requires pos + width + length <= |stream| && Unvarint(stream[pos..]) == Some((length, width))
    ensures Messages(c, stream[pos..]) ==
      [c.parse(stream[pos + width..pos + width + length])] + Messages(c, stream[pos + width + length..])
    ensures Rest(stream[pos..]) == Rest(stream[pos + width + length..]) && FirstFrame(stream[pos..]).Some?
  {
    assert stream[pos..][width..width + length] == stream[pos + width..pos + width + length];
    assert stream[pos..][width + length..] == stream[pos + width + length..];
  }

  lemma {:induction false} NoFrame<M>(c: Codec<M>, s: Bytes)
    requires Unvarint(s).None? || |s| < Unvarint(s).value.1 + Unvarint(s).value.0
    ensures FirstFrame(s).None? && Messages(c, s) == [] && Rest(s) == s
  {
  }

  /** The message at a position and the position after it, if it is complete. */
  method ReadMessage<M>(c: Codec<M>, stream: Bytes, pos: nat) returns (r: Option<(M, nat)>)
    requires pos <= |stream|
    ensures r.None? <==> FirstFrame(stream[pos..]).None?
    ensures r.None? ==> Messages(c, stream[pos..]) == [] && Rest(stream[pos..]) == stream[pos..]
    ensures r.Some? ==>
      && pos < r.value.1 <= |stream|
      && Messages(c, stream[pos..]) == [r.value.0] + Messages(c, stream[r.value.1..])
      && Rest(stream[pos..]) == Rest(stream[r.value.1..])
  {
    var head := DecodeVarint(stream, pos);
    if head.None? {
      NoFrame(c, stream[pos..]);
      return None;
    }
    var (length, width) := head.value;
    if |stream| - pos - width < length {
      NoFrame(c, stream[pos..]);
      return None;
    }
    AtFrame(c, stream, pos, width, length);
    return Some((c.parse(stream[pos + width..pos + width + length]), pos + width + length));
  }

  /** Messages from a stream position on; the position moves past them and stops before
      an incomplete one. */
  method ReadMessages<M>(c: Codec<M>, stream: Bytes, start: nat) returns (messages: seq<M>, pos: nat)
    requires start <= |stream|
    ensures start <= pos <= |stream| && (messages == [] <==> pos == start)
    ensures messages == Messages(c, stream[start..]) && stream[pos..] == Rest(stream[start..])
    ensures FirstFrame(stream[pos..]).None?
  {
    messages, pos := [], start;
    ghost var all, rest := Messages(c, stream[start..]), Rest(stream[start..]);
    while true
      invariant start <= pos <= |stream| && (messages == [] <==> pos == start)
      invariant messages + Messages(c, stream[pos..]) == all
      invariant Rest(stream[pos..]) == rest
      decreases |stream| - pos
    {
      var next := ReadMessage(c, stream, pos);
      if next.None? {
        return;
      }
      MoveOne(messages, next.value.0, Messages(c, stream[next.value.1..]));
      messages, pos := messages + [next.value.0], next.value.1;
    }
  }

  function Concat(chunks: seq<Bytes>): Bytes {
    if chunks == [] then [] else Concat(chunks[..|chunks| - 1]) + chunks[|chunks| - 1]
  }

  /** Parses the buffer until no complete message is left; returns the messages and where the
      unconsumed bytes start. */
  method Drain<M>(c: Codec<M>, buffer: Bytes) returns (processed: seq<M>, pos: nat)
    ensures pos <= |buffer| && processed == Messages(c, buffer) && buffer[pos..] == Rest(buffer)
  {
    ghost var all, rest := Messages(c, buffer), Rest(buffer);
    processed, pos := [], 0;
    assert buffer[0..] == buffer;
    while true
      invariant pos <= |buffer|
      invariant processed + Messages(c, buffer[pos..]) == all && Rest(buffer[pos..]) == rest
      decreases |buffer| - pos
    {
      var messages, next := ReadMessages(c, buffer, pos);
      NoFrame(c, buffer[next..]);
      if messages == [] {
        return;
      }
      processed, pos := processed + messages, next;
    }
  }

  /** One client connection: the buffer of unconsumed bytes and the requests handed to
      the application. */
  class Connection<!M> {
    const codec: Codec<M>
    var data: Bytes
    var processed: seq<M>
    ghost var received: Bytes

    /** The requests processed and the bytes kept are those of the whole stream, however
        it was cut. */
    ghost predicate Valid()
      reads this
    {
      processed == Messages(codec, received) && data == Rest(received)
    }

    constructor (codec: Codec<M>)
      ensures Valid() && received == [] && this.codec == codec
    {
      this.codec, data, processed, received := codec, [], [], [];
    }

    method OnRead(bits: Bytes)
      requires Valid()
      modifies this
      ensures Valid() && received == old(received) + bits
    {
      ReadingResumes(codec, received, bits);
      var messages, pos := Drain(codec, data + bits);
      data, processed, received := (data + bits)[pos..], processed + messages, received + bits;
    }
  }

  /** The stream holds these messages, framed, and the beginning of the next frame. */
  ghost predicate Carries<M(!new)>(c: Codec<M>, stream: Bytes, messages: seq<M>, next: M, cut: nat) {
    Faithful(c) && cut < |Frame(c, next)| && stream == Framed(c, messages) + Frame(c, next)[..cut]
  }

  /** The connection loop over the pieces the socket delivers.  However framed messages are
      cut into reads, the server processes exactly them, in order, and keeps exactly the
      unfinished piece. */
  method ServeConnection<M(!new)>(c: Codec<M>, chunks: seq<Bytes>) returns (processed: seq<M>, kept: Bytes)
    ensures processed == Messages(c, Concat(chunks)) && kept == Rest(Concat(chunks))
    ensures forall messages, next, cut: nat :: Carries(c, Concat(chunks), messages, next, cut) ==>
              processed == messages && kept == Frame(c, next)[..cut]
  {
    var connection := new Connection(c);
    var i := 0;
    while i < |chunks|
      invariant 0 <= i <= |chunks| && connection.Valid() && fresh(connection) && connection.codec == c
      invariant connection.received == Concat(chunks[..i])
    {
      connection.OnRead(chunks[i]);
      assert chunks[..i + 1][..i] == chunks[..i];
      i := i + 1;
    }
    assert chunks[..i] == chunks;
    processed, kept := connection.processed, connection.data;
    forall messages, next, cut: nat | Carries(c, Concat(chunks), messages, next, cut)
      ensures processed == messages && kept == Frame(c, next)[..cut]
    {
      FramedRoundTrip(c, messages, next, cut);
    }
  }
}
