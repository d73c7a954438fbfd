/** The client side of the DevTools websocket: a writer of masked text frames and a reader over a
    socket that hands out its bytes in arbitrary chunks (sections 5.2 and 5.3 of RFC 6455). */
module WebSocket {
  import opened Bits
  import opened Integers
  import opened Wrappers

  datatype Error = Closed | CloseFrame
  type Received<+T> = Result<T, Error>

  // ---- Numbers in network order --------------------------------------------------------------

  /** struct.pack with "!" and a format of `size` bytes. */
  function Pack(n: nat, size: nat): (b: Bytes)
    ensures |b| == size
  {
    if size == 0 then [] else Pack(n / 256, size - 1) + [n % 256]
  }

  function Unpack(b: Bytes): nat {
    if b == [] then 0 else 256 * Unpack(b[..|b| - 1]) + b[|b| - 1]
  }

  function Power256(size: nat): nat {
    if size == 0 then 1 else 256 * Power256(size - 1)
  }

  lemma {:induction false} UnpackOfPack(n: nat, size: nat)
    requires n < Power256(size)
    ensures Unpack(Pack(n, size)) == n
  {
    if size > 0 {
      UnpackOfPack(n / 256, size - 1);
      assert Pack(n, size)[..size - 1] == Pack(n / 256, size - 1);
    }
  }

  lemma {:induction false} UnpackBound(b: Bytes)
    ensures Unpack(b) < Power256(|b|)
  {
    if b != [] {
      UnpackBound(b[..|b| - 1]);
    }
  }

  const MAX_LENGTH := 0x1_0000_0000_0000_0000

  lemma PowersOf256()
    ensures Power256(2) == 65536 && Power256(8) == MAX_LENGTH
  {
    assert Power256(1) == 256 && Power256(2) == 65536 && Power256(3) == 0x100_0000 && Power256(4) == 0x1_0000_0000;
    assert Power256(5) == 0x100_0000_0000 && Power256(6) == 0x1_0000_0000_0000 && Power256(7) == 0x100_0000_0000_0000;
  }

  // ---- Masking ---------------------------------------------------------------------------------

  function Masked(data: Bytes, mask: Bytes): (r: Bytes)
    requires |mask| == 4
    ensures |r| == |data| && forall i | 0 <= i < |data| :: r[i] == XorByte(data[i], mask[i % 4])
  {
    seq(|data|, i requires 0 <= i < |data| => XorByte(data[i], mask[i % 4]))
  }

  lemma MaskTwice(data: Bytes, mask: Bytes)
    requires |mask| == 4
    ensures Masked(Masked(data, mask), mask) == data
  {
    forall i | 0 <= i < |data| ensures Masked(Masked(data, mask), mask)[i] == data[i] {
      XorTwice(data[i], mask[i % 4]);
    }
  }

  // ---- Frames ----------------------------------------------------------------------------------

  const TEXT_FRAME: Byte := 0x81

  /** The bytes of extended length: none, two or eight. */
  predicate FormOk(form: nat, n: nat) {
    (form == 0 && n < 126) || (form == 2 && n < 65536) || (form == 8 && n < MAX_LENGTH)
  }

  /** The shortest form that holds a length. */
  function ShortForm(n: nat): (form: nat)
    requires n < MAX_LENGTH
    ensures FormOk(form, n)
  {
    if n < 126 then 0 else if n < 65536 then 2 else 8
  }

  /** The second byte of the header, with its mask bit or without, and the extended length. */
  function LengthField(n: nat, form: nat, masked: bool): (b: Bytes)
    requires FormOk(form, n)
    ensures |b| == 1 + form
  {
    var bit: nat := if masked then 0x80 else 0;
    if form == 0 then [bit + n] else if form == 2 then [bit + 126] + Pack(n, 2) else [bit + 127] + Pack(n, 8)
  }

  /** A frame of section 5.2 with its first byte, its form of length and its mask, which may be missing. */
  datatype Frame = Frame(first: Byte, form: nat, mask: Bytes, data: Bytes)

  predicate FrameOk(f: Frame) {
    (f.mask == [] || |f.mask| == 4) && FormOk(f.form, |f.data|)
  }

  function HeaderBytes(f: Frame): Bytes
    requires FrameOk(f)
  {
    [f.first] + LengthField(|f.data|, f.form, f.mask != [])
  }

  function Payload(f: Frame): Bytes
    requires FrameOk(f)
  {
    if f.mask == [] then f.data else Masked(f.data, f.mask)
  }

  function FrameBytes(f: Frame): Bytes
    requires FrameOk(f)
  {
    HeaderBytes(f) + (f.mask + Payload(f))
  }

  /** What the writer sends: a final text frame, masked, with the shortest length. */
  function Encode(data: Bytes, mask: Bytes): Bytes
    requires |data| < MAX_LENGTH && |mask| == 4
  {
    [TEXT_FRAME] + LengthField(|data|, ShortForm(|data|), true) + mask + Masked(data, mask)
  }

  lemma EncodeIsTextFrame(data: Bytes, mask: Bytes)
    requires |data| < MAX_LENGTH && |mask| == 4
    ensures Encode(data, mask) == FrameBytes(Frame(0x81, if |data| < 126 then 0 else if |data| < 65536 then 2 else 8, mask, data))
  {}

  /** What a reader got, and what the socket still holds. */
  datatype Read = Read(result: Received<Bytes>, rest: Bytes)

  function Consume(stream: Bytes, size: nat): Read {
    if |stream| >= size then Read(Ok(stream[..size]), stream[size..]) else Read(Err(Closed), [])
  }

  /** How many bytes of extended length follow the 7-bit length. */
  function Extension(length: nat): nat {
    if length == 126 then 2 else if length == 127 then 8 else 0
  }

  function Decode(stream: Bytes): Read {
    var first := Consume(stream, 2);
    if first.result.Err? then first
    else
      var opcode, short := And(first.result.value[0], 0x0F), And(first.result.value[1], 0x7F);
      var extended := Consume(first.rest, Extension(short));
      if extended.result.Err? then extended
      else
        var length := if Extension(short) == 0 then short else Unpack(extended.result.value);
        var mask := Consume(extended.rest, if And(first.result.value[1], 0x80) != 0 then 4 else 0);
        if mask.result.Err? then mask
        else
          var body := Consume(mask.rest, length);
          if body.result.Err? then body
          else if opcode == 0x8 then Read(Err(CloseFrame), body.rest)
          else if mask.result.value == [] then body
          else Read(Ok(Masked(body.result.value, mask.result.value)), body.rest)
  }

  // ---- Reading back what was written ---------------------------------------------------------------

  /** The bits of the two header bytes. */
  lemma HeaderBits(first: Byte, n: nat)
    requires n < 128
    ensures And(0x80 + n, 0x7F) == n && And(0x80 + n, 0x80) == 0x80 && Or(0x80, n) == 0x80 + n
    ensures And(n, 0x7F) == n && And(n, 0x80) == 0
    ensures And(first, 0x0F) == first % 16
  {
    hide And, Or, Power2;
    Powers();
    AndLow(0x80 + n, 7);
    AndLow(n, 7);
    HighBit(n, 7);
    AndLow(first, 4);
  }

  lemma TakeAcross(front: Bytes, back: Bytes)
    ensures Consume(front + back, |front|) == Read(Ok(front), back)
  {
    assert (front + back)[..|front|] == front && (front + back)[|front|..] == back;
  }

  /** What is read of a payload of `n` bytes with its mask, if there is one. */
  function ReadPayload(behind: Bytes, masked: bool, n: nat, closing: bool): Read {
    var mask := Consume(behind, if masked then 4 else 0);
    if mask.result.Err? then mask
    else
      var body := Consume(mask.rest, n);
      if body.result.Err? then body
      else if closing then Read(Err(CloseFrame), body.rest)
      else Read(Ok(if masked then Masked(body.result.value, mask.result.value) else body.result.value), body.rest)
  }

  lemma LengthIsRead(n: nat, form: nat, masked: bool)
    requires FormOk(form, n)
    ensures var field := LengthField(n, form, masked);
            && (And(field[0], 0x80) != 0 <==> masked)
            && Extension(And(field[0], 0x7F)) == form
            && n == if form == 0 then And(field[0], 0x7F) else Unpack(field[1..])
  {
    hide And, Or, Unpack, Pack, Power256;
    var field := LengthField(n, form, masked);
    HeaderBits(0, if masked then field[0] - 0x80 else field[0]);
    if form > 0 {
      PowersOf256();
      UnpackOfPack(n, form);
      assert field[1..] == Pack(n, form);
    }
  }

  /** The header with its extended length, however far the rest has arrived. */
  lemma HeaderIsRead(first: Byte, n: nat, form: nat, masked: bool, behind: Bytes)
    requires FormOk(form, n)
    ensures Decode([first] + LengthField(n, form, masked) + behind) == ReadPayload(behind, masked, n, first % 16 == 8)
  {
    hide And, Or, Unpack, Pack, Power256, Masked, LengthField;
    var field := LengthField(n, form, masked);
    var long := field[1..];
    assert [first] + field + behind == [first, field[0]] + (long + behind);
    TakeAcross([first, field[0]], long + behind);
    HeaderBits(first, 0);
    LengthIsRead(n, form, masked);
    TakeAcross(long, behind);
  }

  lemma HeaderIsCut(first: Byte, n: nat, form: nat, masked: bool, k: nat)
    requires FormOk(form, n) && k < 2 + form
    ensures Decode(([first] + LengthField(n, form, masked))[..k]) == Read(Err(Closed), [])
  {
    hide And, Or, Unpack, LengthField, Masked;
    var field := LengthField(n, form, masked);
    var part := ([first] + field)[..k];
    LengthIsRead(n, form, masked);
    if k >= 2 {
      assert part[0] == first && part[1] == field[0];
    }
  }

  lemma PayloadIsRead(f: Frame, rest: Bytes, closing: bool)
    requires FrameOk(f)
    ensures ReadPayload(f.mask + (Payload(f) + rest), f.mask != [], |f.data|, closing) ==
            Read(if closing then Err(CloseFrame) else Ok(f.data), rest)
  {
    hide Masked, FormOk, Consume;
    TakeAcross(f.mask, Payload(f) + rest);
    TakeAcross(Payload(f), rest);
    if f.mask != [] {
      MaskTwice(f.data, f.mask);
    }
  }

  /** A frame is read for what it carries, masked or not, whatever form its length has: a close frame as such, any
      other as its data. Nothing after it is touched. */
  lemma FrameIsRead(f: Frame, rest: Bytes)
    requires FrameOk(f)
    ensures Decode(FrameBytes(f) + rest) == Read(if f.first % 16 == 8 then Err(CloseFrame) else Ok(f.data), rest)
  {
    hide Decode, LengthField, Payload, ReadPayload;
    HeaderIsRead(f.first, |f.data|, f.form, f.mask != [], f.mask + (Payload(f) + rest));
    assert FrameBytes(f) + rest == HeaderBytes(f) + (f.mask + (Payload(f) + rest));
    PayloadIsRead(f, rest, f.first % 16 == 8);
  }

  /** A frame that is cut short anywhere is reported as a closed connection, never as a payload. */
  lemma FrameCutShort(f: Frame, k: nat)
    requires FrameOk(f) && k < |FrameBytes(f)|
    ensures Decode(FrameBytes(f)[..k]) == Read(Err(Closed), [])
  {
    hide Decode, LengthField, Masked;
    var header, body := HeaderBytes(f), f.mask + Payload(f);
    if k < |header| {
      HeaderIsCut(f.first, |f.data|, f.form, f.mask != [], k);
      assert (header + body)[..k] == header[..k];
    } else {
      var part := body[..k - |header|];
      assert (header + body)[..k] == header + part;
      HeaderIsRead(f.first, |f.data|, f.form, f.mask != [], part);
    }
  }

  predicate FramesOk(frames: seq<Frame>) {
    forall i | 0 <= i < |frames| :: FrameOk(frames[i])
  }

  function AllFrameBytes(frames: seq<Frame>): Bytes
    requires FramesOk(frames)
  {
    if frames == [] then [] else FrameBytes(frames[0]) + AllFrameBytes(frames[1..])
  }

  /** The results of reading `n` frames one after the other. */
  function DecodeAll(stream: Bytes, n: nat): (r: (seq<Received<Bytes>>, Bytes))
    ensures |r.0| == n
    decreases n
  {
    if n == 0 then ([], stream)
    else
      var first := Decode(stream);
      var (more, rest) := DecodeAll(first.rest, n - 1);
      ([first.result] + more, rest)
  }

  /** Frames that arrive back to back are read in order. */
  lemma {:induction false} FramesBackToBack(frames: seq<Frame>, rest: Bytes)
    requires FramesOk(frames)
    ensures var (results, left) := DecodeAll(AllFrameBytes(frames) + rest, |frames|);
            && left == rest
            && forall i | 0 <= i < |frames| ::
                 results[i] == if frames[i].first % 16 == 8 then Err(CloseFrame) else Ok(frames[i].data)
  {
    hide Decode, FrameBytes, FrameOk;
    if frames == [] {
      assert AllFrameBytes(frames) + rest == rest;
    } else {
      var first, others := FrameBytes(frames[0]), frames[1..];
      FrameIsRead(frames[0], AllFrameBytes(others) + rest);
      assert AllFrameBytes(frames) + rest == first + (AllFrameBytes(others) + rest);
      FramesBackToBack(others, rest);
    }
  }

  /** A written frame is read back whole, and nothing after it is touched. */
  lemma RoundTrip(data: Bytes, mask: Bytes, rest: Bytes)
    requires |data| < MAX_LENGTH && |mask| == 4
    ensures Decode(Encode(data, mask) + rest) == Read(Ok(data), rest)
  {
    hide Decode, FrameBytes, Encode;
    EncodeIsTextFrame(data, mask);
    FrameIsRead(Frame(0x81, ShortForm(|data|), mask, data), rest);
  }

  /** A written frame that is cut short anywhere is a closed connection. */
  lemma CutShort(data: Bytes, mask: Bytes, k: nat)
    requires |data| < MAX_LENGTH && |mask| == 4 && k < |Encode(data, mask)|
    ensures Decode(Encode(data, mask)[..k]) == Read(Err(Closed), [])
  {
    hide Decode, FrameBytes, Encode;
    EncodeIsTextFrame(data, mask);
    FrameCutShort(Frame(0x81, ShortForm(|data|), mask, data), k);
  }

  datatype Message = Message(data: Bytes, mask: Bytes)

  predicate Sendable(messages: seq<Message>) {
    forall i | 0 <= i < |messages| :: |messages[i].data| < MAX_LENGTH && |messages[i].mask| == 4
  }

  function EncodeAll(messages: seq<Message>): Bytes
    requires Sendable(messages)
  {
    if messages == [] then [] else Encode(messages[0].data, messages[0].mask) + EncodeAll(messages[1..])
  }

  /** Frames written back to back are read back in order. */
  lemma {:induction false} BackToBack(messages: seq<Message>, rest: Bytes)
    requires Sendable(messages)
    ensures var (results, left) := DecodeAll(EncodeAll(messages) + rest, |messages|);
            left == rest && forall i | 0 <= i < |messages| :: results[i] == Ok(messages[i].data)
  {
    hide Decode, Encode;
    if messages == [] {
      assert EncodeAll(messages) + rest == rest;
    } else {
      var first, others := Encode(messages[0].data, messages[0].mask), messages[1..];
      RoundTrip(messages[0].data, messages[0].mask, EncodeAll(others) + rest);
      assert EncodeAll(messages) + rest == first + (EncodeAll(others) + rest);
      BackToBack(others, rest);
    }
  }

  /** No masked frame that is read as this payload is shorter: the writer uses the shortest length form. */
  lemma ShortestForm(stream: Bytes, data: Bytes, mask: Bytes)
    requires |stream| >= 2 && And(stream[1], 0x80) != 0
    requires Decode(stream).result == Ok(data) && |data| < MAX_LENGTH && |mask| == 4
    ensures |Encode(data, mask)| <= |stream| - |Decode(stream).rest|
  {
    hide XorByte, And;
    PowersOf256();
    var short := And(stream[1], 0x7F);
    assert short < 128 by {
      Powers();
      AndLow(stream[1], 7);
    }
    if short == 126 {
      UnpackBound(stream[2..][..2]);
    }
  }

  // ---- The program ---------------------------------------------------------------------------------

  /** A connected socket: what the peer will have sent before it closes, and what was sent to it. */
  class Socket {
    var incoming: Bytes
    var sent: Bytes

    constructor (incoming: Bytes)
      ensures this.incoming == incoming && sent == []
    {
      this.incoming := incoming;
      sent := [];
    }

    /** Returns as many bytes as happen to be there, at least one unless the peer has closed. */
    method Recv(size: nat) returns (chunk: Bytes)
      requires size > 0
      modifies this`incoming
      ensures |chunk| <= size && old(incoming) == chunk + incoming
      ensures chunk == [] <==> old(incoming) == []
    {
      if incoming == [] {
        return [];
      }
      var n :| 1 <= n <= size && n <= |incoming|;
      chunk := incoming[..n];
      incoming := incoming[n..];
    }

    method SendAll(data: Bytes)
      modifies this`sent
      ensures sent == old(sent) + data
    {
      sent := sent + data;
    }
  }

  method RecvExact(sock: Socket, size: nat) returns (r: Received<Bytes>)
    modifies sock`incoming
    ensures Read(r, sock.incoming) == Consume(old(sock.incoming), size)
  {
    var chunks: Bytes := [];
    while |chunks| < size
      invariant |chunks| <= size
      invariant old(sock.incoming) == chunks + sock.incoming
    {
      var chunk := sock.Recv(size - |chunks|);
      if chunk == [] {
        return Err(Closed);
      }
      chunks := chunks + chunk;
    }
    TakeAcross(chunks, sock.incoming);
    return Ok(chunks);
  }

  method FrameHeader(length: nat) returns (header: Bytes)
    requires length < MAX_LENGTH
    ensures header == [TEXT_FRAME] + LengthField(length, ShortForm(length), true)
  {
    hide And, Or, Pack;
    header := [TEXT_FRAME];
    if length < 126 {
      HeaderBits(TEXT_FRAME, length);
      header := header + [Or(0x80, length)];
    } else if length < 65536 {
      HeaderBits(TEXT_FRAME, 126);
      header := header + ([Or(0x80, 126)] + Pack(length, 2));
    } else {
      HeaderBits(TEXT_FRAME, 127);
      header := header + ([Or(0x80, 127)] + Pack(length, 8));
    }
  }

  method SendWebsocketText(sock: Socket, data: Bytes, mask: Bytes)
    requires |data| < MAX_LENGTH && |mask| == 4
    modifies sock`sent
    ensures sock.sent == old(sock.sent) + Encode(data, mask)
  {
    var header := FrameHeader(|data|);
    var masked := Masked(data, mask);
    sock.SendAll(header + mask + masked);
  }

  method RecvWebsocketText(sock: Socket) returns (r: Received<Bytes>)
    modifies sock`incoming
    ensures Read(r, sock.incoming) == Decode(old(sock.incoming))
  {
    hide And, Unpack, Masked;
    var first := RecvExact(sock, 2);
    if first.Err? {
      return first;
    }
    var opcode := And(first.value[0], 0x0F);
    var length := And(first.value[1], 0x7F);
    if length == 126 {
      var extended := RecvExact(sock, 2);
      if extended.Err? {
        return extended;
      }
      length := Unpack(extended.value);
    } else if length == 127 {
      var extended := RecvExact(sock, 8);
      if extended.Err? {
        return extended;
      }
      length := Unpack(extended.value);
    }
    var mask: Bytes := [];
    if And(first.value[1], 0x80) != 0 {
      var four := RecvExact(sock, 4);
      if four.Err? {
        return four;
      }
      mask := four.value;
    }
    var data := RecvExact(sock, length);
    if data.Err? {
      return data;
    }
    if opcode == 0x8 {
      return Err(CloseFrame);
    }
    if mask != [] {
      return Ok(Masked(data.value, mask));
    }
    return data;
  }
}
