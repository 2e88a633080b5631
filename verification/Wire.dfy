/** Message frames on the byte stream: a 24-byte little-endian header, then the payload. */
module Wire {
  import opened Bits
  import opened Protocol

  const HEADER_SIZE: nat := 24

  type u16 = x: int | 0 <= x < 0x1_0000

  datatype Header = Header(version: u16, opcode: u16, flags: u32, requestId: u64, payloadLen: u32, status: u32)

  function Pow256(k: nat): (r: nat)
    ensures r > 0
  {
    if k == 0 then 1 else 256 * Pow256(k - 1)
  }

  function ToLE(x: nat, k: nat): (r: seq<byte>)
    ensures |r| == k
    decreases k, x
  {
    if k == 0 then [] else [x % 256] + ToLE(x / 256, k - 1)
  }

  function FromLE(b: seq<byte>): (r: nat) {
    if |b| == 0 then 0 else b[0] + 256 * FromLE(b[1..])
  }

  lemma {:induction false} FromLEFits(b: seq<byte>)
    ensures FromLE(b) < Pow256(|b|)
  {
    if |b| > 0 {
      FromLEFits(b[1..]);
    }
  }

  lemma {:induction false} LERoundTrip(x: nat, k: nat)
    requires x < Pow256(k)
    ensures FromLE(ToLE(x, k)) == x
    decreases k
  {
    if k > 0 {
      LERoundTrip(x / 256, k - 1);
      assert ToLE(x, k)[1..] == ToLE(x / 256, k - 1);
    }
  }

  lemma Widths()
    ensures Pow256(2) == 0x1_0000 && Pow256(4) == TWO_32 && Pow256(8) == TWO_64
  {
    assert Pow256(1) == 256 * Pow256(0);
    assert Pow256(2) == 256 * Pow256(1);
    assert Pow256(3) == 256 * Pow256(2);
    assert Pow256(4) == 256 * Pow256(3);
    assert Pow256(5) == 256 * Pow256(4);
    assert Pow256(6) == 256 * Pow256(5);
    assert Pow256(7) == 256 * Pow256(6);
    assert Pow256(8) == 256 * Pow256(7);
  }

  function Field(b: seq<byte>, at: nat, k: nat): (r: nat)
    requires at + k <= |b|
  {
    FromLE(b[at..at + k])
  }

  lemma FieldsFit(b: seq<byte>)
    requires |b| == HEADER_SIZE
    ensures Field(b, 0, 2) < 0x1_0000 && Field(b, 2, 2) < 0x1_0000 && Field(b, 4, 4) < TWO_32
    ensures Field(b, 8, 8) < TWO_64 && Field(b, 16, 4) < TWO_32 && Field(b, 20, 4) < TWO_32
  {
    Widths();
    FromLEFits(b[0..2]);
    FromLEFits(b[2..4]);
    FromLEFits(b[4..8]);
    FromLEFits(b[8..16]);
    FromLEFits(b[16..20]);
    FromLEFits(b[20..24]);
  }

  function EncodeHeader(h: Header): (r: seq<byte>)
    ensures |r| == HEADER_SIZE
  {
    ToLE(h.version, 2) + ToLE(h.opcode, 2) + ToLE(h.flags, 4) + ToLE(h.requestId, 8) + ToLE(h.payloadLen, 4)
      + ToLE(h.status, 4)
  }

  function DecodeHeader(b: seq<byte>): (h: Header)
    requires |b| == HEADER_SIZE
  {
    FieldsFit(b);
    Header(Field(b, 0, 2), Field(b, 2, 2), Field(b, 4, 4), Field(b, 8, 8), Field(b, 16, 4), Field(b, 20, 4))
  }

  lemma SixParts<T>(a: seq<T>, b: seq<T>, c: seq<T>, d: seq<T>, e: seq<T>, f: seq<T>)
    requires |a| == 2 && |b| == 2 && |c| == 4 && |d| == 8 && |e| == 4 && |f| == 4
    ensures var s := a + b + c + d + e + f;
            && |s| == 24 && s[0..2] == a && s[2..4] == b && s[4..8] == c && s[8..16] == d && s[16..20] == e
              && s[20..24] == f
  {
    var ab, abc := a + b, a + b + c;
    var abcd := abc + d;
    var abcde := abcd + e;
    Tail(a, b);
    Tail(ab, c);
    Tail(abc, d);
    Tail(abcd, e);
    Tail(abcde, f);
    Head(abcde, f, 16, 20);
    Head(abcde, f, 8, 16);
    Head(abcd, e, 8, 16);
    Early(a, b, c, d, e, f);
  }

  lemma Early<T>(a: seq<T>, b: seq<T>, c: seq<T>, d: seq<T>, e: seq<T>, f: seq<T>)
    requires |a| == 2 && |b| == 2 && |c| == 4
    ensures var s := a + b + c + d + e + f;
            s[0..2] == a && s[2..4] == b && s[4..8] == c
  {
    var rest := d + e + f;
    assert a + b + c + d + e + f == a + b + c + rest;
    Head(a + b + c, rest, 0, 2);
    Head(a + b + c, rest, 2, 4);
    Head(a + b + c, rest, 4, 8);
  }

  lemma Tail<T>(a: seq<T>, b: seq<T>)
    ensures (a + b)[|a|..|a| + |b|] == b
  {
  }

  lemma Head<T>(a: seq<T>, b: seq<T>, lo: nat, hi: nat)
    requires lo <= hi <= |a|
    ensures (a + b)[lo..hi] == a[lo..hi]
  {
  }

  lemma HeaderSlices(h: Header)
    ensures var b := EncodeHeader(h);
            && b[0..2] == ToLE(h.version, 2) && b[2..4] == ToLE(h.opcode, 2) && b[4..8] == ToLE(h.flags, 4)
            && b[8..16] == ToLE(h.requestId, 8) && b[16..20] == ToLE(h.payloadLen, 4) && b[20..24] == ToLE(h.status, 4)
  {
    SixParts(ToLE(h.version, 2), ToLE(h.opcode, 2), ToLE(h.flags, 4), ToLE(h.requestId, 8), ToLE(h.payloadLen, 4),
             ToLE(h.status, 4));
  }

  lemma HeaderRoundTrip(h: Header)
    ensures DecodeHeader(EncodeHeader(h)) == h
  {
    HeaderSlices(h);
    Widths();
    LERoundTrip(h.version, 2);
    LERoundTrip(h.opcode, 2);
    LERoundTrip(h.flags, 4);
    LERoundTrip(h.requestId, 8);
    LERoundTrip(h.payloadLen, 4);
    LERoundTrip(h.status, 4);
  }

  lemma {:induction false} LEByte(x: nat, k: nat, i: nat)
    requires i < k
    ensures ToLE(x, k)[i] == x / Pow256(i) % 256
    decreases k
  {
    if i > 0 {
      LEByte(x / 256, k - 1, i - 1);
      DivTwice(x, Pow256(i - 1));
    }
  }

  lemma DivTwice(x: nat, b: nat)
    requires b > 0
    ensures x / 256 / b == x / (256 * b)
  {
    var y := x / 256;
    var q := y / b;
    assert y == b * q + y % b;
    Scaled(b, q);
    QuotientIs(x, 256 * b, q);
  }

  lemma Scaled(b: nat, q: nat)
    ensures 256 * b * q == 256 * (b * q)
  {
  }

  /** Where each header field is: two bytes of version and of opcode, four of flags, eight of
      request id, four of payload length and of status, low byte first. */
  lemma HeaderBytes(h: Header)
    ensures var b := EncodeHeader(h);
            && |b| == 24
            && (forall i :: 0 <= i < 2 ==> b[i] == h.version / Pow256(i) % 256)
            && (forall i :: 0 <= i < 2 ==> b[2 + i] == h.opcode / Pow256(i) % 256)
            && (forall i :: 0 <= i < 4 ==> b[4 + i] == h.flags / Pow256(i) % 256)
            && (forall i :: 0 <= i < 8 ==> b[8 + i] == h.requestId / Pow256(i) % 256)
            && (forall i :: 0 <= i < 4 ==> b[16 + i] == h.payloadLen / Pow256(i) % 256)
            && (forall i :: 0 <= i < 4 ==> b[20 + i] == h.status / Pow256(i) % 256)
  {
    HeaderSlices(h);
    FieldBytes(EncodeHeader(h), 0, h.version, 2);
    FieldBytes(EncodeHeader(h), 2, h.opcode, 2);
    FieldBytes(EncodeHeader(h), 4, h.flags, 4);
    FieldBytes(EncodeHeader(h), 8, h.requestId, 8);
    FieldBytes(EncodeHeader(h), 16, h.payloadLen, 4);
    FieldBytes(EncodeHeader(h), 20, h.status, 4);
  }

  lemma FieldBytes(b: seq<byte>, at: nat, x: nat, k: nat)
    requires at + k <= |b| && b[at..at + k] == ToLE(x, k)
    ensures forall i :: 0 <= i < k ==> b[at + i] == x / Pow256(i) % 256
  {
    forall i | 0 <= i < k ensures b[at + i] == x / Pow256(i) % 256 {
      LEByte(x, k, i);
      assert b[at..at + k][i] == b[at + i];
    }
  }

  // ---------- requests ----------

  datatype Call = Call(id: u64, opcode: u16, payload: seq<byte>)

  /** The length field is a truncating cast of the payload length. */
  function CallHeader(c: Call): (h: Header) {
    Header(VTF_TRANSPORT_VERSION, c.opcode, 0, c.id, Wrap32(|c.payload|), 0)
  }

  function EncodeCall(c: Call): (r: seq<byte>)
    ensures |r| == HEADER_SIZE + |c.payload|
  {
    EncodeHeader(CallHeader(c)) + c.payload
  }

  /** One whole request at the front of the stream, as the worker reads it. */
  datatype Frame = Partial | Oversized | Whole(header: Header, payload: seq<byte>, rest: seq<byte>)

  function ReadFrame(input: seq<byte>): (r: Frame)
    ensures r.Whole? ==> |r.payload| == r.header.payloadLen <= STORAGE_CAPACITY && |r.rest| < |input|
  {
    if |input| < HEADER_SIZE then Partial
    else
      var h := DecodeHeader(input[..HEADER_SIZE]);
      if h.payloadLen > STORAGE_CAPACITY then Oversized
      else if |input| < HEADER_SIZE + h.payloadLen then Partial
      else Whole(h, input[HEADER_SIZE..HEADER_SIZE + h.payloadLen], input[HEADER_SIZE + h.payloadLen..])
  }

  function CallOf(h: Header, payload: seq<byte>): (c: Call) {
    Call(h.requestId, h.opcode, payload)
  }

  /** A frame followed by anything is read back whole, unless it is over the limit. */
  lemma FrameRoundTrip(c: Call, rest: seq<byte>)
    requires |c.payload| < TWO_32
    ensures ReadFrame(EncodeCall(c) + rest)
         == if |c.payload| > STORAGE_CAPACITY then Oversized else Whole(CallHeader(c), c.payload, rest)
    ensures CallOf(CallHeader(c), c.payload) == c
  {
    HeaderRoundTrip(CallHeader(c));
    ThreeParts(EncodeHeader(CallHeader(c)), c.payload, rest);
  }

  lemma ThreeParts<T>(a: seq<T>, b: seq<T>, c: seq<T>)
    ensures (a + b + c)[..|a|] == a && (a + b + c)[|a|..|a| + |b|] == b && (a + b + c)[|a| + |b|..] == c
  {
  }

  /** A strict prefix of a frame is never taken for a request. */
  lemma PrefixIsPartial(c: Call, n: nat)
    requires |c.payload| < TWO_32 && n < |EncodeCall(c)|
    ensures !ReadFrame(EncodeCall(c)[..n]).Whole?
  {
    HeaderRoundTrip(CallHeader(c));
    if n >= HEADER_SIZE {
      assert EncodeCall(c)[..n][..HEADER_SIZE] == EncodeHeader(CallHeader(c));
    }
  }

  /** The worker sees the request that was sent exactly when its length survives the cast. */
  lemma LengthSurvivesIff(c: Call)
    ensures var f := ReadFrame(EncodeCall(c));
            |c.payload| <= STORAGE_CAPACITY <==> f.Whole? && CallOf(f.header, f.payload) == c
  {
    HeaderRoundTrip(CallHeader(c));
    var all := EncodeCall(c);
    assert all[..HEADER_SIZE] == EncodeHeader(CallHeader(c));
    if |c.payload| < TWO_32 {
      assert EncodeCall(c) + [] == EncodeCall(c);
      FrameRoundTrip(c, []);
    }
  }

  // ---------- replies ----------

  datatype Answer = Answer(status: u32, payload: seq<byte>)

  function AnswerHeader(c: Call, a: Answer): (h: Header) {
    Header(VTF_TRANSPORT_VERSION, c.opcode, 0, c.id, Wrap32(|a.payload|), a.status)
  }

  function EncodeAnswer(c: Call, a: Answer): (r: seq<byte>)
    ensures |r| == HEADER_SIZE + |a.payload|
  {
    EncodeHeader(AnswerHeader(c, a)) + a.payload
  }

  /** A reply names the request it answers, has version 1, no flags, the answer's status and exact
      length, and then the payload. */
  lemma AnswerEchoes(c: Call, a: Answer)
    requires |a.payload| < TWO_32
    ensures var b := EncodeAnswer(c, a);
            && DecodeHeader(b[..24]) == Header(1, c.opcode, 0, c.id, |a.payload|, a.status)
            && b[24..] == a.payload
  {
    HeaderRoundTrip(AnswerHeader(c, a));
    assert EncodeAnswer(c, a)[..24] == EncodeHeader(AnswerHeader(c, a));
  }

  /** A request has version 1, no flags and no status. */
  lemma CallIsPlain(c: Call)
    requires |c.payload| < TWO_32
    ensures var b := EncodeCall(c);
            && DecodeHeader(b[..24]) == Header(1, c.opcode, 0, c.id, |c.payload|, 0)
            && b[24..] == c.payload
  {
    HeaderRoundTrip(CallHeader(c));
    assert EncodeCall(c)[..24] == EncodeHeader(CallHeader(c));
  }
}
