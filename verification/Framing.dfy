/** The frames between browser and bridge: a four-byte big-endian header length, the header, the payload. Python
    writes and reads them in src/lumi/api/bridge.py, lines 48-56; the emitted TypeScript in
    src/lumi/codegen/ts_client.py, lines 29-46. */
module Framing {
  import opened Common

  newtype byte = i: int | 0 <= i < 256

  type Bytes = seq<byte>

  const TWO_TO_THE_32: int := 0x1_0000_0000

  datatype FrameError = TooLong | TooShort

  /** The four bytes of an unsigned 32-bit integer, most significant first. */
  function BigEndian(n: nat): (b: Bytes)
    requires n < TWO_TO_THE_32
    ensures |b| == 4
  {
    [(n / 0x100_0000) as byte, (n / 0x1_0000 % 0x100) as byte, (n / 0x100 % 0x100) as byte, (n % 0x100) as byte]
  }

  function FromBigEndian(b: Bytes): (n: nat)
    requires |b| == 4
    ensures n < TWO_TO_THE_32
  {
    b[0] as int * 0x100_0000 + b[1] as int * 0x1_0000 + b[2] as int * 0x100 + b[3] as int
  }

  lemma BigEndianInverts(n: nat)
    requires n < TWO_TO_THE_32
    ensures FromBigEndian(BigEndian(n)) == n
  {
    assert n / 0x100 == n / 0x1_0000 * 0x100 + n / 0x100 % 0x100;
    assert n / 0x1_0000 == n / 0x100_0000 * 0x100 + n / 0x1_0000 % 0x100;
  }

  /** The most significant byte is the first. */
  lemma MostSignificantFirst(n: nat)
    requires n < TWO_TO_THE_32
    ensures var b := BigEndian(n);
            n == b[0] as int * 0x100_0000 + b[1] as int * 0x1_0000 + b[2] as int * 0x100 + b[3] as int
  {
    BigEndianInverts(n);
  }

  lemma BigEndianCovers(b: Bytes)
    requires |b| == 4
    ensures BigEndian(FromBigEndian(b)) == b
  {
    var n := FromBigEndian(b);
    assert n % 0x100 == b[3] as int;
    assert n / 0x100 == b[0] as int * 0x1_0000 + b[1] as int * 0x100 + b[2] as int;
    assert n / 0x1_0000 == b[0] as int * 0x100 + b[1] as int;
    assert n / 0x100_0000 == b[0] as int;
  }

  // ----- the bridge's side -----------------------------------------------------------------

  /** `struct.pack` refuses a length that does not fit. */
  function Pack(head: Bytes, payload: Bytes): Result<Bytes, FrameError> {
    if |head| >= TWO_TO_THE_32 then Err(TooLong) else Ok(BigEndian(|head|) + head + payload)
  }

  /** A slice that reaches past the end is cut short, in both languages. */
  function Upto(b: Bytes, to: nat): Bytes {
    if to <= |b| then b[..to] else b
  }

  function From(b: Bytes, from: nat): Bytes {
    if from <= |b| then b[from..] else []
  }

  /** A frame of less than four bytes is refused by both languages. */
  function Unpack(frame: Bytes): Result<(Bytes, Bytes), FrameError> {
    if |frame| < 4 then Err(TooShort)
    else Split(FromBigEndian(frame[..4]), frame[4..])
  }

  function Split(n: nat, rest: Bytes): Result<(Bytes, Bytes), FrameError> {
    Ok((Upto(rest, n), From(rest, n)))
  }

  // ----- the browser's side ------------------------------------------------------------------

  /** What `setUint32` stores: the length modulo 2^32. */
  function Wrapped(n: nat): (w: nat)
    ensures w < TWO_TO_THE_32
  {
    n % TWO_TO_THE_32
  }

  /** The browser's frame: written in place into a new buffer. */
  method PackFrame(head: Bytes, payload: Bytes) returns (out: array<byte>)
    ensures fresh(out) && out[..] == BigEndian(Wrapped(|head|)) + head + payload
  {
    out := new byte[4 + |head| + |payload|];
    var length := BigEndian(Wrapped(|head|));
    Put(out, 0, length);
    Put(out, 4, head);
    Put(out, 4 + |head|, payload);
    assert out[..4] == length && out[4..4 + |head|] == head && out[4 + |head|..] == payload;
    assert out[..] == out[..4] + out[4..4 + |head|] + out[4 + |head|..];
  }

  /** Copies `bytes` into the buffer at an offset and touches nothing else. */
  method Put(out: array<byte>, offset: nat, bytes: Bytes)
    requires offset + |bytes| <= out.Length
    modifies out
    ensures out[..] == old(out[..offset]) + bytes + old(out[offset + |bytes|..])
  {
    var i := 0;
    while i < |bytes|
      invariant i <= |bytes|
      invariant out[..offset] == old(out[..offset]) && out[offset + |bytes|..] == old(out[offset + |bytes|..])
      invariant out[offset..offset + i] == bytes[..i]
    {
      out[offset + i] := bytes[i];
      i := i + 1;
    }
    assert out[..] == out[..offset] + out[offset..offset + |bytes|] + out[offset + |bytes|..];
  }

  function BrowserFrame(head: Bytes, payload: Bytes): Bytes {
    BigEndian(Wrapped(|head|)) + head + payload
  }

  // ----- round trips ---------------------------------------------------------------------------

  lemma UnpackAnnounced(n: nat, rest: Bytes)
    requires n < TWO_TO_THE_32
    ensures Unpack(BigEndian(n) + rest) == Split(n, rest)
  {
    var frame := BigEndian(n) + rest;
    assert frame[..4] == BigEndian(n) && frame[4..] == rest;
    BigEndianInverts(n);
  }

  lemma SplitExactly(n: nat, head: Bytes, payload: Bytes)
    requires n <= |head|
    ensures Split(n, head + payload) == Ok((head, payload)) <==> n == |head|
  {
    assert |Upto(head + payload, n)| == n;
    if n == |head| {
      assert Upto(head + payload, n) == head && From(head + payload, n) == payload;
    }
  }

  lemma FrameSplits(n: nat, head: Bytes, payload: Bytes)
    requires n < TWO_TO_THE_32 && n <= |head|
    ensures Unpack(BigEndian(n) + head + payload) == Ok((head, payload)) <==> n == |head|
  {
    assert BigEndian(n) + head + payload == BigEndian(n) + (head + payload);
    UnpackAnnounced(n, head + payload);
    SplitExactly(n, head, payload);
  }

  /** What the bridge packs, either side unpacks to the same header and payload; it packs every header whose
      length fits. */
  lemma BridgeFrameRoundTrip(head: Bytes, payload: Bytes)
    ensures Pack(head, payload).Ok? <==> |head| < TWO_TO_THE_32
    ensures Pack(head, payload).Ok? ==> Unpack(Pack(head, payload).value) == Ok((head, payload))
  {
    if |head| < TWO_TO_THE_32 {
      FrameSplits(|head|, head, payload);
    }
  }

  /** What the browser packs comes back exactly when the header is shorter than 2^32 bytes; beyond that the length
      wraps round and part of the header is read as payload. */
  lemma BrowserFrameRoundTrip(head: Bytes, payload: Bytes)
    ensures Unpack(BrowserFrame(head, payload)) == Ok((head, payload)) <==> |head| < TWO_TO_THE_32
  {
    FrameSplits(Wrapped(|head|), head, payload);
  }

  /** Both languages write the same frames. */
  lemma SameFrames(head: Bytes, payload: Bytes)
    requires |head| < TWO_TO_THE_32
    ensures Pack(head, payload) == Ok(BrowserFrame(head, payload))
  {
  }

  /** Packing what was unpacked gives the frame back exactly when the frame holds the whole header it announces. */
  lemma UnpackThenPack(frame: Bytes)
    requires |frame| >= 4
    ensures Unpack(frame).Ok?
    ensures var (head, payload) := Unpack(frame).value;
            Pack(head, payload) == Ok(frame) <==> 4 + FromBigEndian(frame[..4]) <= |frame|
  {
    var n, rest := FromBigEndian(frame[..4]), frame[4..];
    BigEndianCovers(frame[..4]);
    var head, payload := Upto(rest, n), From(rest, n);
    assert frame == frame[..4] + rest;
    if n <= |rest| {
      assert BigEndian(n) + head + payload == frame;
    } else {
      BigEndianInverts(|head|);
      assert (BigEndian(|head|) + head + payload)[..4] == BigEndian(|head|);
    }
  }

  // ----- headers ---------------------------------------------------------------------------------

  /** A JSON codec for headers of type `H`; `parse` gives nothing for text that is not a header. */
  datatype Codec<!H> = Codec(text: H -> Bytes, parse: Bytes -> Option<H>)

  /** The codec is invertible, and no header is as long as 4 GiB. */
  ghost predicate IsFaithful<H(!new)>(c: Codec<H>) {
    forall h: H :: c.parse(c.text(h)) == Some(h) && |c.text(h)| < TWO_TO_THE_32
  }

  function Received<H>(c: Codec<H>, frame: Bytes): Option<(H, Bytes)> {
    match Unpack(frame)
    case Err(_) => None
    case Ok((head, payload)) =>
      match c.parse(head)
      case None => None
      case Some(h) => Some((h, payload))
  }

  lemma HeaderIsFaithful<H(!new)>(c: Codec<H>, h: H)
    requires IsFaithful(c)
    ensures c.parse(c.text(h)) == Some(h) && |c.text(h)| < TWO_TO_THE_32
  {
  }

  lemma WireCarriesHead<H>(c: Codec<H>, h: H, head: Bytes, payload: Bytes)
    requires c.parse(head) == Some(h) && |head| < TWO_TO_THE_32
    ensures Pack(head, payload).Ok?
    ensures Received(c, Pack(head, payload).value) == Received(c, BrowserFrame(head, payload)) == Some((h, payload))
  {
    FrameSplits(|head|, head, payload);
    SameFrames(head, payload);
  }

  /** With a faithful codec each side receives exactly the header and payload the other sent. */
  lemma WireCarriesMessages<H(!new)>(c: Codec<H>, h: H, payload: Bytes)
    requires IsFaithful(c)
    ensures Pack(c.text(h), payload).Ok?
    ensures Received(c, Pack(c.text(h), payload).value) == Some((h, payload))
    ensures Received(c, BrowserFrame(c.text(h), payload)) == Some((h, payload))
  {
    HeaderIsFaithful(c, h);
    var head := c.text(h);
    WireCarriesHead(c, h, head, payload);
  }

  /** What a frame of four bytes or more is taken for: as many bytes of what follows them as they announce, or all there
      are, and the rest as payload. */
  lemma UnpackExactly(frame: Bytes)
    ensures Unpack(frame).Err? <==> |frame| < 4
    ensures |frame| >= 4 ==>
              var (head, payload) := Unpack(frame).value;
              head + payload == frame[4..] && |head| == if FromBigEndian(frame[..4]) <= |frame| - 4 then FromBigEndian(frame[..4]) else |frame| - 4
  {
  }
}
