/**
  Length-prefixed framing on both sides of the socket: internal/embedding/frame.go in Go, `_wrap_frame` and
  `_read_frame` of ai_service/app/main.py in Python. A frame is a 4-byte big-endian length and that many bytes.
 */
module Framing {
  import opened Bytes
  import opened Wrappers

  const MAX_PAYLOAD := 4_194_304

  datatype ReadError = Eof | UnexpectedEof | EmptyFrame | FrameTooLarge

  /** What reading one frame comes to, and what is left of the stream. */
  datatype Parse = Parsed(payload: Bytes, rest: Bytes) | Broken(error: ReadError, rest: Bytes)

  function Header(n: int): Bytes
    requires 0 <= n < 0x1_0000_0000
  {
    [n / 0x100_0000, n / 0x1_0000 % 0x100, n / 0x100 % 0x100, n % 0x100]
  }

  function Length(h: Bytes): nat
    requires |h| == 4
  {
    (h[0] as int) * 0x100_0000 + (h[1] as int) * 0x1_0000 + (h[2] as int) * 0x100 + h[3]
  }

  function Frame(payload: Bytes): Bytes
    requires |payload| <= MAX_PAYLOAD
  {
    Header(|payload|) + payload
  }

  /** io.ReadFull: EOF if there was nothing to read at all, ErrUnexpectedEOF if there was too little. */
  function ShortRead(got: nat): ReadError {
    if got == 0 then Eof else UnexpectedEof
  }

  function ParseFrame(s: Bytes): Parse {
    if |s| < 4 then Broken(ShortRead(|s|), [])
    else
      var n, body := Length(s[..4]), s[4..];
      if n == 0 then Broken(EmptyFrame, body)
      else if n > MAX_PAYLOAD then Broken(FrameTooLarge, body)
      else if |body| < n then Broken(ShortRead(|body|), [])
      else Parsed(body[..n], body[n..])
  }

  // ---------------------------------------------------------------------------------------------------
  // The Go side
  // ---------------------------------------------------------------------------------------------------

  /** A stream of bytes to be read, as far as it will ever come. */
  class Reader {
    var rest: Bytes

    constructor (stream: Bytes)
      ensures rest == stream
    {
      rest := stream;
    }

    method ReadFull(buf: array<byte>) returns (err: Option<ReadError>)
      modifies this, buf
      ensures err == if |old(rest)| < buf.Length then Some(ShortRead(|old(rest)|)) else None
      ensures err == None ==> buf[..] == old(rest)[..buf.Length] && rest == old(rest)[buf.Length..]
      ensures err != None ==> rest == []
    {
      var n := |rest|;
      if n < buf.Length {
        forall i | 0 <= i < n {
          buf[i] := rest[i];
        }
        rest := [];
        return Some(ShortRead(n));
      }
      forall i | 0 <= i < buf.Length {
        buf[i] := rest[i];
      }
      rest := rest[buf.Length..];
      return None;
    }
  }

  /** asyncio's readexactly: all or, at the end of the stream, nothing (IncompleteReadError). */
  method ReadExactly(r: Reader, n: nat) returns (data: Option<Bytes>)
    modifies r
    ensures data == if |old(r.rest)| < n then None else Some(old(r.rest)[..n])
    ensures r.rest == if |old(r.rest)| < n then [] else old(r.rest)[n..]
  {
    if |r.rest| < n {
      r.rest := [];
      return None;
    }
    data := Some(r.rest[..n]);
    r.rest := r.rest[n..];
  }

  class Writer {
    var written: Bytes

    constructor ()
      ensures written == []
    {
      written := [];
    }

    method Write(data: Bytes)
      modifies this
      ensures written == old(written) + data
    {
      written := written + data;
    }
  }

  /** binary.BigEndian.PutUint32 */
  method PutUint32(b: array<byte>, v: int)
    requires b.Length == 4 && 0 <= v < 0x1_0000_0000
    modifies b
    ensures b[..] == Header(v)
    ensures b[0] as int * 0x100_0000 + b[1] as int * 0x1_0000 + b[2] as int * 0x100 + b[3] as int == v
  {
    LengthOfHeader(v);
    b[0] := v / 0x100_0000;
    b[1] := v / 0x1_0000 % 0x100;
    b[2] := v / 0x100 % 0x100;
    b[3] := v % 0x100;
  }

  method WriteFrame(w: Writer, payload: Bytes) returns (err: Option<ReadError>)
    modifies w
    ensures err == if |payload| > 4_194_304 then Some(FrameTooLarge) else None
    ensures w.written == if |payload| > MAX_PAYLOAD then old(w.written) else old(w.written) + Frame(payload)
  {
    if |payload| > MAX_PAYLOAD {
      return Some(FrameTooLarge);
    }
    var hdr := new byte[4];
    PutUint32(hdr, |payload|);
    w.Write(hdr[..]);
    w.Write(payload);
    return None;
  }

  method ReadFrame(r: Reader) returns (res: Result<Bytes, ReadError>)
    modifies r
    ensures match ParseFrame(old(r.rest))
            case Parsed(payload, rest) => res == Ok(payload) && r.rest == rest
            case Broken(e, rest) => res == Err(e) && r.rest == rest
  {
    var hdr := new byte[4];
    var e := r.ReadFull(hdr);
    if e.Some? {
      return Err(e.value);
    }
    var n := Length(hdr[..]);
    if n == 0 {
      return Err(EmptyFrame);
    }
    if n > MAX_PAYLOAD {
      return Err(FrameTooLarge);
    }
    var buf := new byte[n];
    e := r.ReadFull(buf);
    if e.Some? {
      return Err(e.value);
    }
    return Ok(buf[..]);
  }

  // ---------------------------------------------------------------------------------------------------
  // The Python side
  // ---------------------------------------------------------------------------------------------------

  /** n as k bytes, most significant first: struct.pack("!I", n) for k = 4. */
  function Pack(n: nat, k: nat): Bytes {
    if k == 0 then [] else Pack(n / 0x100, k - 1) + [n % 0x100]
  }

  function Unpack(b: Bytes): nat {
    if b == [] then 0 else Unpack(b[..|b| - 1]) * 0x100 + b[|b| - 1]
  }

  /** `_wrap_frame`; None stands for the FrameTooLarge exception. */
  function WrapFrame(payload: Bytes): Option<Bytes> {
    if |payload| > MAX_PAYLOAD then None else Some(Pack(|payload|, 4) + payload)
  }

  datatype PyError = IncompleteReadError | ValueError | TooLarge

  /** `_read_frame` on what the stream holds until its end. */
  function PyReadFrame(s: Bytes): Result<(Bytes, Bytes), PyError> {
    if |s| < 4 then Err(IncompleteReadError)
    else
      var n := Unpack(s[..4]);
      if n == 0 then Err(ValueError)
      else if n > MAX_PAYLOAD then Err(TooLarge)
      else if |s| - 4 < n then Err(IncompleteReadError)
      else Ok((s[4..4 + n], s[4 + n..]))
  }

  method PyRead(r: Reader) returns (res: Result<Bytes, PyError>)
    modifies r
    ensures match PyReadFrame(old(r.rest))
            case Ok((payload, rest)) => res == Ok(payload) && r.rest == rest
            case Err(e) => res == Err(e)
  {
    var hdr := ReadExactly(r, 4);
    if hdr.None? {
      return Err(IncompleteReadError);
    }
    var n := Unpack(hdr.value);
    if n == 0 {
      return Err(ValueError);
    }
    if n > MAX_PAYLOAD {
      return Err(TooLarge);
    }
    ghost var s := old(r.rest);
    assert n <= |s| - 4 ==> s[4..][..n] == s[4..4 + n] && s[4..][n..] == s[4 + n..];
    var body := ReadExactly(r, n);
    if body.None? {
      return Err(IncompleteReadError);
    }
    return Ok(body.value);
  }

  // ---------------------------------------------------------------------------------------------------
  // The two sides agree
  // ---------------------------------------------------------------------------------------------------

  lemma LengthOfHeader(n: int)
    requires 0 <= n < 0x1_0000_0000
    ensures Length(Header(n)) == n
  {
    var a, b, c := n / 0x100, n / 0x1_0000, n / 0x100_0000;
    assert n == a * 0x100 + n % 0x100;
    assert a == b * 0x100 + a % 0x100;
    assert b == c * 0x100 + b % 0x100;
  }

  lemma PackIsHeader(n: int)
    requires 0 <= n < 0x1_0000_0000
    ensures Pack(n, 4) == Header(n)
  {
    var a, b, c := n / 0x100, n / 0x100 / 0x100, n / 0x100 / 0x100 / 0x100;
    assert b == n / 0x1_0000 && c == n / 0x100_0000;
    assert Pack(c, 1) == Pack(c / 0x100, 0) + [c % 0x100];
    assert Pack(b, 2) == Pack(c, 1) + [b % 0x100];
    assert Pack(a, 3) == Pack(b, 2) + [a % 0x100];
    assert Pack(n, 4) == Pack(a, 3) + [n % 0x100];
  }

  lemma UnpackIsLength(h: Bytes)
    requires |h| == 4
    ensures Unpack(h) == Length(h)
  {
    assert h[..3][..2] == h[..2] && h[..2][..1] == h[..1] && h[..1][..0] == [];
    assert Unpack(h[..1]) == Unpack([]) * 0x100 + h[0];
    assert Unpack(h[..2]) == Unpack(h[..1]) * 0x100 + h[1];
    assert Unpack(h[..3]) == Unpack(h[..2]) * 0x100 + h[2];
  }

  /** Both sides write the same bytes for a payload, and refuse the same payloads. */
  lemma WritersAgree(payload: Bytes)
    ensures WrapFrame(payload) == if |payload| <= MAX_PAYLOAD then Some(Frame(payload)) else None
  {
    if |payload| <= MAX_PAYLOAD {
      PackIsHeader(|payload|);
    }
  }

  /** Both sides read the same payload off any bytes, leave the same rest, and fail together. */
  lemma ReadersAgree(s: Bytes)
    ensures match ParseFrame(s)
            case Parsed(payload, rest) => PyReadFrame(s) == Ok((payload, rest))
            case Broken(e, _) =>
              PyReadFrame(s) == Err(match e case EmptyFrame => ValueError case FrameTooLarge => TooLarge
                                            case _ => IncompleteReadError)
  {
    if |s| >= 4 {
      UnpackIsLength(s[..4]);
      var n := Length(s[..4]);
      if n <= |s| - 4 {
        assert s[4..][..n] == s[4..4 + n] && s[4..][n..] == s[4 + n..];
      }
    }
  }

  // ---------------------------------------------------------------------------------------------------
  // Streams of frames
  // ---------------------------------------------------------------------------------------------------

  predicate Sendable(p: Bytes) {
    1 <= |p| <= MAX_PAYLOAD
  }

  predicate AllFit(ps: seq<Bytes>) {
    forall i :: 0 <= i < |ps| ==> |ps[i]| <= MAX_PAYLOAD
  }

  predicate AllSendable(ps: seq<Bytes>) {
    forall i :: 0 <= i < |ps| ==> Sendable(ps[i])
  }

  function FrameAll(ps: seq<Bytes>): Bytes
    requires AllFit(ps)
  {
    if ps == [] then [] else Frame(ps[0]) + FrameAll(ps[1..])
  }

  /** All payloads up to the first thing that is not a frame, and what that was. */
  function ReadAll(s: Bytes): (seq<Bytes>, ReadError)
    decreases |s|
  {
    match ParseFrame(s)
    case Parsed(payload, rest) => var (more, e) := ReadAll(rest); ([payload] + more, e)
    case Broken(e, _) => ([], e)
  }

  /** A frame at the front of a stream is read off, whatever follows. */
  lemma ParseFramed(p: Bytes, rest: Bytes)
    requires Sendable(p)
    ensures ParseFrame(Frame(p) + rest) == Parsed(p, rest)
  {
    var s := Frame(p) + rest;
    LengthOfHeader(|p|);
    assert s[..4] == Header(|p|) && s[4..] == p + rest;
  }

  /** A frame that is not all there is never read as one. */
  lemma ParseCut(p: Bytes, k: nat)
    requires |p| <= MAX_PAYLOAD && k < |Frame(p)|
    ensures ParseFrame(Frame(p)[..k]).Broken?
    ensures ParseFrame(Frame(p)[..k]).error == Eof <==> k == 0 || k == 4
  {
    var s := Frame(p)[..k];
    if k >= 4 {
      LengthOfHeader(|p|);
      assert s[..4] == Header(|p|);
    }
  }

  lemma NothingToParse()
    ensures ParseFrame([]) == Broken(Eof, [])
  {
  }

  lemma {:induction false} FramesRoundTrip(ps: seq<Bytes>)
    requires AllSendable(ps)
    ensures ReadAll(FrameAll(ps)) == (ps, Eof)
  {
    hide ParseFrame, Frame;
    if ps == [] {
      NothingToParse();
    } else {
      ParseFramed(ps[0], FrameAll(ps[1..]));
      FramesRoundTrip(ps[1..]);
      assert [ps[0]] + ps[1..] == ps;
    }
  }

  /**
    A stream cut anywhere yields the payloads whose frames are all there, in order, and then an error, never anything
    else. A plain EOF is not proof of a clean end: it also comes up when the cut is right behind a header.
   */
  lemma {:induction false} TruncatedStream(ps: seq<Bytes>, cut: nat) returns (k: nat)
    requires AllSendable(ps) && cut <= |FrameAll(ps)|
    ensures k <= |ps| && ReadAll(FrameAll(ps)[..cut]).0 == ps[..k]
    ensures |FrameAll(ps[..k])| <= cut
    ensures k < |ps| ==> cut < |FrameAll(ps[..k])| + |Frame(ps[k])|
    ensures ReadAll(FrameAll(ps)[..cut]).1 == Eof <==> cut == |FrameAll(ps[..k])| || cut == |FrameAll(ps[..k])| + 4
  {
    hide ParseFrame, Frame;
    var s := FrameAll(ps);
    if ps == [] {
      k := 0;
      NothingToParse();
    } else if cut < |Frame(ps[0])| {
      k := 0;
      assert s[..cut] == Frame(ps[0])[..cut];
      ParseCut(ps[0], cut);
    } else {
      var n := |Frame(ps[0])|;
      var rest := FrameAll(ps[1..]);
      assert s[..cut] == Frame(ps[0]) + rest[..cut - n];
      ParseFramed(ps[0], rest[..cut - n]);
      var j := TruncatedStream(ps[1..], cut - n);
      k := j + 1;
      assert ps[..k] == [ps[0]] + ps[1..][..j];
      assert ps[..k][1..] == ps[1..][..j];
    }
  }

  lemma {:induction false} FrameAllConcat(ps: seq<Bytes>, qs: seq<Bytes>)
    requires AllFit(ps) && AllFit(qs)
    ensures AllFit(ps + qs) && FrameAll(ps + qs) == FrameAll(ps) + FrameAll(qs)
  {
    hide Frame;
    if ps == [] {
      assert ps + qs == qs;
    } else {
      assert (ps + qs)[1..] == ps[1..] + qs;
      FrameAllConcat(ps[1..], qs);
    }
  }
}
