/** The IPC framing: a little-endian length, then that many bytes. */
module Frames {
  import opened Wrappers
  import opened Octets

  const MAX_FRAME: nat := 1_048_576

  datatype ReadError = Truncated | TooLarge

  // ---------------------------------------------------------------- the code

  function LeBytes(n: nat): Bytes
    requires n < 0x1_0000_0000
  {
    [(n % 256) as byte, (n / 256 % 256) as byte, (n / 65536 % 256) as byte, (n / 16777216) as byte]
  }

  function FromLeBytes(b: Bytes): nat
    requires |b| == 4
  {
    b[0] as int + 256 * (b[1] as int) + 65536 * (b[2] as int) + 16777216 * (b[3] as int)
  }

  function Framed(body: Bytes): Bytes
    requires |body| <= MAX_FRAME
  {
    LeBytes(|body|) + body
  }

  /** A frame's body and the bytes after it. */
  function Unframed(stream: Bytes): Result<(Bytes, Bytes), ReadError> {
    if |stream| < 4 then Err(Truncated)
    else
      var len := FromLeBytes(stream[..4]);
      if len > MAX_FRAME then Err(TooLarge)
      else if |stream| < 4 + len then Err(Truncated)
      else Ok((stream[4..4 + len], stream[4 + len..]))
  }

  /** One direction of a connection: what was written and not yet read. */
  class Pipe {
    var bytes: Bytes

    constructor ()
      ensures bytes == []
    {
      bytes := [];
    }

    /** A body over the limit is refused before anything is written. */
    method WriteFrame(body: Bytes) returns (ok: bool)
      modifies this
      ensures ok <==> |body| <= MAX_FRAME
      ensures bytes == old(bytes) + if |body| <= MAX_FRAME then Framed(body) else []
    {
      if |body| > MAX_FRAME {
        return false;
      }
      bytes := bytes + LeBytes(|body|);
      bytes := bytes + body;
      ok := true;
    }

    /** `read_exact`: all of the next `n` bytes, or an error that uses up what there was. */
    method ReadExact(n: nat) returns (r: Result<Bytes, ReadError>)
      modifies this
      ensures r == if |old(bytes)| < n then Err(Truncated) else Ok(old(bytes)[..n])
      ensures bytes == if |old(bytes)| < n then [] else old(bytes)[n..]
    {
      if |bytes| < n {
        bytes := [];
        return Err(Truncated);
      }
      r := Ok(bytes[..n]);
      bytes := bytes[n..];
    }

    method ReadFrame() returns (r: Result<Bytes, ReadError>)
      modifies this
      ensures Unframed(old(bytes)).Err? ==> r == Err(Unframed(old(bytes)).error)
      ensures Unframed(old(bytes)).Ok? ==>
        r == Ok(Unframed(old(bytes)).value.0) && bytes == Unframed(old(bytes)).value.1
    {
      var head := ReadExact(4);
      if head.Err? {
        return Err(head.error);
      }
      var len := FromLeBytes(head.value);
      if len > MAX_FRAME {
        return Err(TooLarge);
      }
      if |bytes| >= len {
        assert bytes[..len] == old(bytes)[4..4 + len] && bytes[len..] == old(bytes)[4 + len..];
      }
      r := ReadExact(len);
    }
  }

  // -------------------------------------------------------------- properties

  /** The least significant byte first. */
  lemma LengthReadsBack(n: nat)
    requires n < 0x1_0000_0000
    ensures FromLeBytes(LeBytes(n)) == n
    ensures var b := LeBytes(n);
            n == b[0] as int + 256 * (b[1] as int + 256 * (b[2] as int + 256 * b[3] as int))
  {
    assert n / 65536 == n / 256 / 256 && n / 16777216 == n / 65536 / 256;
    assert n == 256 * (n / 256) + n % 256;
    assert n / 256 == 256 * (n / 65536) + n / 256 % 256;
    assert n / 65536 == 256 * (n / 16777216) + n / 65536 % 256;
  }

  /** A frame, whatever follows it, reads back as its body, and leaves exactly what follows. */
  lemma FrameReadsBack(body: Bytes, rest: Bytes)
    requires |body| <= MAX_FRAME
    ensures Unframed(Framed(body) + rest) == Ok((body, rest))
  {
    var stream := Framed(body) + rest;
    LengthReadsBack(|body|);
    assert stream[..4] == LeBytes(|body|);
    assert stream[4..4 + |body|] == body && stream[4 + |body|..] == rest;
  }

  predicate Fit(bodies: seq<Bytes>) {
    forall i :: 0 <= i < |bodies| ==> |bodies[i]| <= MAX_FRAME
  }

  function FramedAll(bodies: seq<Bytes>): Bytes
    requires Fit(bodies)
  {
    if bodies == [] then [] else Framed(bodies[0]) + FramedAll(bodies[1..])
  }

  /** The first `n` frames of a stream, and what is left. */
  function UnframedMany(stream: Bytes, n: nat): Result<(seq<Bytes>, Bytes), ReadError> {
    if n == 0 then Ok(([], stream))
    else match Unframed(stream)
      case Err(e) => Err(e)
      case Ok((body, rest)) =>
        match UnframedMany(rest, n - 1)
        case Err(e) => Err(e)
        case Ok((bodies, left)) => Ok(([body] + bodies, left))
  }

  /** A stream of frames reads back frame by frame. */
  lemma {:induction false} StreamReadsBack(bodies: seq<Bytes>, rest: Bytes)
    requires Fit(bodies)
    ensures UnframedMany(FramedAll(bodies) + rest, |bodies|) == Ok((bodies, rest))
  {
    if bodies == [] {
      assert FramedAll(bodies) + rest == rest;
    } else {
      var tail := FramedAll(bodies[1..]) + rest;
      assert FramedAll(bodies) + rest == Framed(bodies[0]) + tail;
      FrameReadsBack(bodies[0], tail);
      StreamReadsBack(bodies[1..], rest);
      assert bodies == [bodies[0]] + bodies[1..];
    }
  }

  /** Any proper prefix of a frame is recognised as cut short, never taken for another frame. */
  lemma PrefixIsTruncated(body: Bytes, n: nat)
    requires |body| <= MAX_FRAME && n < |Framed(body)|
    ensures Unframed(Framed(body)[..n]) == Err(Truncated)
  {
    if n >= 4 {
      LengthReadsBack(|body|);
      assert Framed(body)[..n][..4] == LeBytes(|body|);
    }
  }

  /** So the bytes of a stream determine its frames. */
  lemma {:induction false} FramesAreUnique(a: seq<Bytes>, b: seq<Bytes>)
    requires Fit(a) && Fit(b) && FramedAll(a) == FramedAll(b)
    ensures a == b
  {
    if a != [] && b != [] {
      FrameReadsBack(a[0], FramedAll(a[1..]));
      FrameReadsBack(b[0], FramedAll(b[1..]));
      FramesAreUnique(a[1..], b[1..]);
      assert a == [a[0]] + a[1..] && b == [b[0]] + b[1..];
    }
  }

  /** The length the first four bytes declare. */
  function Declared(s: Bytes): nat
    requires |s| >= 4
  {
    s[0] as int + 0x100 * s[1] as int + 0x1_0000 * s[2] as int + 0x100_0000 * s[3] as int
  }

  /** Reading fails exactly on a frame that declares too much, or is not all there; else it takes as many bytes
      as are declared. */
  lemma ReadsExactly(s: Bytes)
    ensures Unframed(s) == Err(TooLarge) <==> |s| >= 4 && Declared(s) > MAX_FRAME
    ensures Unframed(s) == Err(Truncated) <==> |s| < 4 || (Declared(s) <= MAX_FRAME && |s| < 4 + Declared(s))
    ensures Unframed(s).Ok? ==> Unframed(s).value == (s[4..4 + Declared(s)], s[4 + Declared(s)..])
  {
  }
}
