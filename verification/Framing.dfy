/**
 * Length-prefixed frames, `src/privileged/framing.rs`. `limit` stands for the
 * shared library's MAX_TRUSTED_FRAME_BYTES, which is not part of this model; it
 * is only known to be positive and to fit a u32.
 */
module Framing {
  import opened Wrappers
  import opened Bytes

  type FrameLimit = n: nat | 0 < n < U32_MODULUS witness 1

  datatype FrameError = InvalidLength | TruncatedLength | TruncatedBody | WriteFailed

  predicate ValidBody(body: Bytes, limit: FrameLimit) {
    0 < |body| <= limit
  }

  function Encode(body: Bytes): Bytes {
    ToBigEndian(|body|, 4) + body
  }

  /** The first frame of `data`, and how many bytes taking it (or failing to) used up. */
  function Decode(data: Bytes, limit: FrameLimit): (r: (Result<Bytes, FrameError>, nat))
    ensures r.1 <= |data|
    ensures r.0.Ok? ==> ValidBody(r.0.value, limit) && r.1 == 4 + |r.0.value|
  {
    if |data| < 4 then (Err(TruncatedLength), |data|)
    else
      var length := FromBigEndian(data[..4]);
      if length == 0 || length > limit then (Err(InvalidLength), 4)
      else if |data| < 4 + length then (Err(TruncatedBody), |data|)
      else (Ok(data[4..4 + length]), 4 + length)
  }

  /** The two ends of a byte stream. */
  class Reader {
    const data: Bytes
    var pos: nat

    ghost predicate Valid()
      reads this
    {
      pos <= |data|
    }

    constructor (data: Bytes)
      ensures Valid() && this.data == data && pos == 0
    {
      this.data, pos := data, 0;
    }

    method ReadFrame(limit: FrameLimit) returns (r: Result<Bytes, FrameError>)
      requires Valid()
      modifies this`pos
      ensures Valid() && r == Decode(data[old(pos)..], limit).0
      ensures pos == old(pos) + Decode(data[old(pos)..], limit).1
      ensures r.Ok? ==> data[old(pos)..pos] == Encode(r.value)
    {
      ghost var rest := data[pos..];
      if |data| - pos < 4 {
        pos := |data|;
        return Err(TruncatedLength);
      }
      var prefix := data[pos..pos + 4];
      assert rest[..4] == prefix;
      var length := FromBigEndian(prefix);
      pos := pos + 4;
      if length == 0 || length > limit {
        return Err(InvalidLength);
      }
      if |data| - pos < length {
        pos := |data|;
        return Err(TruncatedBody);
      }
      var body := data[pos..pos + length];
      pos := pos + length;
      assert body == rest[4..4 + length];
      EncodeDecoded(prefix);
      return Ok(body);
    }
  }

  class Writer {
    var data: Bytes

    constructor ()
      ensures data == []
    {
      data := [];
    }

    /** `room`: how many more bytes the stream takes before it fails. `flushes`: whether the flush succeeds. */
    method WriteFrame(body: Bytes, limit: FrameLimit, room: nat, flushes: bool) returns (r: Result<(), FrameError>)
      modifies this
      ensures r.Ok? <==> ValidBody(body, limit) && room >= |Encode(body)| && flushes
      ensures r == Err(InvalidLength) <==> !ValidBody(body, limit)
      ensures data == if ValidBody(body, limit) then old(data) + Upto(Encode(body), room) else old(data)
    {
      if |body| == 0 || |body| > limit {
        return Err(InvalidLength);
      }
      var prefix := ToBigEndian(|body|, 4);
      data := data + Upto(prefix, room);
      if room < 4 {
        return Err(WriteFailed);
      }
      data := data + Upto(body, room - 4);
      if room - 4 < |body| || !flushes {
        return Err(WriteFailed);
      }
      return Ok(());
    }
  }

  function Upto(bytes: Bytes, n: nat): Bytes {
    if n < |bytes| then bytes[..n] else bytes
  }

  function EncodeAll(bodies: seq<Bytes>): Bytes {
    if bodies == [] then [] else Encode(bodies[0]) + EncodeAll(bodies[1..])
  }

  /** Reading frames until the first error, which a finished stream always ends in. */
  function DecodeAll(data: Bytes, limit: FrameLimit): (seq<Bytes>, FrameError)
    decreases |data|
  {
    var (r, used) := Decode(data, limit);
    match r
    case Err(e) => ([], e)
    case Ok(body) =>
      var (bodies, e) := DecodeAll(data[used..], limit);
      ([body] + bodies, e)
  }

  lemma FrameDecodes(body: Bytes, rest: Bytes, limit: FrameLimit)
    requires ValidBody(body, limit)
    ensures Decode(Encode(body) + rest, limit) == (Ok(body), 4 + |body|)
    ensures (Encode(body) + rest)[4 + |body|..] == rest
  {
    var data := Encode(body) + rest;
    WordCapacities();
    DecodeEncoded(|body|, 4);
    assert data[..4] == ToBigEndian(|body|, 4);
    assert data[4..4 + |body|] == body;
  }

  /** How many leading frames lie entirely within the first `cut` bytes. */
  function CompleteWithin(bodies: seq<Bytes>, cut: nat): (n: nat)
    ensures n <= |bodies|
  {
    if bodies == [] || cut < |Encode(bodies[0])| then 0
    else 1 + CompleteWithin(bodies[1..], cut - |Encode(bodies[0])|)
  }

  /**
   * A stream of valid frames that is cut anywhere yields exactly the complete
   * frames and then an error saying where the cut fell.
   */
  lemma {:induction false} CutStreamYieldsCompleteFrames(bodies: seq<Bytes>, cut: nat, limit: FrameLimit)
    requires forall body <- bodies :: ValidBody(body, limit)
    requires cut <= |EncodeAll(bodies)|
    ensures var (got, error) := DecodeAll(EncodeAll(bodies)[..cut], limit);
            var n := CompleteWithin(bodies, cut);
            && got == bodies[..n]
            && error == (if cut - |EncodeAll(bodies[..n])| < 4 then TruncatedLength else TruncatedBody)
  {
    if bodies == [] {
    } else if cut < |Encode(bodies[0])| {
      CutInsideFrame(bodies[0], EncodeAll(bodies)[..cut], limit);
      assert bodies[..0] == [];
    } else {
      var rest := cut - |Encode(bodies[0])|;
      CutStreamYieldsCompleteFrames(bodies[1..], rest, limit);
      CutAfterFirst(bodies, cut, limit);
      FirstTaken(bodies, CompleteWithin(bodies[1..], rest));
    }
  }

  lemma CutAfterFirst(bodies: seq<Bytes>, cut: nat, limit: FrameLimit)
    requires bodies != [] && ValidBody(bodies[0], limit) && |Encode(bodies[0])| <= cut <= |EncodeAll(bodies)|
    ensures var (got, error) := DecodeAll(EncodeAll(bodies[1..])[..cut - |Encode(bodies[0])|], limit);
            DecodeAll(EncodeAll(bodies)[..cut], limit) == ([bodies[0]] + got, error)
  {
    var first := Encode(bodies[0]);
    var rest := EncodeAll(bodies[1..])[..cut - |first|];
    assert EncodeAll(bodies)[..cut] == first + rest;
    FirstDecodes(bodies[0], rest, limit);
  }

  lemma FirstDecodes(body: Bytes, rest: Bytes, limit: FrameLimit)
    requires ValidBody(body, limit)
    ensures DecodeAll(Encode(body) + rest, limit) == ([body] + DecodeAll(rest, limit).0, DecodeAll(rest, limit).1)
  {
    FrameDecodes(body, rest, limit);
  }

  lemma FirstTaken(bodies: seq<Bytes>, n: nat)
    requires n < |bodies|
    ensures bodies[..n + 1] == [bodies[0]] + bodies[1..][..n]
    ensures EncodeAll(bodies[..n + 1]) == Encode(bodies[0]) + EncodeAll(bodies[1..][..n])
  {
    assert bodies[..n + 1][1..] == bodies[1..][..n];
  }

  lemma CutInsideFrame(body: Bytes, data: Bytes, limit: FrameLimit)
    requires ValidBody(body, limit) && |data| < |Encode(body)| && data == Encode(body)[..|data|]
    ensures DecodeAll(data, limit) == ([], if |data| < 4 then TruncatedLength else TruncatedBody)
  {
    if |data| >= 4 {
      WordCapacities();
      DecodeEncoded(|body|, 4);
      assert data[..4] == ToBigEndian(|body|, 4);
    }
  }

  lemma {:induction false} EncodeAllSnoc(bodies: seq<Bytes>, body: Bytes)
    ensures EncodeAll(bodies + [body]) == EncodeAll(bodies) + Encode(body)
  {
    if bodies == [] {
      assert ([] + [body])[1..] == [];
    } else {
      assert (bodies + [body])[1..] == bodies[1..] + [body];
      EncodeAllSnoc(bodies[1..], body);
    }
  }

  lemma {:induction false} AllButLast(bodies: seq<Bytes>, body: Bytes, n: nat)
    requires n <= |Encode(body)|
    ensures CompleteWithin(bodies + [body], |EncodeAll(bodies)| + n)
            == |bodies| + (if n == |Encode(body)| then 1 else 0)
  {
    if bodies == [] {
      assert (bodies + [body])[1..] == [];
    } else {
      assert (bodies + [body])[1..] == bodies[1..] + [body];
      AllButLast(bodies[1..], body, n);
    }
  }

  lemma CutLast(bodies: seq<Bytes>, body: Bytes, frame: Bytes, n: nat)
    requires frame == Encode(body) && n <= |frame|
    ensures |EncodeAll(bodies)| + n <= |EncodeAll(bodies + [body])|
    ensures EncodeAll(bodies) + frame[..n] == EncodeAll(bodies + [body])[..|EncodeAll(bodies)| + n]
  {
    EncodeAllSnoc(bodies, body);
  }

  lemma LastCutDecodes(bodies: seq<Bytes>, body: Bytes, n: nat, limit: FrameLimit)
    requires ValidBody(body, limit) && forall b <- bodies :: ValidBody(b, limit)
    requires n <= |Encode(body)| && |EncodeAll(bodies)| + n <= |EncodeAll(bodies + [body])|
    ensures DecodeAll(EncodeAll(bodies + [body])[..|EncodeAll(bodies)| + n], limit).0
            == if n < |Encode(body)| then bodies else bodies + [body]
  {
    var all := bodies + [body];
    CutStreamYieldsCompleteFrames(all, |EncodeAll(bodies)| + n, limit);
    AllButLast(bodies, body, n);
    assert all[..|bodies|] == bodies && all[..|all|] == all;
  }

  /** A write that failed leaves the reader every body before it, and its own exactly if all its bytes had gone out. */
  lemma FailedWriteLosesItsBodyOnly(bodies: seq<Bytes>, body: Bytes, room: nat, limit: FrameLimit)
    requires ValidBody(body, limit) && forall b <- bodies :: ValidBody(b, limit)
    ensures DecodeAll(EncodeAll(bodies) + Upto(Encode(body), room), limit).0
            == if room < |Encode(body)| then bodies else bodies + [body]
  {
    var frame := Encode(body);
    var n := |Upto(frame, room)|;
    assert Upto(frame, room) == frame[..n];
    CutLast(bodies, body, frame, n);
    LastCutDecodes(bodies, body, n, limit);
  }

  /** Reading what was written gives back the bodies. */
  lemma ReadingUndoesWriting(bodies: seq<Bytes>, limit: FrameLimit)
    requires forall body <- bodies :: ValidBody(body, limit)
    ensures DecodeAll(EncodeAll(bodies), limit) == (bodies, TruncatedLength)
  {
    CutStreamYieldsCompleteFrames(bodies, |EncodeAll(bodies)|, limit);
    AllComplete(bodies);
    assert EncodeAll(bodies)[..|EncodeAll(bodies)|] == EncodeAll(bodies);
    assert bodies[..|bodies|] == bodies;
  }

  lemma {:induction false} AllComplete(bodies: seq<Bytes>)
    ensures CompleteWithin(bodies, |EncodeAll(bodies)|) == |bodies|
  {
    if bodies == [] {
    } else {
      AllComplete(bodies[1..]);
    }
  }

  /** Bytes used by the frames `DecodeAll` returns, before the error. */
  function Consumed(data: Bytes, limit: FrameLimit): (n: nat)
    ensures n <= |data|
    decreases |data|
  {
    var (r, used) := Decode(data, limit);
    if r.Err? then 0 else used + Consumed(data[used..], limit)
  }

  lemma DecodedIsEncoded(data: Bytes, limit: FrameLimit)
    requires Decode(data, limit).0.Ok?
    ensures var (r, used) := Decode(data, limit); Encode(r.value) == data[..used]
  {
    EncodeDecoded(data[..4]);
  }

  lemma TakeAndDrop(data: Bytes, m: nat, n: nat)
    requires m + n <= |data|
    ensures data[..m + n] == data[..m] + data[m..][..n] && data[m + n..] == data[m..][n..]
  {
  }

  /** Writing what was read, from any stream at all, gives back the bytes consumed. */
  lemma {:induction false} WritingUndoesReading(data: Bytes, limit: FrameLimit)
    ensures EncodeAll(DecodeAll(data, limit).0) == data[..Consumed(data, limit)]
    ensures Decode(data[Consumed(data, limit)..], limit).0 == Err(DecodeAll(data, limit).1)
    decreases |data|
  {
    var (r, used) := Decode(data, limit);
    if r.Err? {
      assert data[0..] == data;
    } else {
      var rest := data[used..];
      WritingUndoesReading(rest, limit);
      DecodedIsEncoded(data, limit);
      TakeAndDrop(data, used, Consumed(rest, limit));
      var bodies := DecodeAll(rest, limit).0;
      assert ([r.value] + bodies)[1..] == bodies;
    }
  }
}
