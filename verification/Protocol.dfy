/** Reading newline-delimited frames from a reader that hands out its bytes in chunks. */
module Protocol {
  import opened Framing

  const NEWLINE: Byte := 10
  /** Two bounded payloads of 32 MiB and 1 MiB of envelope. */
  const MAX_FRAME_BYTES := 2 * 32 * 1024 * 1024 + 1024 * 1024

  datatype FrameError = TooLarge | InvalidUtf8

  type Read = Result<Option<Bytes>, FrameError>

  /** The position of the first newline, or the length if there is none. */
  function Until(stream: Bytes): (n: nat)
    ensures IsFrame(stream, n)
  {
    if stream == [] || stream[0] == NEWLINE then 0
    else
      var n := Until(stream[1..]);
      assert forall i :: 0 < i <= n ==> stream[i] == stream[1..][i - 1];
      1 + n
  }

  predicate Clear(bytes: Bytes) {
    forall i :: 0 <= i < |bytes| ==> bytes[i] != NEWLINE
  }

  /** The first `n` bytes are free of newlines, and a newline or the end follows. */
  predicate IsFrame(stream: Bytes, n: nat) {
    n <= |stream| && Clear(stream[..n]) && (n < |stream| ==> stream[n] == NEWLINE)
  }

  lemma FrameIsUnique(stream: Bytes, m: nat, n: nat)
    requires IsFrame(stream, m) && IsFrame(stream, n)
    ensures m == n
  {
  }

  // ---------- the reference: split the whole stream ----------

  /** The first frame of a whole stream. */
  function FirstFrame(utf8: Bytes -> bool, stream: Bytes): Read {
    if stream == [] then Ok(None)
    else if Until(stream) > MAX_FRAME_BYTES then Err(TooLarge)
    else if utf8(stream[..Until(stream)]) then Ok(Some(stream[..Until(stream)])) else Err(InvalidUtf8)
  }

  /** What follows the first frame and its newline. */
  function AfterFrame(stream: Bytes): (rest: Bytes)
    ensures stream != [] ==> |rest| < |stream|
  {
    var n := Until(stream);
    if n < |stream| then stream[n + 1..] else []
  }

  /** The frames of a stream, and the refusal that ended it, if any. */
  datatype Split = Split(frames: seq<Bytes>, end: Option<FrameError>)

  function Before(frames: seq<Bytes>, rest: Split): Split {
    Split(frames + rest.frames, rest.end)
  }

  /** All frames of a stream, up to the end or the first refusal. */
  function Frames(utf8: Bytes -> bool, stream: Bytes): Split
    decreases |stream|
  {
    match FirstFrame(utf8, stream)
    case Ok(None) => Split([], None)
    case Err(error) => Split([], Some(error))
    case Ok(Some(frame)) => Before([frame], Frames(utf8, AfterFrame(stream)))
  }

  /** A frame reads as what was written before its newline, or before the end; what follows the
      newline is left.  It is refused exactly when it is too long or no text. */
  lemma WrittenFrameReads(utf8: Bytes -> bool, frame: Bytes, rest: Bytes)
    requires NEWLINE !in frame
    ensures var r := if |frame| > MAX_FRAME_BYTES then Err(TooLarge)
                     else if utf8(frame) then Ok(Some(frame)) else Err(InvalidUtf8);
      && FirstFrame(utf8, frame + [NEWLINE] + rest) == r && AfterFrame(frame + [NEWLINE] + rest) == rest
      && (frame != [] ==> FirstFrame(utf8, frame) == r && AfterFrame(frame) == [])
  {
    var stream := frame + [NEWLINE] + rest;
    assert stream[..|frame|] == frame && stream[|frame|] == NEWLINE && IsFrame(stream, |frame|);
    FrameIsUnique(stream, Until(stream), |frame|);
    assert frame[..|frame|] == frame && IsFrame(frame, |frame|);
    FrameIsUnique(frame, Until(frame), |frame|);
  }

  /** Frames one after another, each with its newline. */
  function Lined(frames: seq<Bytes>): Bytes {
    if frames == [] then [] else frames[0] + [NEWLINE] + Lined(frames[1..])
  }

  /** Splitting what was written gives the frames back. */
  lemma {:induction false} FramesRoundTrip(utf8: Bytes -> bool, frames: seq<Bytes>)
    requires forall f :: f in frames ==> NEWLINE !in f && |f| <= MAX_FRAME_BYTES && utf8(f)
    ensures Frames(utf8, Lined(frames)) == Split(frames, None)
  {
    if frames != [] {
      WrittenFrameReads(utf8, frames[0], Lined(frames[1..]));
      FramesRoundTrip(utf8, frames[1..]);
      assert frames == [frames[0]] + frames[1..];
    }
  }

  // ---------- the chunked reader ----------

  function Flat(chunks: seq<Bytes>): Bytes {
    if chunks == [] then [] else chunks[0] + Flat(chunks[1..])
  }

  predicate NonEmpty(chunks: seq<Bytes>) {
    forall i :: 0 <= i < |chunks| ==> chunks[i] != []
  }

  class Reader {
    /** The chunks not yet consumed; the first one is the buffer. */
    var chunks: seq<Bytes>

    constructor (chunks: seq<Bytes>)
      ensures this.chunks == chunks
    {
      this.chunks := chunks;
    }

    predicate Valid()
      reads this
    {
      NonEmpty(chunks)
    }

    function Stream(): Bytes
      reads this
    {
      Flat(chunks)
    }

    /** The buffered bytes; empty only at the end of the stream. */
    method FillBuffer() returns (available: Bytes)
      requires Valid()
      ensures available <= Stream() && (available == [] <==> Stream() == [])
      ensures chunks != [] ==> available == chunks[0]
    {
      available := if chunks == [] then [] else chunks[0];
    }

    method Consume(n: nat)
      requires Valid() && chunks != [] && n <= |chunks[0]|
      modifies this
      ensures Valid() && Stream() == old(Stream())[n..]
    {
      if n == |chunks[0]| {
        assert Flat(chunks)[n..] == Flat(chunks[1..]);
        chunks := chunks[1..];
      } else {
        var rest := [chunks[0][n..]] + chunks[1..];
        assert rest[1..] == chunks[1..];
        assert Flat(chunks)[n..] == chunks[0][n..] + Flat(chunks[1..]);
        chunks := rest;
      }
    }

    /** Read one bounded frame.  However the stream is cut into chunks, the answer is the
        first frame of the whole stream, and the reader is left after it; a refused frame
        leaves some suffix of the stream. */
    method ReadFrame(utf8: Bytes -> bool) returns (r: Read)
      requires Valid()
      modifies this
      ensures Valid() && r == FirstFrame(utf8, old(Stream()))
      ensures r.Ok? || r == Err(InvalidUtf8) ==> Stream() == AfterFrame(old(Stream()))
      ensures r.Ok? && r.value.Some? ==> |Stream()| < |old(Stream())|
    {
      ghost var whole := Stream();
      var bytes: Bytes := [];
      var more := true;
      while more
        invariant Valid() && |bytes| <= MAX_FRAME_BYTES && Clear(bytes)
        invariant more ==> whole == bytes + Stream()
        invariant !more ==>
          && whole != [] && IsFrame(whole, |bytes|) && whole[..|bytes|] == bytes
          && Stream() == AfterFrame(whole)
        decreases more, |Stream()|
      {
        var available := FillBuffer();
        if available == [] {
          StreamEnds(whole, bytes, Stream());
          if bytes == [] {
            return Ok(None);
          }
          more := false;
        } else {
          var length := Until(available);
          if |bytes| + length > MAX_FRAME_BYTES {
            FrameIsLong(whole, bytes, available, Stream());
            return Err(TooLarge);
          }
          Extends(whole, bytes, available, Stream());
          bytes := bytes + available[..length];
          more := length == |available|;
          Consume(if more then length else length + 1);
        }
      }
      FrameIsUnique(whole, |bytes|, Until(whole));
      r := if utf8(bytes) then Ok(Some(bytes)) else Err(InvalidUtf8);
    }

    /** Read every frame until the end or the first refusal. */
    method ReadAll(utf8: Bytes -> bool) returns (all: Split)
      requires Valid()
      modifies this
      ensures all == Frames(utf8, old(Stream()))
    {
      var frames := [];
      ghost var whole := Frames(utf8, Stream());
      assert Before(frames, whole) == whole;
      while true
        invariant Valid() && Before(frames, Frames(utf8, Stream())) == whole
        decreases |Stream()|
      {
        ghost var stream := Stream();
        var r := ReadFrame(utf8);
        if r.Err? {
          assert Frames(utf8, stream) == Split([], Some(r.error));
          return Split(frames, Some(r.error));
        }
        if r.value.None? {
          assert Frames(utf8, stream) == Split([], None);
          return Split(frames, None);
        }
        assert Frames(utf8, stream) == Before([r.value.value], Frames(utf8, Stream()));
        frames := frames + [r.value.value];
      }
    }
  }

  lemma StreamEnds(whole: Bytes, bytes: Bytes, stream: Bytes)
    requires whole == bytes + stream && stream == [] && Clear(bytes)
    ensures whole == bytes && Until(whole) == |bytes| && AfterFrame(whole) == []
  {
    assert whole == bytes && whole[..|bytes|] == bytes;
    FrameIsUnique(whole, |bytes|, Until(whole));
  }

  lemma FrameIsLong(whole: Bytes, bytes: Bytes, available: Bytes, stream: Bytes)
    requires whole == bytes + stream && Clear(bytes) && available <= stream
    requires |bytes| + Until(available) > MAX_FRAME_BYTES
    ensures whole != [] && Until(whole) > MAX_FRAME_BYTES
  {
    assert forall i :: 0 <= i < |bytes| ==> whole[i] == bytes[i];
    assert forall i :: 0 <= i < Until(available) ==> whole[|bytes| + i] == available[..Until(available)][i];
  }

  /** Taking the buffer up to its newline, if any, advances or completes the frame. */
  lemma Extends(whole: Bytes, bytes: Bytes, available: Bytes, stream: Bytes)
    requires whole == bytes + stream && Clear(bytes) && available <= stream && available != []
    ensures var n := Until(available);
      var longer := bytes + available[..n];
      && Clear(longer)
      && (n == |available| ==> whole == longer + stream[n..])
      && (n < |available| ==>
            IsFrame(whole, |longer|) && whole[..|longer|] == longer && AfterFrame(whole) == stream[n + 1..])
  {
    var n := Until(available);
    var longer := bytes + available[..n];
    assert stream[..n] == available[..n];
    assert whole == longer + stream[n..];
    if n < |available| {
      assert whole[..|longer|] == longer && whole[|longer|] == stream[n];
      FrameIsUnique(whole, |longer|, Until(whole));
    }
  }
}
