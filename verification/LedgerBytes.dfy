/** Ledger records as bytes: one event per line, and what a torn append leaves.

  The event codec is a parameter.  Of an encoded event it is assumed only that it decodes
  to itself, holds no newline, fits a frame, and that no proper prefix of it decodes, as
  for a complete JSON object.
*/
module LedgerBytes {
  import opened Framing
  import opened Protocol
  import opened Ledger

  const MAX_RECORD_BYTES := 2 * (MAX_FRAME_BYTES + 1)

  datatype Codec = Codec(encode: LedgerEvent -> Bytes, decode: Bytes -> Option<LedgerEvent>, utf8: Bytes -> bool)

  /** This event survives encoding, and a proper part of its encoding is no event. */
  ghost predicate Encodes(codec: Codec, e: LedgerEvent) {
    var bytes := codec.encode(e);
    && 0 < |bytes| <= MAX_FRAME_BYTES && Clear(bytes) && codec.utf8(bytes) && codec.decode(bytes) == Some(e)
    && forall n :: 0 < n < |bytes| ==> !codec.utf8(bytes[..n]) || codec.decode(bytes[..n]).None?
  }

  function DecodeAll(codec: Codec, frames: seq<Bytes>): Option<seq<LedgerEvent>> {
    if frames == [] then Some([])
    else
      var first := if frames[0] == [] then None else codec.decode(frames[0]);
      var rest := DecodeAll(codec, frames[1..]);
      if first.Some? && rest.Some? then Some([first.value] + rest.value) else None
  }

  /** The events read so far, followed by the rest of the stream. */
  function Resume(codec: Codec, events: seq<LedgerEvent>, rest: Split): Content {
    var decoded := DecodeAll(codec, rest.frames);
    if rest.end.Some? || decoded.None? then Garbled else Events(events + decoded.value)
  }

  /** The record that a file's bytes hold. */
  function ContentOf(codec: Codec, bytes: Bytes): Content {
    if |bytes| > MAX_RECORD_BYTES then Garbled else Resume(codec, [], Frames(codec.utf8, bytes))
  }

  lemma ResumeStep(codec: Codec, events: seq<LedgerEvent>, frame: Bytes, rest: Split)
    ensures Resume(codec, events, Before([frame], rest)) ==
      if frame == [] || codec.decode(frame).None? then Garbled
      else Resume(codec, events + [codec.decode(frame).value], rest)
  {
    assert Before([frame], rest).frames[1..] == rest.frames;
    if frame != [] && codec.decode(frame).Some? && DecodeAll(codec, rest.frames).Some? {
      var e, more := codec.decode(frame).value, DecodeAll(codec, rest.frames).value;
      assert events + ([e] + more) == (events + [e]) + more;
    }
  }

  /** Read and check a record from a reader.  The answer depends only on the bytes, not on
      how the reader cuts them. */
  method LoadBytes(codec: Codec, reader: Reader, length: nat) returns (record: Option<Loaded>)
    requires reader.Valid() && length == |reader.Stream()|
    modifies reader
    ensures record == LoadRecord(ContentOf(codec, old(reader.Stream())))
  {
    if length > MAX_RECORD_BYTES {
      return None;
    }
    var events: seq<LedgerEvent> := [];
    ghost var content := ContentOf(codec, reader.Stream());
    while true
      invariant reader.Valid() && |events| <= 2
      invariant Resume(codec, events, Frames(codec.utf8, reader.Stream())) == content
      decreases |reader.Stream()|
    {
      ghost var stream := reader.Stream();
      var line := reader.ReadFrame(codec.utf8);
      if line.Err? {
        assert Frames(codec.utf8, stream) == Split([], Some(line.error));
        return None;
      }
      if line.value.None? {
        assert Frames(codec.utf8, stream) == Split([], None);
        assert content == Events(events);
        return LoadRecord(Events(events));
      }
      var frame := line.value.value;
      assert Frames(codec.utf8, stream) == Before([frame], Frames(codec.utf8, reader.Stream()));
      ResumeStep(codec, events, frame, Frames(codec.utf8, reader.Stream()));
      if frame == [] || |events| == 2 || codec.decode(frame).None? {
        return None;
      }
      events := events + [codec.decode(frame).value];
    }
  }

  // ---------- appends ----------

  function Line(codec: Codec, e: LedgerEvent): Bytes {
    codec.encode(e) + [NEWLINE]
  }

  function Lines(codec: Codec, events: seq<LedgerEvent>): Bytes {
    if events == [] then [] else Line(codec, events[0]) + Lines(codec, events[1..])
  }

  lemma LineIsFrame(codec: Codec, e: LedgerEvent, rest: Bytes)
    requires Encodes(codec, e)
    ensures Frames(codec.utf8, Line(codec, e) + rest) == Before([codec.encode(e)], Frames(codec.utf8, rest))
  {
    var bytes, stream := codec.encode(e), Line(codec, e) + rest;
    assert stream[..|bytes|] == bytes && stream[|bytes|] == NEWLINE && stream[|bytes| + 1..] == rest;
    FrameIsUnique(stream, |bytes|, Until(stream));
  }

  lemma LineDecodes(codec: Codec, before: seq<LedgerEvent>, e: LedgerEvent, rest: Bytes)
    requires Encodes(codec, e)
    ensures Resume(codec, before, Frames(codec.utf8, Line(codec, e) + rest)) ==
            Resume(codec, before + [e], Frames(codec.utf8, rest))
  {
    LineIsFrame(codec, e, rest);
    ResumeStep(codec, before, codec.encode(e), Frames(codec.utf8, rest));
  }

  lemma LinesCons(codec: Codec, events: seq<LedgerEvent>, rest: Bytes)
    requires events != []
    ensures Lines(codec, events) + rest == Line(codec, events[0]) + (Lines(codec, events[1..]) + rest)
  {
  }

  lemma SplitFirst(before: seq<LedgerEvent>, events: seq<LedgerEvent>)
    requires events != []
    ensures (before + [events[0]]) + events[1..] == before + events
  {
  }

  lemma {:induction false} LinesDecode(codec: Codec, before: seq<LedgerEvent>, events: seq<LedgerEvent>, rest: Bytes)
    requires forall e :: e in events ==> Encodes(codec, e)
    ensures Resume(codec, before, Frames(codec.utf8, Lines(codec, events) + rest)) ==
            Resume(codec, before + events, Frames(codec.utf8, rest))
    decreases events
  {
    if events == [] {
      assert Lines(codec, events) + rest == rest && before + events == before;
    } else {
      var e, tail := events[0], events[1..];
      LinesCons(codec, events, rest);
      LineDecodes(codec, before, e, Lines(codec, tail) + rest);
      LinesDecode(codec, before + [e], tail, rest);
      SplitFirst(before, events);
    }
  }

  /** How much of an event an appended part amounts to: the newline may be missing. */
  function ReachOf(codec: Codec, e: LedgerEvent, part: nat): Reach {
    if part == 0 then Nothing else if part < |codec.encode(e)| then Torn else Whole
  }

  lemma PartDecodes(codec: Codec, events: seq<LedgerEvent>, e: LedgerEvent, part: nat)
    requires Encodes(codec, e) && part <= |Line(codec, e)|
    ensures Resume(codec, events, Frames(codec.utf8, Line(codec, e)[..part])) ==
            Appended(Events(events), e, ReachOf(codec, e, part))
  {
    var bytes, written := codec.encode(e), Line(codec, e)[..part];
    if part == 0 {
      assert events + [] == events;
    } else if part <= |bytes| {
      assert written == bytes[..part];
      assert written[..part] == written;
      FrameIsUnique(written, part, Until(written));
      assert AfterFrame(written) == [];
      assert part == |bytes| ==> written == bytes;
      ResumeStep(codec, events, written, Split([], None));
      assert (events + [e]) + [] == events + [e];
    } else {
      assert written == Line(codec, e) + [];
      LineIsFrame(codec, e, []);
      ResumeStep(codec, events, bytes, Split([], None));
      assert (events + [e]) + [] == events + [e];
    }
  }

  lemma LinesLength(codec: Codec, events: seq<LedgerEvent>)
    requires |events| <= 1 && forall e :: e in events ==> Encodes(codec, e)
    ensures |Lines(codec, events)| <= MAX_FRAME_BYTES + 1
  {
    if events != [] {
      assert Encodes(codec, events[0]) && Lines(codec, events[1..]) == [];
    }
  }

  lemma AppendedFits(codec: Codec, events: seq<LedgerEvent>, e: LedgerEvent, part: nat)
    requires |events| <= 1 && Encodes(codec, e) && forall x :: x in events ==> Encodes(codec, x)
    requires part <= |Line(codec, e)|
    ensures |Lines(codec, events) + Line(codec, e)[..part]| <= MAX_RECORD_BYTES
  {
    LinesLength(codec, events);
  }

  /** A torn append is all or nothing: whatever part of an event's line reaches a record, the
      record reads as before, as unreadable, or with the whole event, and the last exactly
      when at most the newline is missing. */
  lemma TornAppendIsAllOrNothing(codec: Codec, events: seq<LedgerEvent>, e: LedgerEvent, part: nat)
    requires |events| <= 1 && Encodes(codec, e) && forall x :: x in events ==> Encodes(codec, x)
    requires part <= |Line(codec, e)|
    ensures ContentOf(codec, Lines(codec, events) + Line(codec, e)[..part]) ==
            Appended(Events(events), e, ReachOf(codec, e, part))
  {
    var written := Line(codec, e)[..part];
    AppendedFits(codec, events, e, part);
    LinesDecode(codec, [], events, written);
    assert [] + events == events;
    PartDecodes(codec, events, e, part);
  }
}
