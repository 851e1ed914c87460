/**
 * The streaming line decoder behind `processStreamResponse`.
 *
 * Text arrives in chunks that need not end at a line break.  The decoder
 * appends each chunk to a buffer, splits the buffer at `'\n'`, keeps the
 * last (possibly incomplete) piece as the new buffer and handles every
 * complete line after trimming it: blank lines are skipped, the line
 * `data: [DONE]` ends the stream, a line starting with `data: ` yields the
 * parsed rest of the line as a frame when it parses and is skipped when it
 * does not, and any other line is skipped.  This is a reduced form of the
 * Server-Sent Events format of the WHATWG HTML Living Standard (section
 * 9.2): lines are trimmed, the space after `data:` is required, and
 * `event:`/`id:` fields are not interpreted.
 *
 * JSON parsing is the parameter `parse`, returning `None` where
 * `JSON.parse` would throw.
 */
module StreamDecoder {
  import opened Wrappers
  import opened Text
  import opened Errors

  const DoneLine := "data: [DONE]"
  const DataPrefix := "data: "

  /** What one complete line means to the decoder. */
  datatype Line<F> = Blank | Done | Frame(frame: F) | Malformed | Unknown

  /** The meaning of a complete line, after trimming it. */
  function ClassifyLine<F>(line: string, parse: string -> Option<F>): Line<F> {
    var t := Trim(line);
    if t == "" then Blank
    else if t == DoneLine then Done
    else if StartsWith(t, DataPrefix) then
      match parse(t[|DataPrefix|..])
      case Some(f) => Frame(f)
      case None => Malformed
    else Unknown
  }

  /** Frames produced so far, and whether the `[DONE]` line was reached. */
  datatype Decoded<F> = Decoded(frames: seq<F>, sawDone: bool)

  /** `d` preceded by the frames `fs`. */
  function Prepend<F>(fs: seq<F>, d: Decoded<F>): Decoded<F> {
    Decoded(fs + d.frames, d.sawDone)
  }

  lemma PrependTwice<F>(a: seq<F>, b: seq<F>, d: Decoded<F>)
    ensures Prepend(a, Prepend(b, d)) == Prepend(a + b, d)
  {
    assert a + (b + d.frames) == (a + b) + d.frames;
  }

  /** How one classified line changes what the lines after it produce. */
  function Absorb<F>(line: Line<F>, rest: Decoded<F>): Decoded<F> {
    match line
    case Done => Decoded([], true)
    case Frame(f) => Prepend([f], rest)
    case _ => rest
  }

  /** The inner `for` loop over complete lines; it returns at the `[DONE]` line. */
  function ProcessLines<F>(lines: seq<string>, parse: string -> Option<F>): Decoded<F>
    decreases |lines|
  {
    if |lines| == 0 then Decoded([], false)
    else Absorb(ClassifyLine(lines[0], parse), ProcessLines(lines[1..], parse))
  }

  /**
   * One chunk arriving: the complete lines of `buffer + chunk` are handled
   * and the text after the last line break becomes the new buffer.
   */
  function FeedChunk<F>(buffer: string, chunk: string, parse: string -> Option<F>): (r: (string, Decoded<F>))
    ensures '\n' !in r.0
  {
    var lines := Split(buffer + chunk, '\n');
    (Last(lines), ProcessLines(Init(lines), parse))
  }

  /** What the remaining chunks produce when the buffer holds `buffer`. */
  function DecodeFrom<F>(buffer: string, chunks: seq<string>, parse: string -> Option<F>): Decoded<F>
    decreases |chunks|
  {
    if |chunks| == 0 then Decoded([], false)
    else
      var (buffer', d) := FeedChunk(buffer, chunks[0], parse);
      if d.sawDone then d
      else Prepend(d.frames, DecodeFrom(buffer', chunks[1..], parse))
  }

  /** What a whole stream of chunks produces, starting from an empty buffer. */
  function Decode<F>(chunks: seq<string>, parse: string -> Option<F>): Decoded<F> {
    DecodeFrom("", chunks, parse)
  }

  /** What a whole text produces: its complete lines, handled in one go. */
  function DecodeText<F>(text: string, parse: string -> Option<F>): Decoded<F> {
    ProcessLines(Init(Split(text, '\n')), parse)
  }

  // ---------------------------------------------------------------------------
  // The generator and its consumer
  // ---------------------------------------------------------------------------

  /**
   * A response body as its reader delivers it: the text chunks read, in
   * order, and, when the stream breaks (a connection reset, say), the error
   * the next read rejects with.  `broken == None` means that read reports
   * the end of the stream.
   */
  datatype Body = Body(chunks: seq<string>, broken: Option<Raised>)

  /**
   * The generator reaches the read after the last chunk: no `[DONE]` line
   * came and the consumer still wants frames.
   */
  predicate ReadsPastChunks<F>(chunks: seq<string>, parse: string -> Option<F>, limit: Option<nat>) {
    var d := Decode(chunks, parse);
    !d.sawDone && (limit.None? || |d.frames| < limit.value)
  }

  /** The operations performed on the body's reader, in order. */
  datatype ReaderOp = GetReader | Read | ReleaseLock

  /** At most `limit` elements of `s`, from the front. */
  function Take<F>(s: seq<F>, limit: Option<nat>): seq<F> {
    if limit.Some? && limit.value < |s| then s[..limit.value] else s
  }

  function Reads(n: nat): seq<ReaderOp> {
    seq(n, _ => Read)
  }

  /**
   * `processStreamResponse` driven by a consumer that stops after `limit`
   * frames (`None`: it reads to the end).  `yielded` are the frames the
   * consumer receives, and `r` is how the generator ends for it: with all
   * of them, or with the error a read rejects with.  Like the async
   * generator, nothing runs before the consumer asks for the first frame,
   * so a consumer that wants none never touches the body.  Once the reader
   * is taken it is released on every way out: end of input, the `[DONE]`
   * line, the consumer stopping, or a read that fails.
   */
  method ProcessStream<F>(body: Option<Body>, parse: string -> Option<F>, limit: Option<nat>)
    returns (r: Result<seq<F>, Raised>, yielded: seq<F>, ops: seq<ReaderOp>)
    ensures r.Success? ==> r.value == yielded
    ensures limit == Some(0) ==> r == Success([]) && ops == []
    ensures limit != Some(0) && body.None? ==>
              r == Failure(Native("Error", "No response body for streaming")) && yielded == [] && ops == []
    ensures limit != Some(0) && body.Some? ==>
              && yielded == Take(Decode(body.value.chunks, parse).frames, limit)
              && (r.Failure? <==> body.value.broken.Some? && ReadsPastChunks(body.value.chunks, parse, limit))
              && (r.Failure? ==> r.error == body.value.broken.value)
              && |ops| >= 3 && ops[0] == GetReader && ops[|ops| - 1] == ReleaseLock
              && (forall i :: 0 < i < |ops| - 1 ==> ops[i] == Read)
    ensures limit.None? && body.Some? && !Decode(body.value.chunks, parse).sawDone ==>
              |ops| == |body.value.chunks| + 3
  {
    if limit == Some(0) {
      return Success([]), [], [];
    }
    if body.None? {
      return Failure(Native("Error", "No response body for streaming")), [], [];
    }
    var chunks := body.value.chunks;
    ops := [GetReader];
    var buffer := "";
    var out: seq<F> := [];
    var k := 0;
    while k < |chunks|
      invariant 0 <= k <= |chunks|
      invariant ops == [GetReader] + Reads(k)
      invariant '\n' !in buffer
      invariant Decode(chunks, parse) == Prepend(out, DecodeFrom(buffer, chunks[k..], parse))
      invariant limit.Some? ==> |out| < limit.value
    {
      ops := ops + [Read];
      var lines := Split(buffer + chunks[k], '\n');
      ghost var d := ProcessLines(Init(lines), parse);
      ghost var later := DecodeFrom(Last(lines), chunks[k + 1..], parse);
      assert chunks[k..][0] == chunks[k] && chunks[k..][1..] == chunks[k + 1..];
      assert DecodeFrom(buffer, chunks[k..], parse) == if d.sawDone then d else Prepend(d.frames, later);
      var out', stop := HandleLines(Init(lines), parse, out, limit);
      if stop {
        ops := ops + [ReleaseLock];
        yielded := out';
        r := Success(out');
        StoppedEarly(Decode(chunks, parse), out, d, later, out', limit);
        return;
      }
      PrependTwice(out, d.frames, later);
      out := out';
      buffer := Last(lines);
      k := k + 1;
    }
    assert chunks[k..] == [];
    assert DecodeFrom(buffer, chunks[k..], parse) == Decoded([], false);
    assert Decode(chunks, parse).frames == out + [];
    assert out + [] == out;
    ops := ops + [Read, ReleaseLock];
    yielded := out;
    r := if body.value.broken.Some? then Failure(body.value.broken.value) else Success(out);
  }

  /**
   * When the line loop stops within a chunk, the consumer holds exactly the
   * frames it wants of the whole stream, and the generator never reads past
   * that chunk: the stream had its `[DONE]` line or the consumer its limit.
   */
  lemma StoppedEarly<F>(whole: Decoded<F>, out: seq<F>, d: Decoded<F>, later: Decoded<F>,
                        out': seq<F>, limit: Option<nat>)
    requires whole == Prepend(out, if d.sawDone then d else Prepend(d.frames, later))
    requires || (d.sawDone && out' == out + d.frames && (limit.Some? ==> |out'| < limit.value))
             || (limit.Some? && |out'| == limit.value && out' <= out + d.frames)
    ensures Take(whole.frames, limit) == out'
    ensures whole.sawDone || (limit.Some? && |whole.frames| >= limit.value)
  {
    if d.sawDone && out' == out + d.frames {
      assert whole.frames == out';
    } else {
      PrependTwice(out, d.frames, later);
      assert out' <= whole.frames;
      assert whole.frames[..|out'|] == out';
    }
  }

  /**
   * The inner loop over the complete lines of one chunk, appending frames
   * to `out`.  It stops early at the `[DONE]` line, or when the consumer
   * has the `limit` frames it wants; otherwise it handles every line.
   */
  method HandleLines<F>(lines: seq<string>, parse: string -> Option<F>, out: seq<F>, limit: Option<nat>)
    returns (out': seq<F>, stop: bool)
    requires limit.Some? ==> |out| < limit.value
    ensures var d := ProcessLines(lines, parse);
            if !stop then
              out' == out + d.frames && !d.sawDone && (limit.Some? ==> |out'| < limit.value)
            else
              || (d.sawDone && out' == out + d.frames && (limit.Some? ==> |out'| < limit.value))
              || (limit.Some? && |out'| == limit.value && out' <= out + d.frames)
  {
    out' := out;
    var j := 0;
    while j < |lines|
      invariant 0 <= j <= |lines|
      invariant |out| <= |out'| && out'[..|out|] == out
      invariant ProcessLines(lines, parse) == Prepend(out'[|out|..], ProcessLines(lines[j..], parse))
      invariant limit.Some? ==> |out'| < limit.value
    {
      var rest := ProcessLines(lines[j + 1..], parse);
      var c := ClassifyLine(lines[j], parse);
      assert lines[j..][0] == lines[j] && lines[j..][1..] == lines[j + 1..];
      assert ProcessLines(lines[j..], parse) == Absorb(c, rest);
      if c.Done? {
        assert out' == out + out'[|out|..];
        return out', true;
      } else if c.Frame? {
        PrependTwice(out'[|out|..], [c.frame], rest);
        assert (out' + [c.frame])[|out|..] == out'[|out|..] + [c.frame];
        out' := out' + [c.frame];
        if limit.Some? && |out'| == limit.value {
          assert out' == out + out'[|out|..];
          return out', true;
        }
      }
      j := j + 1;
    }
    assert out' == out + out'[|out|..];
    stop := false;
  }
}
