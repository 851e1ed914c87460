/**
 * Properties of the streaming line decoder: the frames do not depend on
 * where the chunk boundaries fall, nothing after the `[DONE]` line is
 * produced, an unterminated last line is never produced, skipped lines
 * change nothing, and the frames are exactly the parsable data lines before
 * the first `[DONE]`, in line order.
 */
module StreamProperties {
  import opened Wrappers
  import opened Text
  import opened StreamDecoder

  // ---------------------------------------------------------------------------
  // A reference definition: frames of data lines before the first [DONE]
  // ---------------------------------------------------------------------------

  /** The frame one line contributes on its own: one for a parsable data line, none otherwise. */
  function LineFrames<F>(line: string, parse: string -> Option<F>): seq<F> {
    match ClassifyLine(line, parse)
    case Frame(f) => [f]
    case _ => []
  }

  /** The frames of all the lines, ignoring `[DONE]`. */
  function FramesOf<F>(lines: seq<string>, parse: string -> Option<F>): seq<F>
    decreases |lines|
  {
    if |lines| == 0 then [] else LineFrames(lines[0], parse) + FramesOf(lines[1..], parse)
  }

  /** The index of the first `[DONE]` line, or `|lines|` when there is none. */
  function FirstDone<F>(lines: seq<string>, parse: string -> Option<F>): (n: nat)
    ensures n <= |lines|
    ensures n < |lines| ==> ClassifyLine(lines[n], parse).Done?
    ensures forall i :: 0 <= i < n ==> !ClassifyLine(lines[i], parse).Done?
    decreases |lines|
  {
    if |lines| == 0 then 0
    else if ClassifyLine(lines[0], parse).Done? then 0
    else 1 + FirstDone(lines[1..], parse)
  }

  /**
   * The line loop produces exactly the frames of the lines before the first
   * `[DONE]`, and reports `[DONE]` exactly when there is one.
   */
  lemma {:induction false} ProcessLinesIsFramesBeforeDone<F>(lines: seq<string>, parse: string -> Option<F>)
    ensures ProcessLines(lines, parse)
         == Decoded(FramesOf(lines[..FirstDone(lines, parse)], parse), FirstDone(lines, parse) < |lines|)
    decreases |lines|
  {
    if |lines| > 0 {
      var n := FirstDone(lines, parse);
      if !ClassifyLine(lines[0], parse).Done? {
        ProcessLinesIsFramesBeforeDone(lines[1..], parse);
        assert lines[..n][0] == lines[0];
        assert lines[..n][1..] == lines[1..][..n - 1];
      }
    }
  }

  /** Frames keep line order: the frames of two runs of lines are those of the first, then the second. */
  lemma {:induction false} FramesOfAppend<F>(a: seq<string>, b: seq<string>, parse: string -> Option<F>)
    ensures FramesOf(a + b, parse) == FramesOf(a, parse) + FramesOf(b, parse)
    decreases |a|
  {
    if |a| == 0 {
      assert a + b == b;
    } else {
      assert (a + b)[0] == a[0];
      assert (a + b)[1..] == a[1..] + b;
      FramesOfAppend(a[1..], b, parse);
    }
  }

  /** A frame is produced exactly when some line is a data line whose payload parses to it. */
  lemma {:induction false} FrameOrigin<F>(lines: seq<string>, parse: string -> Option<F>, f: F)
    ensures f in FramesOf(lines, parse)
        <==> exists i :: 0 <= i < |lines| && ClassifyLine(lines[i], parse) == Frame(f)
    decreases |lines|
  {
    if |lines| > 0 {
      FrameOrigin(lines[1..], parse, f);
      if f in FramesOf(lines[1..], parse) {
        var i :| 0 <= i < |lines[1..]| && ClassifyLine(lines[1..][i], parse) == Frame(f);
        assert ClassifyLine(lines[i + 1], parse) == Frame(f);
      }
      if exists i :: 0 <= i < |lines| && ClassifyLine(lines[i], parse) == Frame(f) {
        var i :| 0 <= i < |lines| && ClassifyLine(lines[i], parse) == Frame(f);
        if i > 0 {
          assert lines[1..][i - 1] == lines[i];
        }
      }
    }
  }

  // ---------------------------------------------------------------------------
  // One line
  // ---------------------------------------------------------------------------

  /**
   * What each kind of line is: a blank line trims to nothing, the `[DONE]`
   * line trims to `data: [DONE]`, a data line is any other line whose
   * trimmed form starts with `data: `, and it is a frame exactly when its
   * payload parses; every other line is unknown.
   */
  lemma LineClassification<F>(line: string, parse: string -> Option<F>)
    ensures var l := ClassifyLine(line, parse);
            && (l.Blank? <==> Trim(line) == "")
            && (l.Done? <==> Trim(line) == DoneLine)
            && (l.Frame? || l.Malformed? <==> Trim(line) != DoneLine && StartsWith(Trim(line), DataPrefix))
            && (l.Frame? ==> parse(Trim(line)[|DataPrefix|..]) == Some(l.frame))
            && (l.Malformed? ==> parse(Trim(line)[|DataPrefix|..]).None?)
  {
  }

  /** Whitespace around a line is ignored: a line means what its trimmed form means. */
  lemma SurroundingWhitespaceIgnored<F>(line: string, parse: string -> Option<F>)
    ensures ClassifyLine(Trim(line), parse) == ClassifyLine(line, parse)
  {
    TrimSpec(line);
    TrimOfTrimmed(Trim(line));
  }

  /**
   * A line `data: <payload>` whose payload does not end in whitespace and is
   * not `[DONE]` yields the parsed payload, or is skipped when the payload
   * does not parse.
   */
  lemma DataLineClassification<F>(payload: string, parse: string -> Option<F>)
    requires payload != "" && !IsWhitespace(payload[|payload| - 1])
    requires payload != "[DONE]"
    ensures ClassifyLine(DataPrefix + payload, parse)
         == match parse(payload) case Some(f) => Frame(f) case None => Malformed
  {
    var line := DataPrefix + payload;
    assert line[0] == 'd' && line[|line| - 1] == payload[|payload| - 1];
    TrimOfTrimmed(line);
    assert line[..|DataPrefix|] == DataPrefix;
    assert line[|DataPrefix|..] == payload;
    assert DoneLine[|DataPrefix|..] == "[DONE]";
  }

  // ---------------------------------------------------------------------------
  // The line loop
  // ---------------------------------------------------------------------------

  /** Handling two runs of lines: the second is reached only when the first has no `[DONE]`. */
  lemma {:induction false} ProcessLinesAppend<F>(a: seq<string>, b: seq<string>, parse: string -> Option<F>)
    ensures ProcessLines(a + b, parse)
         == if ProcessLines(a, parse).sawDone then ProcessLines(a, parse)
            else Prepend(ProcessLines(a, parse).frames, ProcessLines(b, parse))
    decreases |a|
  {
    if |a| == 0 {
      assert a + b == b;
    } else {
      assert (a + b)[0] == a[0];
      assert (a + b)[1..] == a[1..] + b;
      ProcessLinesAppend(a[1..], b, parse);
      var c := ClassifyLine(a[0], parse);
      if c.Frame? && !ProcessLines(a[1..], parse).sawDone {
        PrependTwice([c.frame], ProcessLines(a[1..], parse).frames, ProcessLines(b, parse));
      }
    }
  }

  /** A blank, unparsable or unknown line is skipped: removing it changes nothing. */
  lemma SkippedLineChangesNothing<F>(before: seq<string>, line: string, after: seq<string>,
                                     parse: string -> Option<F>)
    requires ClassifyLine(line, parse).Blank? || ClassifyLine(line, parse).Malformed?
          || ClassifyLine(line, parse).Unknown?
    ensures ProcessLines(before + [line] + after, parse) == ProcessLines(before + after, parse)
  {
    assert before + [line] + after == before + ([line] + after);
    ProcessLinesAppend(before, [line] + after, parse);
    ProcessLinesAppend(before, after, parse);
    assert ([line] + after)[0] == line && ([line] + after)[1..] == after;
  }

  // ---------------------------------------------------------------------------
  // Chunks
  // ---------------------------------------------------------------------------

  lemma InitAppend<T>(a: seq<T>, b: seq<T>)
    requires |b| > 0
    ensures Init(a + b) == a + Init(b)
  {
  }

  /**
   * The complete lines of `x + y`: those of `x`, then those of the last
   * fragment of `x` joined to `y`.
   */
  lemma CompleteLinesCarry(x: string, y: string)
    ensures Init(Split(x + y, '\n'))
         == Init(Split(x, '\n')) + Init(Split(Last(Split(x, '\n')) + y, '\n'))
  {
    SplitCarry(x, y, '\n');
    InitAppend(Init(Split(x, '\n')), Split(Last(Split(x, '\n')) + y, '\n'));
  }

  /**
   * Decoding the remaining chunks from a buffer without a line break is
   * decoding the buffer and those chunks as one text.
   */
  lemma {:induction false} DecodeFromIsDecodeText<F>(buffer: string, chunks: seq<string>, parse: string -> Option<F>)
    requires '\n' !in buffer
    ensures DecodeFrom(buffer, chunks, parse) == DecodeText(buffer + Concat(chunks), parse)
    decreases |chunks|
  {
    if |chunks| == 0 {
      SplitWithoutSeparator(buffer, '\n');
      assert buffer + Concat(chunks) == buffer;
    } else {
      var c := chunks[0];
      var rest := Concat(chunks[1..]);
      var lines := Split(buffer + c, '\n');
      var buffer' := Last(lines);
      assert buffer + Concat(chunks) == (buffer + c) + rest;
      CompleteLinesCarry(buffer + c, rest);
      ProcessLinesAppend(Init(lines), Init(Split(buffer' + rest, '\n')), parse);
      DecodeFromIsDecodeText(buffer', chunks[1..], parse);
    }
  }

  /** The decoder over chunks is the decoder over their concatenation. */
  lemma DecodeIsDecodeText<F>(chunks: seq<string>, parse: string -> Option<F>)
    ensures Decode(chunks, parse) == DecodeText(Concat(chunks), parse)
  {
    DecodeFromIsDecodeText("", chunks, parse);
    assert "" + Concat(chunks) == Concat(chunks);
  }

  /**
   * Chunk-boundary independence: two deliveries of the same text, however
   * it was cut into chunks, produce the same frames and the same ending.
   */
  lemma ChunkBoundaryIndependence<F>(c1: seq<string>, c2: seq<string>, parse: string -> Option<F>)
    requires Concat(c1) == Concat(c2)
    ensures Decode(c1, parse) == Decode(c2, parse)
  {
    DecodeIsDecodeText(c1, parse);
    DecodeIsDecodeText(c2, parse);
  }

  /** Decoding chunks c1..cn is decoding the single chunk c1 + ... + cn. */
  lemma SameAsOneChunk<F>(chunks: seq<string>, parse: string -> Option<F>)
    ensures Decode(chunks, parse) == Decode([Concat(chunks)], parse)
  {
    assert Concat([Concat(chunks)]) == Concat(chunks) + Concat([]);
    ChunkBoundaryIndependence(chunks, [Concat(chunks)], parse);
  }

  /**
   * The whole decoder against the reference: the frames are those of the
   * complete lines of the text before the first `[DONE]`, and the stream
   * ends on `[DONE]` exactly when a complete line is `[DONE]`.
   */
  lemma DecodeMatchesReference<F>(chunks: seq<string>, parse: string -> Option<F>)
    ensures var lines := Init(Split(Concat(chunks), '\n'));
            var n := FirstDone(lines, parse);
            Decode(chunks, parse) == Decoded(FramesOf(lines[..n], parse), n < |lines|)
  {
    DecodeIsDecodeText(chunks, parse);
    ProcessLinesIsFramesBeforeDone(Init(Split(Concat(chunks), '\n')), parse);
  }

  /** Once `[DONE]` is seen, nothing that arrives afterwards changes the result. */
  lemma DoneCutsOff<F>(chunks: seq<string>, more: seq<string>, parse: string -> Option<F>)
    requires Decode(chunks, parse).sawDone
    ensures Decode(chunks + more, parse) == Decode(chunks, parse)
  {
    var text := Concat(chunks);
    ConcatAppend(chunks, more);
    DecodeIsDecodeText(chunks, parse);
    DecodeIsDecodeText(chunks + more, parse);
    CompleteLinesCarry(text, Concat(more));
    var tail := Init(Split(Last(Split(text, '\n')) + Concat(more), '\n'));
    ProcessLinesAppend(Init(Split(text, '\n')), tail, parse);
  }

  /**
   * At end of input a trailing fragment without a line break is dropped:
   * adding it changes neither the frames nor the ending.
   */
  lemma TrailingFragmentNeverYielded<F>(chunks: seq<string>, tail: string, parse: string -> Option<F>)
    requires '\n' !in tail
    ensures Decode(chunks + [tail], parse) == Decode(chunks, parse)
  {
    var text := Concat(chunks);
    ConcatAppend(chunks, [tail]);
    assert [tail][1..] == [];
    assert Concat([tail]) == tail;
    assert Concat(chunks + [tail]) == text + tail;
    DecodeIsDecodeText(chunks, parse);
    DecodeIsDecodeText(chunks + [tail], parse);
    SplitExtendLast(text, tail, '\n');
    assert Init(Split(text + tail, '\n')) == Init(Split(text, '\n'));
  }
}
