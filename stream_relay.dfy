/** The relay of a streamed generation: bytes arrive in chunks, are buffered,
    split on the first line feed, and every non-blank line that decodes to a
    chunk with a `response` field has that token appended to the reply and
    sent to the client. A `done` flag leaves only the inner line loop, so
    complete lines may stay in the buffer until the next chunk arrives. */
module StreamRelay {
  import opened Wrappers
  import opened Text

  newtype byte = x: int | 0 <= x < 256

  type Bytes = seq<byte>

  const Newline: byte := 10

  /** The bytes `bytes.strip()` removes: space, tab, line feed, vertical
      tab, form feed and carriage return. */
  predicate IsSpaceByte(b: byte) {
    b == 32 || 9 <= b <= 13
  }

  /** `not line.strip()`. */
  predicate Blank(line: Bytes) {
    forall k :: 0 <= k < |line| ==> IsSpaceByte(line[k])
  }

  /** A decoded line of the stream: the `response` field when present, and
      the `done` flag (`get("done", False)`). */
  datatype GenChunk = GenChunk(response: Option<string>, done: bool)

  /** `json.loads` on one line: `None` when the line does not parse. */
  type Decoder = Bytes -> Option<GenChunk>

  /** The token one line contributes, if any. */
  function TokenOf(decode: Decoder, line: Bytes): (t: Option<string>)
    ensures t.Some? <==> !Blank(line) && decode(line).Some? && decode(line).value.response.Some?
    ensures t.Some? ==> t.value == decode(line).value.response.value
  {
    if Blank(line) then None
    else match decode(line)
      case Some(c) => c.response
      case None => None
  }

  /** A line whose token is sent and whose `done` flag ends the line loop. */
  predicate Stops(decode: Decoder, line: Bytes) {
    TokenOf(decode, line).Some? && decode(line).value.done
  }

  predicate NoStop(decode: Decoder, lines: seq<Bytes>) {
    forall k :: 0 <= k < |lines| ==> !Stops(decode, lines[k])
  }

  /** The tokens of a sequence of lines, in order. */
  function Tokens(decode: Decoder, lines: seq<Bytes>): seq<string>
  {
    if lines == [] then []
    else
      var t := TokenOf(decode, lines[|lines| - 1]);
      Tokens(decode, lines[..|lines| - 1]) + (if t.Some? then [t.value] else [])
  }

  /** All chunks in arrival order. */
  function Flatten(chunks: seq<Bytes>): Bytes
  {
    if chunks == [] then [] else Flatten(chunks[..|chunks| - 1]) + chunks[|chunks| - 1]
  }

  /** Lines, each followed by its line feed. */
  function Framed(lines: seq<Bytes>): Bytes
  {
    if lines == [] then [] else Framed(lines[..|lines| - 1]) + lines[|lines| - 1] + [Newline]
  }

  predicate NoNewlines(lines: seq<Bytes>) {
    forall k :: 0 <= k < |lines| ==> Newline !in lines[k]
  }

  /** Position of the first `b` in `s`. */
  function IndexOf(s: Bytes, b: byte): (j: nat)
    requires b in s
    ensures j < |s| && s[j] == b && b !in s[..j]
  {
    if s[0] == b then 0
    else
      var j := IndexOf(s[1..], b);
      assert s[1..][..j] == s[1..j + 1];
      j + 1
  }

  /** What one pass of the inner line loop takes off `buffer`, and what
      stays: lines are taken at the first line feed, one by one, until none
      is left or a line whose token carries `done` has been taken. */
  function Drain(decode: Decoder, buffer: Bytes): (seq<Bytes>, Bytes)
    decreases |buffer|
  {
    if Newline !in buffer then ([], buffer)
    else
      var j := IndexOf(buffer, Newline);
      var line := buffer[..j];
      if Stops(decode, line) then ([line], buffer[j + 1..])
      else
        var d := Drain(decode, buffer[j + 1..]);
        ([line] + d.0, d.1)
  }

  /** The lines the relay takes and the buffer it keeps after the given
      chunks: each chunk is appended to the buffer, which is then drained. */
  function RelayLines(decode: Decoder, chunks: seq<Bytes>): (seq<Bytes>, Bytes)
  {
    if chunks == [] then ([], [])
    else
      var before := RelayLines(decode, chunks[..|chunks| - 1]);
      var d := Drain(decode, before.1 + chunks[|chunks| - 1]);
      (before.0 + d.0, d.1)
  }

  /** A pass stops at the first line carrying `done`: of two complete lines
      of which the first carries `done`, only the first is taken, and the
      second stays buffered with its line feed. */
  lemma DrainStopsAtDone(decode: Decoder, first: Bytes, second: Bytes)
    requires Newline !in first && Stops(decode, first)
    ensures Drain(decode, first + [Newline] + second + [Newline]) == ([first], second + [Newline])
  {
    var b := first + [Newline] + second + [Newline];
    var j := IndexOf(b, Newline);
    assert b[|first|] == Newline;
    assert b[..|first|] == first;
    assert j == |first|;
    assert b[j + 1..] == second + [Newline];
  }

  /** A single chunk holding a line carrying `done` and one more line: the
      relay takes only the first, so the reply is that line's token, and
      keeps the second buffered. */
  lemma RelayStopsAtDone(decode: Decoder, first: Bytes, second: Bytes)
    requires Newline !in first && Stops(decode, first)
    ensures var r := RelayLines(decode, [first + [Newline] + second + [Newline]]);
      && r == ([first], second + [Newline])
      && Concat(Tokens(decode, r.0)) == TokenOf(decode, first).value
  {
    var b := first + [Newline] + second + [Newline];
    var chunks := [b];
    assert chunks[..0] == [];
    assert RelayLines(decode, chunks[..0]) == ([], []);
    assert [] + b == b;
    DrainStopsAtDone(decode, first, second);
    assert RelayLines(decode, chunks) == ([] + [first], second + [Newline]);
    assert [] + [first] == [first];
    assert [first][..0] == [];
  }

  /** The relay loop. `sent` is the sequence of tokens sent to the client and
      `lines` the lines taken off the buffer, in order. The reply is the
      concatenation of the tokens sent; the tokens are exactly those of the
      lines consumed (blank and undecodable lines give none); the lines
      consumed followed by the buffer are exactly the bytes received; and
      unless some consumed line carried `done`, the buffer holds no line
      feed; when it still holds one, the last line consumed carried `done`. */
  method Relay(chunks: seq<Bytes>, decode: Decoder)
    returns (full: string, sent: seq<string>, buffer: Bytes, ghost lines: seq<Bytes>)
    ensures full == Concat(sent)
    ensures sent == Tokens(decode, lines)
    ensures Flatten(chunks) == Framed(lines) + buffer
    ensures NoNewlines(lines)
    ensures NoStop(decode, lines) ==> Newline !in buffer
    ensures Newline in buffer ==> lines != [] && Stops(decode, lines[|lines| - 1])
    ensures (lines, buffer) == RelayLines(decode, chunks)
  {
    full, sent, buffer, lines := "", [], [], [];
    for i := 0 to |chunks|
      invariant full == Concat(sent)
      invariant sent == Tokens(decode, lines)
      invariant lines == RelayLines(decode, chunks[..i]).0 && buffer == RelayLines(decode, chunks[..i]).1
    {
      RelayLinesFramed(decode, chunks[..i]);
      ghost var before, kept := lines, buffer;
      full, sent, buffer, lines := DrainLines(Framed(lines) + buffer + chunks[i], decode, full, sent, buffer + chunks[i], lines);
      RelayLinesStep(decode, chunks, i, before, kept, lines, buffer);
    }
    assert chunks[..|chunks|] == chunks;
    RelayLinesFramed(decode, chunks);
    RelayLinesStop(decode, chunks);
  }

  /** The relay's lines, each with its line feed, followed by its buffer
      are the bytes received, and no line holds a line feed. */
  lemma {:induction false} RelayLinesFramed(decode: Decoder, chunks: seq<Bytes>)
    ensures var r := RelayLines(decode, chunks);
      Flatten(chunks) == Framed(r.0) + r.1 && NoNewlines(r.0)
    decreases |chunks|
  {
    if chunks != [] {
      var prev := chunks[..|chunks| - 1];
      RelayLinesFramed(decode, prev);
      var r := RelayLines(decode, prev);
      DrainFramed(decode, r.0, r.1 + chunks[|chunks| - 1]);
    }
  }

  /** A line feed is left in the relay's buffer only after a line carrying
      `done`, which is then the last line taken. */
  lemma RelayLinesStop(decode: Decoder, chunks: seq<Bytes>)
    ensures var r := RelayLines(decode, chunks);
      && (NoStop(decode, r.0) ==> Newline !in r.1)
      && (Newline in r.1 ==> r.0 != [] && Stops(decode, r.0[|r.0| - 1]))
  {
    if chunks != [] {
      var r := RelayLines(decode, chunks[..|chunks| - 1]);
      var d := Drain(decode, r.1 + chunks[|chunks| - 1]);
      DrainFacts(decode, r.1 + chunks[|chunks| - 1]);
      NoStopSuffix(decode, r.0, d.0);
    }
  }

  /** No line carrying `done` among some lines, then none among their last ones. */
  lemma NoStopSuffix(decode: Decoder, front: seq<Bytes>, back: seq<Bytes>)
    ensures NoStop(decode, front + back) ==> NoStop(decode, back)
  {
    if NoStop(decode, front + back) {
      forall k | 0 <= k < |back| ensures !Stops(decode, back[k]) {
        assert back[k] == (front + back)[|front| + k];
      }
    }
  }

  /** A pass over a buffer: the lines taken, each with its line feed,
      followed by what stays are the buffer, and no line taken holds a
      line feed. */
  lemma {:induction false} DrainFramed(decode: Decoder, lines0: seq<Bytes>, buffer: Bytes)
    requires NoNewlines(lines0)
    ensures var d := Drain(decode, buffer);
      && Framed(lines0 + d.0) + d.1 == Framed(lines0) + buffer
      && NoNewlines(lines0 + d.0)
    decreases |buffer|
  {
    if Newline !in buffer {
      assert lines0 + [] == lines0;
    } else {
      var j := IndexOf(buffer, Newline);
      var line, rest := buffer[..j], buffer[j + 1..];
      DrainNext(decode, buffer, j);
      TakeLine(Framed(lines0) + buffer, lines0, buffer, j);
      NoNewlinesSnoc(lines0, line);
      if !Stops(decode, line) {
        DrainFramed(decode, lines0 + [line], rest);
        var e := Drain(decode, rest);
        FramedRegroup(lines0, line, e.0, e.1, Framed(lines0) + buffer);
      }
    }
  }

  /** One more line free of line feeds. */
  lemma NoNewlinesSnoc(lines: seq<Bytes>, line: Bytes)
    requires NoNewlines(lines) && Newline !in line
    ensures NoNewlines(lines + [line])
  {
    forall k | 0 <= k < |lines| + 1 ensures Newline !in (lines + [line])[k] {
      if k < |lines| { assert (lines + [line])[k] == lines[k]; }
    }
  }

  /** Regrouping the lines of a pass after its first one. */
  lemma FramedRegroup(lines0: seq<Bytes>, line: Bytes, later: seq<Bytes>, tail: Bytes, all: Bytes)
    requires Framed((lines0 + [line]) + later) + tail == all
    requires NoNewlines((lines0 + [line]) + later)
    ensures Framed(lines0 + ([line] + later)) + tail == all
    ensures NoNewlines(lines0 + ([line] + later))
  {
    assert lines0 + ([line] + later) == (lines0 + [line]) + later;
  }

  /** The relay's lines after one more chunk. */
  lemma RelayLinesStep(decode: Decoder, chunks: seq<Bytes>, i: nat, before: seq<Bytes>, kept: Bytes,
                        lines: seq<Bytes>, buffer: Bytes)
    requires i < |chunks|
    requires before == RelayLines(decode, chunks[..i]).0 && kept == RelayLines(decode, chunks[..i]).1
    requires lines == before + Drain(decode, kept + chunks[i]).0 && buffer == Drain(decode, kept + chunks[i]).1
    ensures lines == RelayLines(decode, chunks[..i + 1]).0 && buffer == RelayLines(decode, chunks[..i + 1]).1
  {
    assert chunks[..i + 1][..i] == chunks[..i];
  }

  /** The inner loop of the relay: takes complete lines off the buffer,
      appending each one's token, until no line feed is left or a line with
      a token carries `done`. The lines taken extend those before, and what
      was received stays the framed lines followed by the buffer. A line
      feed is left in the buffer only when this call took a line and the
      last line it took carried `done`. */
  method DrainLines(ghost received: Bytes, decode: Decoder, full0: string, sent0: seq<string>,
                    buffer0: Bytes, ghost lines0: seq<Bytes>)
    returns (full: string, sent: seq<string>, buffer: Bytes, ghost lines: seq<Bytes>)
    requires full0 == Concat(sent0) && sent0 == Tokens(decode, lines0)
    requires received == Framed(lines0) + buffer0 && NoNewlines(lines0)
    ensures full == Concat(sent) && sent == Tokens(decode, lines)
    ensures received == Framed(lines) + buffer && NoNewlines(lines)
    ensures |lines0| <= |lines| && lines[..|lines0|] == lines0
    ensures NoStop(decode, lines) ==> Newline !in buffer
    ensures Newline in buffer ==> |lines| > |lines0| && Stops(decode, lines[|lines| - 1])
    ensures forall k :: |lines0| <= k < |lines| - 1 ==> !Stops(decode, lines[k])
    ensures lines == lines0 + Drain(decode, buffer0).0 && buffer == Drain(decode, buffer0).1
  {
    full, sent, buffer, lines := full0, sent0, buffer0, lines0;
    while Newline in buffer
      invariant full == Concat(sent) && sent == Tokens(decode, lines)
      invariant received == Framed(lines) + buffer && NoNewlines(lines)
      invariant |lines0| <= |lines| && lines[..|lines0|] == lines0
      invariant lines0 + Drain(decode, buffer0).0 == lines + Drain(decode, buffer).0
      invariant Drain(decode, buffer0).1 == Drain(decode, buffer).1
      decreases |buffer|
    {
      var j := IndexOf(buffer, Newline);
      var line := buffer[..j];
      TakeLine(received, lines, buffer, j);
      TokensStep(decode, lines, line);
      DrainNext(decode, buffer, j);
      if !Stops(decode, line) {
        DrainInvariantStep(lines0 + Drain(decode, buffer0).0, lines, line, Drain(decode, buffer[j + 1..]).0);
      }
      buffer := buffer[j + 1..];
      lines := lines + [line];
      if !Blank(line) {
        match decode(line)
        case Some(c) =>
          if c.response.Some? {
            var token := c.response.value;
            ConcatSnoc(sent, token);
            full := full + token;
            sent := sent + [token];
            if c.done {
              DrainEnd(decode, lines0, buffer0, lines, buffer);
              return;
            }
          }
        case None =>
      }
    }
    DrainEnd(decode, lines0, buffer0, lines, buffer);
  }

  /** One step of a pass: the first line is taken, and the pass either
      stops after it or goes on with the rest of the buffer. */
  lemma DrainNext(decode: Decoder, buffer: Bytes, j: nat)
    requires Newline in buffer && j == IndexOf(buffer, Newline)
    ensures var line, rest := buffer[..j], buffer[j + 1..];
      && (Stops(decode, line) ==> Drain(decode, buffer) == ([line], rest))
      && (!Stops(decode, line) ==> Drain(decode, buffer) == ([line] + Drain(decode, rest).0, Drain(decode, rest).1))
  {
  }

  /** A pass takes no line carrying `done` but possibly its last one, and
      leaves a line feed in the buffer only when that last line carried
      `done`; so a pass over lines none of which carries `done` leaves no
      line feed. */
  lemma {:induction false} DrainFacts(decode: Decoder, buffer: Bytes)
    ensures var d := Drain(decode, buffer);
      && (forall k :: 0 <= k < |d.0| - 1 ==> !Stops(decode, d.0[k]))
      && (Newline in d.1 ==> d.0 != [] && Stops(decode, d.0[|d.0| - 1]))
      && (NoStop(decode, d.0) ==> Newline !in d.1)
    decreases |buffer|
  {
    if Newline in buffer {
      var j := IndexOf(buffer, Newline);
      DrainNext(decode, buffer, j);
      if !Stops(decode, buffer[..j]) {
        DrainFacts(decode, buffer[j + 1..]);
        NoStopSuffix(decode, [buffer[..j]], Drain(decode, buffer[j + 1..]).0);
      } else {
        assert Drain(decode, buffer).0[0] == buffer[..j];
      }
    }
  }

  /** What the lines and the buffer after a pass say about `done`. */
  lemma DrainEnd(decode: Decoder, lines0: seq<Bytes>, buffer0: Bytes, lines: seq<Bytes>, buffer: Bytes)
    requires lines == lines0 + Drain(decode, buffer0).0 && buffer == Drain(decode, buffer0).1
    ensures |lines0| <= |lines| && lines[..|lines0|] == lines0
    ensures NoStop(decode, lines) ==> Newline !in buffer
    ensures Newline in buffer ==> |lines| > |lines0| && Stops(decode, lines[|lines| - 1])
    ensures forall k :: |lines0| <= k < |lines| - 1 ==> !Stops(decode, lines[k])
  {
    var d := Drain(decode, buffer0).0;
    DrainFacts(decode, buffer0);
    assert forall k :: |lines0| <= k < |lines| ==> lines[k] == d[k - |lines0|];
  }

  /** Moving one line from the pass still to come to the lines taken. */
  lemma DrainInvariantStep(whole: seq<Bytes>, lines: seq<Bytes>, line: Bytes, later: seq<Bytes>)
    requires whole == lines + ([line] + later)
    ensures whole == (lines + [line]) + later
  {
  }

  /** Taking the first line off the buffer keeps what was received equal
      to the framed lines followed by the buffer. */
  lemma TakeLine(received: Bytes, lines: seq<Bytes>, buffer: Bytes, j: nat)
    requires received == Framed(lines) + buffer
    requires j < |buffer| && buffer[j] == Newline
    ensures received == Framed(lines + [buffer[..j]]) + buffer[j + 1..]
  {
    assert (lines + [buffer[..j]])[..|lines|] == lines;
    assert buffer == buffer[..j] + [Newline] + buffer[j + 1..];
  }

  /** The tokens of one more line. */
  lemma TokensStep(decode: Decoder, lines: seq<Bytes>, line: Bytes)
    ensures var t := TokenOf(decode, line);
      Tokens(decode, lines + [line]) == Tokens(decode, lines) + (if t.Some? then [t.value] else [])
  {
    assert (lines + [line])[..|lines|] == lines;
  }

  /** Framed lines taken from the front. */
  lemma {:induction false} FramedFront(lines: seq<Bytes>)
    requires lines != []
    ensures Framed(lines) == lines[0] + [Newline] + Framed(lines[1..])
    decreases |lines|
  {
    if |lines| > 1 {
      FramedFront(lines[..|lines| - 1]);
      assert lines[..|lines| - 1][1..] == lines[1..][..|lines| - 2];
    }
  }

  /** Line feed-free lines, framed and followed by a line feed-free tail,
      split back into those lines and that tail: so when no line carried
      `done`, the lines consumed are the complete lines of what was
      received and the buffer is the bytes after the last line feed. */
  lemma {:induction false} SplitFramed(lines: seq<Bytes>, tail: Bytes)
    requires NoNewlines(lines) && Newline !in tail
    ensures Split(Framed(lines) + tail, Newline) == lines + [tail]
    decreases |lines|
  {
    if lines == [] {
      SplitProperties(tail, Newline);
      CountZero(tail, Newline);
      assert Join(Newline, Split(tail, Newline)) == Split(tail, Newline)[0];
      assert Framed(lines) + tail == tail;
    } else {
      FramedFront(lines);
      SplitFramed(lines[1..], tail);
      assert Framed(lines) + tail == lines[0] + [Newline] + (Framed(lines[1..]) + tail);
      SplitFront(lines[0], Newline, Framed(lines[1..]) + tail);
      assert [lines[0]] + (lines[1..] + [tail]) == lines + [tail];
    }
  }

  /** The reply is the in-order concatenation of the tokens of the complete
      lines of the stream when no line carries `done`. */
  lemma RelayWithoutDone(chunks: seq<Bytes>, decode: Decoder, full: string, sent: seq<string>,
                         buffer: Bytes, lines: seq<Bytes>)
    requires full == Concat(sent) && sent == Tokens(decode, lines)
    requires Flatten(chunks) == Framed(lines) + buffer && NoNewlines(lines)
    requires Newline !in buffer
    ensures var pieces := Split(Flatten(chunks), Newline);
      && full == Concat(Tokens(decode, pieces[..|pieces| - 1]))
      && buffer == pieces[|pieces| - 1]
  {
    SplitFramed(lines, buffer);
    assert (lines + [buffer])[..|lines|] == lines;
  }

  /** Blank lines and lines that do not decode add no token. */
  lemma SkippedLines(decode: Decoder, lines: seq<Bytes>, line: Bytes)
    requires Blank(line) || decode(line).None?
    ensures Tokens(decode, lines + [line]) == Tokens(decode, lines)
  {
    TokensStep(decode, lines, line);
  }
}
