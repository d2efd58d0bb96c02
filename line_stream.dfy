/** The accumulation loop of the quart application's generation clients:
    the response arrives line by line, every non-empty line that decodes
    contributes its text, if it carries one, and the first decoded line
    whose `done` flag is set ends the loop after its text is taken. */
module LineStream {
  import opened Wrappers
  import opened Text
  import opened StreamRelay

  /** One decoded line: the text it carries (the `response` field, or
      `message.content` for the chat endpoint) and `chunk.get("done", False)`. */
  datatype Chunk = Chunk(text: Option<string>, done: bool)

  /** `json.loads` on one line: `None` when it raises `JSONDecodeError`. */
  type LineDecoder = Bytes -> Option<Chunk>

  /** A message sent to the client over the websocket while a reply is
      generated. */
  datatype Event =
    | TypingStart
    | Stream(content: string)
    | ErrorMessage(message: string)
    | TypingStop

  /** One `stream` message per text, in order. */
  function Streams(texts: seq<string>): (es: seq<Event>)
    ensures |es| == |texts|
    ensures forall k :: 0 <= k < |texts| ==> es[k] == Stream(texts[k])
  {
    if texts == [] then [] else Streams(texts[..|texts| - 1]) + [Stream(texts[|texts| - 1])]
  }

  /** The text one line adds to the reply, if any. */
  function TextOf(decode: LineDecoder, line: Bytes): (t: Option<string>)
    ensures t.Some? <==> line != [] && decode(line).Some? && decode(line).value.text.Some?
  {
    if line == [] then None
    else match decode(line)
      case Some(c) => c.text
      case None => None
  }

  /** A line that ends the loop. */
  predicate Ends(decode: LineDecoder, line: Bytes) {
    line != [] && decode(line).Some? && decode(line).value.done
  }

  /** No line before position `i` ends the loop. */
  predicate NoEndBefore(decode: LineDecoder, lines: seq<Bytes>, i: nat)
    requires i <= |lines|
  {
    forall k :: 0 <= k < i ==> !Ends(decode, lines[k])
  }

  /** The texts of a sequence of lines, in order. */
  function Texts(decode: LineDecoder, lines: seq<Bytes>): seq<string>
  {
    if lines == [] then []
    else
      var t := TextOf(decode, lines[|lines| - 1]);
      Texts(decode, lines[..|lines| - 1]) + (if t.Some? then [t.value] else [])
  }

  /** How many lines the loop reads: up to and including the first that
      ends it, or all of them. */
  function StopIndex(decode: LineDecoder, lines: seq<Bytes>): (n: nat)
    ensures n <= |lines|
    decreases |lines|
  {
    if lines == [] then 0
    else if Ends(decode, lines[0]) then 1
    else 1 + StopIndex(decode, lines[1..])
  }

  /** The loop reads exactly the lines up to the first one that ends it:
      none of the lines before the last one read ends the loop, and the loop
      stops before the end of the stream only right after such a line. */
  lemma {:induction false} StopIndexIsFirstEnd(decode: LineDecoder, lines: seq<Bytes>)
    ensures var n := StopIndex(decode, lines);
      && (lines != [] ==> n >= 1)
      && (forall k :: 0 <= k < n - 1 ==> !Ends(decode, lines[k]))
      && (n < |lines| ==> Ends(decode, lines[n - 1]))
      && (n == |lines| && lines != [] && !Ends(decode, lines[n - 1]) ==> NoEndBefore(decode, lines, n))
    decreases |lines|
  {
    if lines != [] && !Ends(decode, lines[0]) {
      StopIndexIsFirstEnd(decode, lines[1..]);
      var n := StopIndex(decode, lines);
      forall k | 0 <= k < n - 1 ensures !Ends(decode, lines[k]) {
        if k > 0 { assert lines[k] == lines[1..][k - 1]; }
      }
    }
  }

  /** Lines that do not end the loop pass it on to the rest. */
  lemma {:induction false} StopAfter(decode: LineDecoder, lines: seq<Bytes>, i: nat)
    requires i <= |lines| && NoEndBefore(decode, lines, i)
    ensures StopIndex(decode, lines) == i + StopIndex(decode, lines[i..])
    decreases i
  {
    if i > 0 {
      assert lines[1..][i - 1..] == lines[i..];
      assert NoEndBefore(decode, lines[1..], i - 1) by {
        forall k | 0 <= k < i - 1 ensures !Ends(decode, lines[1..][k]) {
          assert lines[1..][k] == lines[k + 1];
        }
      }
      StopAfter(decode, lines[1..], i - 1);
    }
  }

  /** The texts of one more line. */
  lemma TextsStep(decode: LineDecoder, lines: seq<Bytes>, i: nat)
    requires i < |lines|
    ensures var t := TextOf(decode, lines[i]);
      Texts(decode, lines[..i + 1]) == Texts(decode, lines[..i]) + (if t.Some? then [t.value] else [])
  {
    assert lines[..i + 1][..i] == lines[..i];
  }

  /** The loop. `sent` are the texts streamed to the client, in order; the
      reply is their concatenation, and they are the texts of exactly the
      lines up to the first one that ends the loop. */
  method Accumulate(lines: seq<Bytes>, decode: LineDecoder) returns (full: string, sent: seq<string>)
    ensures full == Concat(sent)
    ensures sent == Texts(decode, lines[..StopIndex(decode, lines)])
  {
    full, sent := "", [];
    var i := 0;
    while i < |lines|
      invariant i <= |lines|
      invariant NoEndBefore(decode, lines, i)
      invariant full == Concat(sent)
      invariant sent == Texts(decode, lines[..i])
    {
      var line := lines[i];
      TextsStep(decode, lines, i);
      StopAfter(decode, lines, i);
      if line != [] {
        match decode(line)
        case Some(c) =>
          if c.text.Some? {
            ConcatSnoc(sent, c.text.value);
            full := full + c.text.value;
            sent := sent + [c.text.value];
          }
          if c.done {
            assert StopIndex(decode, lines[i..]) == 1;
            return;
          }
        case None =>
      }
      i := i + 1;
    }
    assert lines[i..] == [];
    StopAfter(decode, lines, i);
  }
}
