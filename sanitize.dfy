/** The escaping helpers of the quart application: `sanitize_html`, which
    escapes a text as `html.escape` does with `quote=True`, and
    `sanitize_dict`, which escapes every string inside nested dictionaries
    and lists and leaves everything else alone. */
module Sanitize {
  import opened Wrappers

  /** The characters `html.escape` replaces. */
  predicate IsSpecial(c: char) {
    c == '&' || c == '<' || c == '>' || c == '"' || c == '\''
  }

  /** The characters that never survive escaping. */
  predicate IsRaw(c: char) {
    c == '<' || c == '>' || c == '"' || c == '\''
  }

  /** The replacement of one character: `&amp;`, `&lt;`, `&gt;`, `&quot;`,
      `&#x27;`, or the character itself. */
  function EscapeChar(c: char): (r: string)
    ensures IsSpecial(c) <==> r != [c]
    ensures r != [] && (r[0] == '&' <==> IsSpecial(c))
    ensures forall k :: 0 <= k < |r| ==> !IsRaw(r[k])
  {
    if c == '&' then "&amp;"
    else if c == '<' then "&lt;"
    else if c == '>' then "&gt;"
    else if c == '"' then "&quot;"
    else if c == '\'' then "&#x27;"
    else [c]
  }

  /** `html.escape(s)`. */
  function Escape(s: string): (r: string)
    ensures |r| >= |s|
  {
    if s == [] then [] else EscapeChar(s[0]) + Escape(s[1..])
  }

  /** Decodes the five references `Escape` writes; every other character,
      `&` included, is kept. */
  function Unescape(s: string): (r: string)
    decreases |s|
  {
    if s == [] then []
    else if s[0] == '&' && |s| >= 5 && s[..5] == "&amp;" then "&" + Unescape(s[5..])
    else if s[0] == '&' && |s| >= 4 && s[..4] == "&lt;" then "<" + Unescape(s[4..])
    else if s[0] == '&' && |s| >= 4 && s[..4] == "&gt;" then ">" + Unescape(s[4..])
    else if s[0] == '&' && |s| >= 6 && s[..6] == "&quot;" then "\"" + Unescape(s[6..])
    else if s[0] == '&' && |s| >= 6 && s[..6] == "&#x27;" then "'" + Unescape(s[6..])
    else [s[0]] + Unescape(s[1..])
  }

  predicate Safe(s: string) {
    forall k :: 0 <= k < |s| ==> !IsRaw(s[k])
  }

  /** Decoding one escaped character gives it back. */
  lemma UnescapeChar(c: char, rest: string)
    ensures Unescape(EscapeChar(c) + rest) == [c] + Unescape(rest)
  {
    var e := EscapeChar(c);
    var s := e + rest;
    assert s[..|e|] == e;
    assert s[|e|..] == rest;
    assert s[0] == e[0];
    if IsSpecial(c) {
      assert s[1] == e[1];
    }
  }

  /** Escaping loses nothing: decoding the escaped text gives the text back. */
  lemma {:induction false} EscapeRoundTrip(s: string)
    ensures Unescape(Escape(s)) == s
    decreases |s|
  {
    if s != [] {
      UnescapeChar(s[0], Escape(s[1..]));
      EscapeRoundTrip(s[1..]);
    }
  }

  /** An escaped text holds no `<`, `>`, `"` or `'`. */
  lemma {:induction false} EscapeSafe(s: string)
    ensures Safe(Escape(s))
    decreases |s|
  {
    if s != [] {
      EscapeSafe(s[1..]);
      var e, r := EscapeChar(s[0]), Escape(s[1..]);
      assert forall k :: 0 <= k < |e + r| ==> (e + r)[k] == if k < |e| then e[k] else r[k - |e|];
    }
  }

  /** A text without the five special characters is left as it is. */
  lemma {:induction false} EscapePlain(s: string)
    requires forall k :: 0 <= k < |s| ==> !IsSpecial(s[k])
    ensures Escape(s) == s
    decreases |s|
  {
    if s != [] {
      EscapePlain(s[1..]);
    }
  }

  /** `sanitize_html(text)`: `None` stays `None`; anything else is escaped
      after `str()`, which is taken as already applied. */
  function SanitizeHtml(text: Option<string>): (r: Option<string>)
    ensures r.None? <==> text.None?
  {
    match text
    case None => None
    case Some(s) => Some(Escape(s))
  }

  /** A decoded JSON-like value: strings, dictionaries (entries in order),
      lists, and any other leaf (numbers, booleans, `None`), written by its
      representation. */
  datatype Value =
    | Str(s: string)
    | Dict(entries: seq<(string, Value)>)
    | List(items: seq<Value>)
    | Leaf(repr: string)

  /** `sanitize_dict(data)`. */
  function SanitizeValue(v: Value): (r: Value)
    decreases v
  {
    match v
    case Str(s) => Str(Escape(s))
    case Dict(es) => Dict(SanitizeEntries(es))
    case List(xs) => List(SanitizeItems(xs))
    case Leaf(_) => v
  }

  /** `{k: sanitize_dict(v) for k, v in data.items()}`: same keys in the
      same order, each value sanitized. */
  function SanitizeEntries(es: seq<(string, Value)>): (r: seq<(string, Value)>)
    ensures |r| == |es|
    decreases es
  {
    if es == [] then []
    else
      var (k, v) := es[0];
      assert v < es[0];
      [(k, SanitizeValue(v))] + SanitizeEntries(es[1..])
  }

  /** `[sanitize_dict(item) for item in data]`: same length and order, each
      item sanitized. */
  function SanitizeItems(xs: seq<Value>): (r: seq<Value>)
    ensures |r| == |xs|
    decreases xs
  {
    if xs == [] then [] else [SanitizeValue(xs[0])] + SanitizeItems(xs[1..])
  }

  /** Sanitizing a dictionary keeps its keys, in order, and sanitizes
      each value. */
  lemma {:induction false} EntriesShape(es: seq<(string, Value)>)
    ensures var r := SanitizeEntries(es);
      forall i :: 0 <= i < |es| ==> r[i].0 == es[i].0 && r[i].1 == SanitizeValue(es[i].1)
    decreases es
  {
    if es != [] {
      EntriesShape(es[1..]);
      var r := SanitizeEntries(es);
      assert r[1..] == SanitizeEntries(es[1..]);
      forall i | 1 <= i < |es| ensures r[i].0 == es[i].0 && r[i].1 == SanitizeValue(es[i].1) {
        assert r[i] == r[1..][i - 1] && es[i] == es[1..][i - 1];
      }
    }
  }

  /** Sanitizing a list keeps its length and order and sanitizes each item. */
  lemma {:induction false} ItemsShape(xs: seq<Value>)
    ensures var r := SanitizeItems(xs);
      forall i :: 0 <= i < |xs| ==> r[i] == SanitizeValue(xs[i])
    decreases xs
  {
    if xs != [] {
      ItemsShape(xs[1..]);
      var r := SanitizeItems(xs);
      assert r[1..] == SanitizeItems(xs[1..]);
      forall i | 1 <= i < |xs| ensures r[i] == SanitizeValue(xs[i]) {
        assert r[i] == r[1..][i - 1] && xs[i] == xs[1..][i - 1];
      }
    }
  }

  /** The value with every string leaf decoded. */
  function UnescapeValue(v: Value): Value
    decreases v
  {
    match v
    case Str(s) => Str(Unescape(s))
    case Dict(es) => Dict(UnescapeEntries(es))
    case List(xs) => List(UnescapeItems(xs))
    case Leaf(_) => v
  }

  function UnescapeEntries(es: seq<(string, Value)>): seq<(string, Value)>
    decreases es
  {
    if es == [] then []
    else
      var (k, v) := es[0];
      assert v < es[0];
      [(k, UnescapeValue(v))] + UnescapeEntries(es[1..])
  }

  function UnescapeItems(xs: seq<Value>): seq<Value>
    decreases xs
  {
    if xs == [] then [] else [UnescapeValue(xs[0])] + UnescapeItems(xs[1..])
  }

  /** Every string leaf of the value is free of raw `<`, `>`, `"` and `'`. */
  predicate AllSafe(v: Value)
    decreases v
  {
    match v
    case Str(s) => Safe(s)
    case Dict(es) => forall i :: 0 <= i < |es| ==> AllSafe(es[i].1)
    case List(xs) => forall i :: 0 <= i < |xs| ==> AllSafe(xs[i])
    case Leaf(_) => true
  }

  /** Sanitizing loses nothing: decoding every string leaf of the sanitized
      value gives the original value back, so keys, lengths, order and
      non-string leaves are all preserved. */
  lemma {:induction false} SanitizeRoundTrip(v: Value)
    ensures UnescapeValue(SanitizeValue(v)) == v
    decreases v
  {
    match v
    case Str(s) => EscapeRoundTrip(s);
    case Dict(es) => EntriesRoundTrip(es);
    case List(xs) => ItemsRoundTrip(xs);
    case Leaf(_) =>
  }

  lemma {:induction false} EntriesRoundTrip(es: seq<(string, Value)>)
    ensures UnescapeEntries(SanitizeEntries(es)) == es
    decreases es
  {
    if es != [] {
      assert es[0].1 < es[0];
      SanitizeRoundTrip(es[0].1);
      EntriesRoundTrip(es[1..]);
      assert SanitizeEntries(es)[1..] == SanitizeEntries(es[1..]);
    }
  }

  lemma {:induction false} ItemsRoundTrip(xs: seq<Value>)
    ensures UnescapeItems(SanitizeItems(xs)) == xs
    decreases xs
  {
    if xs != [] {
      SanitizeRoundTrip(xs[0]);
      ItemsRoundTrip(xs[1..]);
      assert SanitizeItems(xs)[1..] == SanitizeItems(xs[1..]);
    }
  }

  /** No string anywhere in a sanitized value holds a raw `<`, `>`, `"` or `'`. */
  lemma {:induction false} SanitizedIsSafe(v: Value)
    ensures AllSafe(SanitizeValue(v))
    decreases v
  {
    match v
    case Str(s) => EscapeSafe(s);
    case Dict(es) =>
      EntriesShape(es);
      forall i | 0 <= i < |es| ensures AllSafe(SanitizeEntries(es)[i].1) {
        assert es[i].1 < es[i];
        SanitizedIsSafe(es[i].1);
      }
    case List(xs) =>
      ItemsShape(xs);
      forall i | 0 <= i < |xs| ensures AllSafe(SanitizeItems(xs)[i]) {
        SanitizedIsSafe(xs[i]);
      }
    case Leaf(_) =>
  }
}
