/** String helpers with the semantics of the Python built-ins the program uses:
    `str.strip()`, `str.strip(chars)`, `str.split(sep)`, `sep.join(parts)`,
    `str.lower()` and `str.endswith(suffix)`. Strings are sequences of
    characters; the whitespace class is the whole one of `str.isspace`, the
    case mapping is the ASCII one. */
module Text {

  /** The characters `str.strip()` removes, those for which `str.isspace()`
      holds: tab to carriage return, the four separators U+001C to U+001F,
      space, next line, no-break space, ogham space mark, the spaces U+2000
      to U+200A, the line and paragraph separators, narrow no-break space,
      medium mathematical space and ideographic space. */
  const Spaces: set<char> := {
    '\t', '\n', '\U{000B}', '\U{000C}', '\r',
    '\U{001C}', '\U{001D}', '\U{001E}', '\U{001F}', ' ',
    '\U{0085}', '\U{00A0}', '\U{1680}',
    '\U{2000}', '\U{2001}', '\U{2002}', '\U{2003}', '\U{2004}', '\U{2005}',
    '\U{2006}', '\U{2007}', '\U{2008}', '\U{2009}', '\U{200A}',
    '\U{2028}', '\U{2029}', '\U{202F}', '\U{205F}', '\U{3000}'}

  predicate IsSpace(c: char) {
    c in Spaces
  }

  /** Drops leading characters that belong to `drop`. */
  function TrimStart(s: string, drop: set<char>): (r: string)
    ensures |r| <= |s| && r == s[|s| - |r|..]
    ensures r == [] || r[0] !in drop
    ensures forall i :: 0 <= i < |s| - |r| ==> s[i] in drop
  {
    if s == [] || s[0] !in drop then s else TrimStart(s[1..], drop)
  }

  /** Drops trailing characters that belong to `drop`. */
  function TrimEnd(s: string, drop: set<char>): (r: string)
    ensures |r| <= |s| && r == s[..|r|]
    ensures r == [] || r[|r| - 1] !in drop
    ensures forall i :: |r| <= i < |s| ==> s[i] in drop
  {
    if s == [] || s[|s| - 1] !in drop then s else TrimEnd(s[..|s| - 1], drop)
  }

  /** `s.strip()`. */
  function Strip(s: string): (r: string)
  {
    TrimEnd(TrimStart(s, Spaces), Spaces)
  }

  /** A whitespace character at either end, the separators and the
      non-ASCII spaces included, changes nothing once stripped. */
  lemma StripDropsSpace(c: char, s: string)
    requires c in Spaces
    ensures Strip([c] + s) == Strip(s)
    ensures Strip(s + [c]) == Strip(s)
  {
    TrimBothDrops(c, s, Spaces);
  }

  /** The same for trimming any set of characters at both ends. */
  lemma TrimBothDrops(c: char, s: string, drop: set<char>)
    requires c in drop
    ensures TrimEnd(TrimStart([c] + s, drop), drop) == TrimEnd(TrimStart(s, drop), drop)
    ensures TrimEnd(TrimStart(s + [c], drop), drop) == TrimEnd(TrimStart(s, drop), drop)
  {
    TrimStartCons(c, s, drop);
    TrimStartSnoc(s, c, drop);
    var r := TrimStart(s, drop);
    if r != [] {
      TrimEndSnoc(r, c, drop);
    }
  }

  /** A dropped character in front is trimmed away. */
  lemma TrimStartCons(c: char, s: string, drop: set<char>)
    requires c in drop
    ensures TrimStart([c] + s, drop) == TrimStart(s, drop)
  {
    var t := [c] + s;
    assert t[0] == c && t[1..] == s;
  }

  /** A dropped character at the end is trimmed away. */
  lemma TrimEndSnoc(s: string, c: char, drop: set<char>)
    requires c in drop
    ensures TrimEnd(s + [c], drop) == TrimEnd(s, drop)
  {
    var t := s + [c];
    assert t[|t| - 1] == c && t[..|t| - 1] == s;
  }

  /** Trimming the front of a sequence that ends in a dropped character. */
  lemma {:induction false} TrimStartSnoc(s: string, c: char, drop: set<char>)
    requires c in drop
    ensures var r := TrimStart(s, drop);
      TrimStart(s + [c], drop) == if r == [] then [] else r + [c]
    decreases |s|
  {
    if s == [] {
      assert [c][1..] == [];
    } else if s[0] in drop {
      assert (s + [c])[1..] == s[1..] + [c];
      TrimStartSnoc(s[1..], c, drop);
    }
  }

  /** `s.strip(c)` for a single character `c`. */
  function StripChar(s: string, c: char): (r: string)
  {
    TrimEnd(TrimStart(s, {c}), {c})
  }

  lemma StripShape(s: string)
    ensures var r := Strip(s);
      |r| <= |s| && (r != [] ==> !IsSpace(r[0]) && !IsSpace(r[|r| - 1]))
  {
  }

  lemma StripCharEnds(s: string, c: char)
    ensures var r := StripChar(s, c);
      |r| <= |s| && (r != [] ==> r[0] != c && r[|r| - 1] != c)
  {
  }

  /** Number of occurrences of `c` in `s`. */
  function Count<T(==)>(s: seq<T>, c: T): nat
  {
    if s == [] then 0 else (if s[0] == c then 1 else 0) + Count(s[1..], c)
  }

  lemma {:induction false} CountZero<T>(s: seq<T>, c: T)
    ensures Count(s, c) == 0 <==> c !in s
  {
    if s != [] {
      CountZero(s[1..], c);
      assert s == [s[0]] + s[1..];
    }
  }

  /** `s.split(d)`: the pieces between occurrences of `d`. Never empty;
      `"".split(d)` is `[""]`. */
  function Split<T(==)>(s: seq<T>, d: T): (parts: seq<seq<T>>)
    ensures |parts| >= 1
  {
    if s == [] then [[]]
    else if s[0] == d then [[]] + Split(s[1..], d)
    else var rest := Split(s[1..], d); [[s[0]] + rest[0]] + rest[1..]
  }

  /** `d.join(parts)`. */
  function Join<T>(d: T, parts: seq<seq<T>>): seq<T>
  {
    if parts == [] then []
    else if |parts| == 1 then parts[0]
    else parts[0] + [d] + Join(d, parts[1..])
  }

  /** A piece free of the separator, then the separator: splitting takes
      that piece off the front. */
  lemma {:induction false} SplitFront<T>(piece: seq<T>, d: T, rest: seq<T>)
    requires d !in piece
    ensures Split(piece + [d] + rest, d) == [piece] + Split(rest, d)
    decreases |piece|
  {
    var s := piece + [d] + rest;
    if piece == [] {
      assert s[1..] == rest;
    } else {
      SplitFront(piece[1..], d, rest);
      assert s[1..] == piece[1..] + [d] + rest;
      assert [piece[0]] + piece[1..] == piece;
    }
  }

  /** Splitting yields one more piece than there are separators, no piece
      holds a separator, and joining the pieces gives back the string. */
  lemma SplitProperties<T>(s: seq<T>, d: T)
    ensures |Split(s, d)| == Count(s, d) + 1
    ensures forall i :: 0 <= i < |Split(s, d)| ==> d !in Split(s, d)[i]
    ensures Join(d, Split(s, d)) == s
  {
    SplitCount(s, d);
    SplitPieces(s, d);
    SplitJoin(s, d);
  }

  lemma {:induction false} SplitCount<T>(s: seq<T>, d: T)
    ensures |Split(s, d)| == Count(s, d) + 1
  {
    if s != [] {
      SplitCount(s[1..], d);
    }
  }

  lemma {:induction false} SplitPieces<T>(s: seq<T>, d: T)
    ensures forall i :: 0 <= i < |Split(s, d)| ==> d !in Split(s, d)[i]
  {
    if s != [] {
      SplitPieces(s[1..], d);
      var rest := Split(s[1..], d);
      var parts := Split(s, d);
      forall i | 0 <= i < |parts| ensures d !in parts[i] {
        if s[0] == d {
          if i > 0 { assert parts[i] == rest[i - 1]; }
        } else if i == 0 {
          assert parts[0] == [s[0]] + rest[0];
        } else {
          assert parts[i] == rest[i];
        }
      }
    }
  }

  lemma {:induction false} SplitJoin<T>(s: seq<T>, d: T)
    ensures Join(d, Split(s, d)) == s
  {
    if s != [] {
      SplitJoin(s[1..], d);
      var rest := Split(s[1..], d);
      if s[0] == d {
        JoinEmptyFirst(d, rest);
      } else {
        JoinPrepend(s[0], d, rest);
      }
      assert s == [s[0]] + s[1..];
    }
  }

  /** Joining after an empty first piece puts a separator in front. */
  lemma JoinEmptyFirst<T>(d: T, rest: seq<seq<T>>)
    requires rest != []
    ensures Join(d, [[]] + rest) == [d] + Join(d, rest)
  {
    assert ([[]] + rest)[1..] == rest;
  }

  /** Joining after extending the first piece at its front extends the
      result at its front. */
  lemma JoinPrepend<T>(x: T, d: T, rest: seq<seq<T>>)
    requires rest != []
    ensures Join(d, [[x] + rest[0]] + rest[1..]) == [x] + Join(d, rest)
  {
    var parts := [[x] + rest[0]] + rest[1..];
    if |rest| > 1 {
      assert parts[1..] == rest[1..];
    }
  }

  /** The first piece of `s.split(d)` is what precedes the first `d`. */
  lemma {:induction false} SplitFirst<T>(s: seq<T>, d: T)
    requires d in s
    ensures var p := Split(s, d)[0]; |p| < |s| && s[..|p|] == p && s[|p|] == d
  {
    if s[0] != d {
      SplitFirst(s[1..], d);
      var p := Split(s[1..], d)[0];
      assert s[..|p| + 1] == [s[0]] + s[1..][..|p|];
    }
  }

  /** `s.split(d)` has at least two pieces exactly when `d` occurs in `s`. */
  lemma SplitAtLeastTwo<T>(s: seq<T>, d: T)
    ensures |Split(s, d)| >= 2 <==> d in s
  {
    SplitProperties(s, d);
    CountZero(s, d);
  }

  /** `s.split(d)[-1]`: the piece after the last separator. */
  function LastPiece<T(==)>(s: seq<T>, d: T): (r: seq<T>)
  {
    var parts := Split(s, d); parts[|parts| - 1]
  }

  /** Joining splits off the last piece behind one separator. */
  lemma {:induction false} JoinLast<T>(d: T, parts: seq<seq<T>>)
    requires |parts| >= 2
    ensures Join(d, parts) == Join(d, parts[..|parts| - 1]) + [d] + parts[|parts| - 1]
    decreases |parts|
  {
    if |parts| > 2 {
      JoinLast(d, parts[1..]);
      assert parts[1..][..|parts| - 2] == parts[..|parts| - 1][1..];
    }
  }

  /** The last piece holds no separator, ends the string, and is preceded
      by a separator unless it is the whole string. */
  lemma LastPieceIsSuffix<T>(s: seq<T>, d: T)
    ensures var r := LastPiece(s, d);
      d !in r && EndsWith(s, r) && (|r| < |s| ==> s[|s| - |r| - 1] == d)
  {
    var parts := Split(s, d);
    var r := parts[|parts| - 1];
    SplitProperties(s, d);
    if |parts| >= 2 {
      JoinLast(d, parts);
      var front := Join(d, parts[..|parts| - 1]);
      assert s == front + [d] + r;
      assert s[|s| - |r|..] == r;
      assert s[|s| - |r| - 1] == d;
    }
  }

  /** `"".join(parts)`: the pieces one after the other. */
  function Concat(parts: seq<string>): string
  {
    if parts == [] then "" else Concat(parts[..|parts| - 1]) + parts[|parts| - 1]
  }

  /** Concatenation distributes over appending lists of pieces. */
  lemma {:induction false} ConcatAppend(a: seq<string>, b: seq<string>)
    ensures Concat(a + b) == Concat(a) + Concat(b)
    decreases |b|
  {
    if b == [] {
      assert a + b == a;
    } else {
      var front, last := b[..|b| - 1], b[|b| - 1];
      assert (a + b)[..|a + b| - 1] == a + front;
      assert Concat(a + b) == Concat(a + front) + last;
      ConcatAppend(a, front);
      assert Concat(b) == Concat(front) + last;
      assert Concat(a) + Concat(front) + last == Concat(a) + (Concat(front) + last);
    }
  }

  /** Appending a piece appends its text. */
  lemma ConcatSnoc(parts: seq<string>, part: string)
    ensures Concat(parts + [part]) == Concat(parts) + part
  {
    assert (parts + [part])[..|parts|] == parts;
  }

  /** The text of the pieces `i` to `j` sits in the whole text right after
      the text of the pieces before `i`. */
  lemma ConcatInfix(parts: seq<string>, i: nat, j: nat)
    requires i <= j <= |parts|
    ensures var at := |Concat(parts[..i])|; var mid := Concat(parts[i..j]);
      at + |mid| <= |Concat(parts)| && Concat(parts)[at..at + |mid|] == mid
  {
    var l, m, r := parts[..i], parts[i..j], parts[j..];
    assert parts == l + m + r;
    ConcatAppend(l + m, r);
    ConcatAppend(l, m);
    InfixAt(Concat(l), Concat(m), Concat(r));
  }

  lemma InfixAt<T>(a: seq<T>, b: seq<T>, c: seq<T>)
    ensures (a + b + c)[|a|..|a| + |b|] == b
  {
  }

  /** `str.lower()` on ASCII letters. */
  function LowerChar(c: char): char {
    if 'A' <= c <= 'Z' then (c as int + 32) as char else c
  }

  function Lower(s: string): (r: string)
    ensures |r| == |s|
    ensures forall i :: 0 <= i < |s| ==> r[i] == LowerChar(s[i])
  {
    if s == [] then [] else [LowerChar(s[0])] + Lower(s[1..])
  }

  /** Lower-casing twice is lower-casing once. */
  lemma LowerIdempotent(s: string)
    ensures Lower(Lower(s)) == Lower(s)
  {
    assert forall i :: 0 <= i < |s| ==> LowerChar(LowerChar(s[i])) == LowerChar(s[i]);
  }

  /** `s.startswith(prefix)`. */
  predicate StartsWith<T(==)>(s: seq<T>, prefix: seq<T>) {
    |prefix| <= |s| && s[..|prefix|] == prefix
  }

  /** `s.endswith(suffix)`. */
  predicate EndsWith<T(==)>(s: seq<T>, suffix: seq<T>) {
    |suffix| <= |s| && s[|s| - |suffix|..] == suffix
  }

  lemma EndsWithAppended<T>(s: seq<T>, suffix: seq<T>)
    ensures EndsWith(s + suffix, suffix)
  {
    assert (s + suffix)[|s|..] == suffix;
  }

  /** `str(n)` for a natural number: its decimal digits. */
  function NatToString(n: nat): (s: string)
    ensures |s| >= 1
    ensures forall k :: 0 <= k < |s| ==> '0' <= s[k] <= '9'
    decreases n
  {
    var d := [(48 + n % 10) as char];
    if n < 10 then d else NatToString(n / 10) + d
  }
}
