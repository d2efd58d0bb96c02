/** Fenced code blocks in a model reply (`extract_code_blocks`), the
    language-to-extension table (`get_extension_for_language`) and the rule
    that names a downloaded artifact. The regular expression
    ```` ```(\w*)\n(.*?)``` ```` (with DOTALL) is modelled by a scanner with the
    same leftmost, non-overlapping matches. */
module CodeBlocks {
  import opened Text
  import opened Wrappers

  /** `\w`, on ASCII: letters, digits and underscore. */
  predicate IsWordChar(c: char) {
    ('a' <= c <= 'z') || ('A' <= c <= 'Z') || ('0' <= c <= '9') || c == '_'
  }

  /** Every character of `t` is a word character. */
  predicate WordChars(t: string) {
    forall k :: 0 <= k < |t| ==> IsWordChar(t[k])
  }

  /** Three backticks start at position `i`. */
  predicate FenceAt(s: string, i: int) {
    0 <= i && i + 3 <= |s| && s[i] == '`' && s[i + 1] == '`' && s[i + 2] == '`'
  }

  /** End of the longest run of word characters starting at `i` (`\w*` is
      greedy, and giving characters back cannot help the `\n` that follows). */
  function WordRunEnd(s: string, i: nat): (j: nat)
    requires i <= |s|
    ensures i <= j <= |s|
    ensures forall k :: i <= k < j ==> IsWordChar(s[k])
    ensures j == |s| || !IsWordChar(s[j])
    decreases |s| - i
  {
    if i == |s| || !IsWordChar(s[i]) then i else WordRunEnd(s, i + 1)
  }

  /** No fence starts in `[from, to)`. */
  predicate NoFenceIn(s: string, from: int, to: int) {
    forall k :: from <= k < to ==> !FenceAt(s, k)
  }

  /** The first fence at or after `i` (the lazy `(.*?)` stops at it). */
  function FindFence(s: string, i: nat): (r: Option<nat>)
    requires i <= |s|
    ensures r.Some? ==>
      i <= r.value && FenceAt(s, r.value) && NoFenceIn(s, i, r.value)
    ensures r.None? ==> forall k :: i <= k ==> !FenceAt(s, k)
    decreases |s| - i
  {
    if i + 3 > |s| then None
    else if FenceAt(s, i) then Some(i)
    else FindFence(s, i + 1)
  }

  /** One match: the opening fence at `start`, the language tag
      `s[start + 3 .. langEnd]`, a line feed at `langEnd`, the code
      `s[langEnd + 1 .. codeEnd]` and the closing fence at `codeEnd`. */
  datatype FenceMatch = FenceMatch(start: nat, langEnd: nat, codeEnd: nat) {
    function End(): nat { codeEnd + 3 }
  }

  /** What the pattern demands of a match. */
  ghost predicate IsMatch(s: string, m: FenceMatch) {
    && FenceAt(s, m.start)
    && m.start + 3 <= m.langEnd < m.codeEnd
    && m.langEnd < |s| && s[m.langEnd] == '\n'
    && WordChars(s[m.start + 3..m.langEnd])
    && FenceAt(s, m.codeEnd)
    && NoFenceIn(s, m.langEnd + 1, m.codeEnd)
  }

  /** The match of the pattern that starts at `i`, if any. */
  function MatchAt(s: string, i: nat): (r: Option<FenceMatch>)
    requires i <= |s|
    ensures r.Some? ==> r.value.start == i && IsMatch(s, r.value) && r.value.End() <= |s|
  {
    if !FenceAt(s, i) then None
    else
      var e := WordRunEnd(s, i + 3);
      if e < |s| && s[e] == '\n' then
        assert WordChars(s[i + 3..e]) by {
          var t := s[i + 3..e];
          forall k | 0 <= k < |t| ensures IsWordChar(t[k]) {
            assert t[k] == s[i + 3 + k];
          }
        }
        match FindFence(s, e + 1)
        case Some(j) => Some(FenceMatch(i, e, j))
        case None => None
      else None
  }

  /** Every proper match at `i` is the one `MatchAt` finds: the pattern has at
      most one match starting at a given position. */
  lemma MatchAtComplete(s: string, m: FenceMatch)
    requires m.start <= |s| && IsMatch(s, m)
    ensures MatchAt(s, m.start) == Some(m)
  {
  }

  /** No match starts in `[from, to)`. */
  ghost predicate NoMatchIn(s: string, from: nat, to: nat) {
    forall p :: from <= p < to && p <= |s| ==> MatchAt(s, p).None?
  }

  /** `re.finditer` from position `i`: try each position in turn, and after
      a match resume at its end. */
  function FenceMatchesFrom(s: string, i: nat): (ms: seq<FenceMatch>)
    requires i <= |s|
    ensures forall k :: 0 <= k < |ms| ==> Fits(s, ms[k]) && i <= ms[k].start
    decreases |s| - i
  {
    if i == |s| then []
    else match MatchAt(s, i)
      case Some(m) => [m] + FenceMatchesFrom(s, m.End())
      case None => FenceMatchesFrom(s, i + 1)
  }

  function FenceMatches(s: string): (ms: seq<FenceMatch>)
    ensures WellFormed(s, ms)
  {
    FenceMatchesFrom(s, 0)
  }

  /** Matches in increasing, non-overlapping order. */
  predicate Ordered(ms: seq<FenceMatch>) {
    forall k :: 0 <= k < |ms| - 1 ==> ms[k].End() <= ms[k + 1].start
  }

  ghost predicate AllMatch(s: string, ms: seq<FenceMatch>) {
    forall k :: 0 <= k < |ms| ==> IsMatch(s, ms[k])
  }

  /** Scanning from `i`, no match starts before the first one found (or
      anywhere, when none is found), and so on from the end of each match. */
  ghost predicate Scanned(s: string, i: nat, ms: seq<FenceMatch>)
    decreases |ms|
  {
    if ms == [] then NoMatchIn(s, i, |s|)
    else i <= ms[0].start && NoMatchIn(s, i, ms[0].start) && Scanned(s, ms[0].End(), ms[1..])
  }

  /** The matches come in increasing, non-overlapping order. */
  lemma {:induction false} FenceMatchesOrdered(s: string, i: nat)
    requires i <= |s|
    ensures Ordered(FenceMatchesFrom(s, i))
    decreases |s| - i
  {
    if i < |s| {
      match MatchAt(s, i)
      case Some(m) =>
        FenceMatchesOrdered(s, m.End());
        OrderedCons(m, FenceMatchesFrom(s, m.End()));
      case None =>
        FenceMatchesOrdered(s, i + 1);
    }
  }

  lemma OrderedCons(m: FenceMatch, rest: seq<FenceMatch>)
    requires Ordered(rest) && (rest != [] ==> m.End() <= rest[0].start)
    ensures Ordered([m] + rest)
  {
    var ms := [m] + rest;
    forall k | 0 <= k < |ms| - 1 ensures ms[k].End() <= ms[k + 1].start {
      if k > 0 {
        assert ms[k] == rest[k - 1] && ms[k + 1] == rest[k];
      }
    }
  }

  /** Every match found is a match of the pattern. */
  lemma {:induction false} FenceMatchesAreMatches(s: string, i: nat)
    requires i <= |s|
    ensures AllMatch(s, FenceMatchesFrom(s, i))
    decreases |s| - i
  {
    if i < |s| {
      match MatchAt(s, i)
      case Some(m) =>
        FenceMatchesAreMatches(s, m.End());
        AllMatchCons(s, m, FenceMatchesFrom(s, m.End()));
      case None =>
        FenceMatchesAreMatches(s, i + 1);
    }
  }

  lemma AllMatchCons(s: string, m: FenceMatch, rest: seq<FenceMatch>)
    requires IsMatch(s, m) && AllMatch(s, rest)
    ensures AllMatch(s, [m] + rest)
  {
    var ms := [m] + rest;
    forall k | 0 <= k < |ms| ensures IsMatch(s, ms[k]) {
      if k > 0 {
        assert ms[k] == rest[k - 1];
      }
    }
  }

  /** Scanning is leftmost and skips nothing. */
  lemma {:induction false} FenceMatchesScanned(s: string, i: nat)
    requires i <= |s|
    ensures Scanned(s, i, FenceMatchesFrom(s, i))
    decreases |s| - i
  {
    if i < |s| {
      match MatchAt(s, i)
      case Some(m) =>
        FenceMatchesScanned(s, m.End());
        var rest := FenceMatchesFrom(s, m.End());
        assert FenceMatchesFrom(s, i) == [m] + rest;
        assert ([m] + rest)[1..] == rest;
      case None =>
        FenceMatchesScanned(s, i + 1);
        assert FenceMatchesFrom(s, i) == FenceMatchesFrom(s, i + 1);
        ScannedFromEarlier(s, i, FenceMatchesFrom(s, i + 1));
    }
  }

  /** A scan may start one position earlier where no match starts. */
  lemma ScannedFromEarlier(s: string, i: nat, ms: seq<FenceMatch>)
    requires i < |s| && MatchAt(s, i).None? && Scanned(s, i + 1, ms)
    ensures Scanned(s, i, ms)
  {
    if ms == [] {
      NoMatchFromEarlier(s, i, |s|);
    } else {
      NoMatchFromEarlier(s, i, ms[0].start);
    }
  }

  lemma NoMatchFromEarlier(s: string, i: nat, to: nat)
    requires i < |s| && MatchAt(s, i).None? && NoMatchIn(s, i + 1, to)
    ensures NoMatchIn(s, i, to)
  {
  }

  /** After a scan, every position where the pattern matches is the start of
      a match found or lies inside one. */
  lemma {:induction false} ScannedCovers(s: string, i: nat, ms: seq<FenceMatch>, p: nat)
    requires Scanned(s, i, ms) && i <= p <= |s| && MatchAt(s, p).Some?
    ensures exists k :: 0 <= k < |ms| && ms[k].start <= p < ms[k].End()
    decreases |ms|
  {
    if ms != [] && p >= ms[0].End() {
      ScannedCovers(s, ms[0].End(), ms[1..], p);
      var k :| 0 <= k < |ms| - 1 && ms[1..][k].start <= p < ms[1..][k].End();
      assert ms[k + 1] == ms[1..][k];
    }
  }

  /** Every match of the pattern in the text is the start of, or lies inside,
      a match found. */
  lemma FenceMatchesCover(s: string, p: nat)
    requires p <= |s| && MatchAt(s, p).Some?
    ensures exists k :: 0 <= k < |FenceMatches(s)| && FenceMatches(s)[k].start <= p < FenceMatches(s)[k].End()
  {
    FenceMatchesScanned(s, 0);
    ScannedCovers(s, 0, FenceMatches(s), p);
  }

  datatype CodeBlock = CodeBlock(language: string, code: string)

  /** `{"language": tag.strip(), "code": code.strip()}`. */
  function MakeBlock(tag: string, code: string): CodeBlock {
    CodeBlock(Strip(tag), Strip(code))
  }

  /** The block of a match: its two groups, stripped. When the tag is
      made of word characters, as the pattern demands, a block with
      non-empty code is one the handler keeps. */
  function BlockOf(s: string, m: FenceMatch): (b: CodeBlock)
    requires Fits(s, m)
    ensures WordChars(s[m.start + 3..m.langEnd]) && b.code != [] ==> GoodBlock(b)
  {
    if WordChars(s[m.start + 3..m.langEnd]) then
      MadeBlockGood(s[m.start + 3..m.langEnd], s[m.langEnd + 1..m.codeEnd]);
      MakeBlock(s[m.start + 3..m.langEnd], s[m.langEnd + 1..m.codeEnd])
    else MakeBlock(s[m.start + 3..m.langEnd], s[m.langEnd + 1..m.codeEnd])
  }

  /** The positions of a match lie within the text, in order. */
  predicate Fits(s: string, m: FenceMatch) {
    m.start + 3 <= m.langEnd < m.codeEnd <= |s|
  }

  predicate WellFormed(s: string, ms: seq<FenceMatch>) {
    forall k :: 0 <= k < |ms| ==> Fits(s, ms[k])
  }

  /** The blocks kept from a list of matches: those whose stripped code is non-empty, in order. */
  ghost function KeptBlocks(s: string, ms: seq<FenceMatch>): seq<CodeBlock>
    requires WellFormed(s, ms)
  {
    if ms == [] then []
    else
      var b := BlockOf(s, ms[|ms| - 1]);
      KeptBlocks(s, ms[..|ms| - 1]) + (if b.code != [] then [b] else [])
  }

  lemma KeptBlocksStep(s: string, ms: seq<FenceMatch>, k: nat)
    requires WellFormed(s, ms) && k < |ms|
    ensures var b := BlockOf(s, ms[k]);
      KeptBlocks(s, ms[..k + 1]) == KeptBlocks(s, ms[..k]) + (if b.code != [] then [b] else [])
  {
    assert ms[..k + 1][..k] == ms[..k];
  }

  /** A block as the handler keeps it: stripped, non-empty code and a tag of word characters. */
  predicate GoodBlock(b: CodeBlock) {
    && b.code != [] && !IsSpace(b.code[0]) && !IsSpace(b.code[|b.code| - 1])
    && WordChars(b.language)
  }

  /** A tag of word characters has no surrounding white space, so stripping
      it changes nothing: the language is exactly the tag after the fence. */
  lemma TagIsItsOwnStrip(tag: string)
    requires WordChars(tag)
    ensures Strip(tag) == tag
  {
    if tag != [] {
      WordCharIsNoSpace(tag[0]);
      WordCharIsNoSpace(tag[|tag| - 1]);
    }
  }

  lemma WordCharIsNoSpace(c: char)
    requires IsWordChar(c)
    ensures c !in Spaces
  {
  }

  /** A tag of word characters is the block's language as it stands. */
  lemma BlockLanguage(tag: string, code: string)
    requires WordChars(tag)
    ensures MakeBlock(tag, code).language == tag
  {
    TagIsItsOwnStrip(tag);
  }

  /** The code of a block, when non-empty, neither starts nor ends with
      white space. */
  lemma BlockCode(tag: string, code: string)
    ensures var c := MakeBlock(tag, code).code; c != [] ==> !IsSpace(c[0]) && !IsSpace(c[|c| - 1])
  {
    StripShape(code);
  }

  /** A block made from a tag of word characters, when its code is
      non-empty, is one the handler keeps. */
  lemma MadeBlockGood(tag: string, code: string)
    requires WordChars(tag)
    ensures MakeBlock(tag, code).code != [] ==> GoodBlock(MakeBlock(tag, code))
  {
    BlockLanguage(tag, code);
    BlockCode(tag, code);
  }

  /** The block of any match found is good when its code is non-empty. */
  lemma MatchBlockGood(s: string, ms: seq<FenceMatch>, k: nat)
    requires WellFormed(s, ms) && AllMatch(s, ms) && k < |ms|
    ensures BlockOf(s, ms[k]).code != [] ==> GoodBlock(BlockOf(s, ms[k]))
  {
    assert IsMatch(s, ms[k]);
  }

  /** Every block of the list is good. */
  predicate AllGood(blocks: seq<CodeBlock>) {
    forall k :: 0 <= k < |blocks| ==> GoodBlock(blocks[k])
  }

  lemma AllGoodSnoc(blocks: seq<CodeBlock>, b: CodeBlock)
    requires AllGood(blocks) && GoodBlock(b)
    ensures AllGood(blocks + [b])
  {
    var next := blocks + [b];
    forall k | 0 <= k < |next| ensures GoodBlock(next[k]) {
      if k < |blocks| {
        assert next[k] == blocks[k];
      }
    }
  }

  /** `extract_code_blocks`: the stripped, non-empty blocks of the reply, in
      order of appearance; each code is stripped and non-empty and each tag
      is made of word characters. */
  method ExtractCodeBlocks(text: string) returns (blocks: seq<CodeBlock>)
    ensures blocks == KeptBlocks(text, FenceMatches(text))
    ensures AllGood(blocks)
  {
    var ms := FenceMatches(text);
    FenceMatchesAreMatches(text, 0);
    blocks := [];
    for k := 0 to |ms|
      invariant blocks == KeptBlocks(text, ms[..k])
      invariant AllGood(blocks)
    {
      MatchBlockGood(text, ms, k);
      KeptBlocksStep(text, ms, k);
      var b := BlockOf(text, ms[k]);
      if b.code != [] {
        AllGoodSnoc(blocks, b);
        blocks := blocks + [b];
      }
    }
    assert ms[..|ms|] == ms;
  }

  /** The table of `get_extension_for_language`, keyed by lower-case name. */
  const ExtensionTable: map<string, string> := map[
    "python" := ".py", "javascript" := ".js", "typescript" := ".ts",
    "html" := ".html", "css" := ".css", "java" := ".java", "c" := ".c",
    "cpp" := ".cpp", "csharp" := ".cs", "go" := ".go", "rust" := ".rs",
    "php" := ".php", "ruby" := ".rb", "swift" := ".swift", "kotlin" := ".kt",
    "scala" := ".scala", "shell" := ".sh", "bash" := ".sh", "sql" := ".sql",
    "json" := ".json", "xml" := ".xml", "yaml" := ".yml", "markdown" := ".md",
    "text" := ".txt"]

  /** The extension for a language name, looked up case-insensitively; the
      empty string when the name is not in the table. */
  function ExtensionFor(language: string): (ext: string)
    ensures Lower(language) !in ExtensionTable <==> ext == ""
    ensures ext != "" ==> ext[0] == '.' && ext in ExtensionTable.Values
  {
    if Lower(language) in ExtensionTable then ExtensionTable[Lower(language)] else ""
  }

  /** Looking up the lower-cased name gives the same extension. */
  lemma ExtensionCaseInsensitive(language: string)
    ensures ExtensionFor(Lower(language)) == ExtensionFor(language)
  {
    LowerIdempotent(language);
  }

  lemma ShellAndBashShareExtension()
    ensures ExtensionFor("shell") == ExtensionFor("Bash") == ".sh"
  {
    assert Lower("shell") == "shell";
    assert Lower("Bash") == "bash";
  }

  /** The download filename: the extension of the artifact's language is
      appended to the slug only when the language is set, the extension is
      non-empty and the slug does not already end with it. */
  function DownloadName(slug: string, language: Option<string>): (name: string)
    ensures var ext := if language.Some? && language.value != "" then ExtensionFor(language.value) else "";
      && (ext != "" ==> EndsWith(name, ext))
      && (name == slug || name == slug + ext)
      && (name == slug <==> ext == "" || EndsWith(slug, ext))
  {
    if language.Some? && language.value != "" then
      var ext := ExtensionFor(language.value);
      if ext != "" && !EndsWith(slug, ext) then
        EndsWithAppended(slug, ext);
        slug + ext
      else slug
    else slug
  }

  /** Naming a download twice gives the same name as naming it once. */
  lemma DownloadNameIdempotent(slug: string, language: Option<string>)
    ensures DownloadName(DownloadName(slug, language), language) == DownloadName(slug, language)
  {
  }
}
