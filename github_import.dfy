/** The repository import of the web interface: the analysis prompt sent for
    an imported repository, and the repository files stored as artifacts of
    the chat. Fetching the repository, summarising it and formatting its
    code for the prompt happen elsewhere; their texts are inputs here. */
module GithubImport {
  import opened Wrappers
  import opened Text

  /** Longest file content stored as an artifact (`len(content) > 100000` is skipped). */
  const MaxContentLength: nat := 100000

  const TitleSuffix: string := " (GitHub)"

  /** A value of `result["content"]`: either a dictionary, with its
      `content` and `language` entries when it has them, or anything else. */
  datatype FileInfo =
    | FileDict(content: Option<string>, language: Option<string>)
    | NotADict

  /** A row of the `artifacts` table written for a file. */
  datatype Artifact = Artifact(title: string, content: string, contentType: string, language: string)

  /** The message sent to the client for each stored artifact. */
  datatype Notice = Notice(title: string, language: string)

  /** `file_info.get("language", "")`. */
  function LanguageOf(info: FileInfo): string
    requires info.FileDict?
  {
    info.language.GetOr("")
  }

  /** A file is stored when its entry is a dictionary with content of at
      most 100000 characters and a language that is neither empty nor
      `text`. */
  predicate Kept(info: FileInfo) {
    && info.FileDict?
    && info.content.Some?
    && |info.content.value| <= MaxContentLength
    && LanguageOf(info) != ""
    && LanguageOf(info) != "text"
  }

  /** The artifact title: the last `/`-separated segment of the path and
      " (GitHub)". */
  function ArtifactTitle(path: string): (title: string)
  {
    LastPiece(path, '/') + TitleSuffix
  }

  function ArtifactOf(path: string, info: FileInfo): Artifact
    requires Kept(info)
  {
    Artifact(ArtifactTitle(path), info.content.value, "text/plain", LanguageOf(info))
  }

  /** The artifacts stored for the files of a repository, in the order the
      files are listed. */
  function Artifacts(files: seq<(string, FileInfo)>): seq<Artifact>
  {
    if files == [] then []
    else
      var (path, info) := files[|files| - 1];
      Artifacts(files[..|files| - 1]) + (if Kept(info) then [ArtifactOf(path, info)] else [])
  }

  /** The artifact loop: each kept file is inserted and then announced to
      the client. `stored` are the rows inserted, `notices` the messages
      sent, both in order. */
  method StoreArtifacts(files: seq<(string, FileInfo)>)
    returns (stored: seq<Artifact>, notices: seq<Notice>)
    ensures stored == Artifacts(files)
    ensures |notices| == |stored|
    ensures forall k :: 0 <= k < |stored| ==> notices[k] == Notice(stored[k].title, stored[k].language)
  {
    stored, notices := [], [];
    for i := 0 to |files|
      invariant stored == Artifacts(files[..i])
      invariant |notices| == |stored|
      invariant forall k :: 0 <= k < |stored| ==> notices[k] == Notice(stored[k].title, stored[k].language)
    {
      assert files[..i + 1][..i] == files[..i];
      var (path, info) := files[i];
      if info.NotADict? || info.content.None? {
        continue;
      }
      if |info.content.value| > 100000 {
        continue;
      }
      var language := info.language.GetOr("");
      if language == "" || language == "text" {
        continue;
      }
      var title := LastPiece(path, '/') + " (GitHub)";
      stored := stored + [Artifact(title, info.content.value, "text/plain", language)];
      notices := notices + [Notice(title, language)];
    }
    assert files[..|files|] == files;
  }

  /** File `i` of the list passes the filter and gives artifact `a`. */
  predicate Gives(files: seq<(string, FileInfo)>, i: int, a: Artifact) {
    0 <= i < |files| && Kept(files[i].1) && a == ArtifactOf(files[i].0, files[i].1)
  }

  /** An artifact is stored exactly when some listed file passes the filter
      and gives that artifact. */
  lemma {:induction false} ArtifactsMembership(files: seq<(string, FileInfo)>, a: Artifact)
    ensures a in Artifacts(files) <==> exists i :: Gives(files, i, a)
    decreases |files|
  {
    if files != [] {
      var n := |files| - 1;
      var (path, info) := files[n];
      var last := if Kept(info) then [ArtifactOf(path, info)] else [];
      assert Artifacts(files) == Artifacts(files[..n]) + last;
      ArtifactsMembership(files[..n], a);
      if a in Artifacts(files[..n]) {
        var i :| Gives(files[..n], i, a);
        GivesPrefix(files, n, i, a);
      } else if a in last {
        assert Gives(files, n, a);
      }
      if exists i :: Gives(files, i, a) {
        var i :| Gives(files, i, a);
        if i < n {
          GivesPrefix(files, n, i, a);
        }
      }
    }
  }

  /** A file of a prefix of the list gives what it gives in the whole list. */
  lemma GivesPrefix(files: seq<(string, FileInfo)>, n: nat, i: int, a: Artifact)
    requires n <= |files| && 0 <= i < n
    ensures Gives(files[..n], i, a) <==> Gives(files, i, a)
  {
    assert files[..n][i] == files[i];
  }

  /** No more artifacts than files. */
  lemma {:induction false} ArtifactsBounded(files: seq<(string, FileInfo)>)
    ensures |Artifacts(files)| <= |files|
    decreases |files|
  {
    if files != [] {
      ArtifactsBounded(files[..|files| - 1]);
    }
  }

  /** The title names the file only: it is the path's last segment, which
      holds no `/` and ends the path, followed by " (GitHub)". */
  lemma ArtifactTitleShape(path: string)
    ensures var title := ArtifactTitle(path); var name := title[..|title| - |TitleSuffix|];
      && EndsWith(title, TitleSuffix)
      && '/' !in name
      && EndsWith(path, name)
      && (|name| < |path| ==> path[|path| - |name| - 1] == '/')
  {
    var title := ArtifactTitle(path);
    assert title[..|title| - |TitleSuffix|] == LastPiece(path, '/');
    EndsWithAppended(LastPiece(path, '/'), TitleSuffix);
    LastPieceIsSuffix(path, '/');
  }

  /** The lines of the instructions that open the analysis prompt, each
      with its line feed; the lines after the first keep the twelve-space
      indentation of the Python triple-quoted literal, the first two end
      with a space and the blank line is the indentation alone. */
  const AnalysisLines: seq<string> := [
    "You are DeepSeek-Coder, an AI assistant specialized in code analysis. \n",
    "            You are examining a GitHub repository that has been imported. \n",
    "            Please analyze the code and provide a detailed summary including:\n",
    "            1. The overall purpose of the repository\n",
    "            2. Key components and their functionality\n",
    "            3. The architecture and how components interact\n",
    "            4. Any notable patterns, libraries, or technologies used\n",
    "            5. Potential areas for improvement or issues\n",
    "            \n",
    "            Be thorough yet concise in your analysis."]

  const AnalysisSystemPrompt: string := Concat(AnalysisLines)

  const InfoHeading: string := "GitHub Repository Information:\n"
  const CodeHeading: string := "Code Files:\n"
  const ClosingRequest: string := "Please provide a comprehensive analysis of this repository:"

  /** The analysis prompt: the instructions, the repository summary under
      its heading, the formatted code files under theirs, and the closing
      request, separated by blank lines. */
  function AnalysisPrompt(summary: string, code: string): string
  {
    Layout(AnalysisSystemPrompt + "\n\n", InfoHeading, summary, CodeHeading, code, ClosingRequest)
  }

  /** A text made of a head, two headed sections each closed by a blank
      line, and a tail. */
  function Layout(head: string, h1: string, x: string, h2: string, y: string, tail: string): string {
    head + (h1 + x + "\n\n") + (h2 + y + "\n\n") + tail
  }

  /** Where the pieces of a `Layout` sit. */
  lemma SectionLayout(head: string, h1: string, x: string, h2: string, y: string, tail: string)
    ensures var p := Layout(head, h1, x, h2, y, tail);
      var xAt := |head| + |h1|;
      var yAt := xAt + |x| + 2 + |h2|;
      && |p| == yAt + |y| + 2 + |tail|
      && p[..|head|] == head
      && p[xAt - |h1|..xAt] == h1
      && p[xAt..xAt + |x|] == x
      && p[yAt - |h2|..yAt] == h2
      && p[yAt..yAt + |y|] == y
      && p[|p| - |tail|..] == tail
  {
    LayoutEnds(head, h1, x, h2, y, tail);
    LayoutFirst(head, h1, x, h2, y, tail);
    LayoutSecond(head, h1, x, h2, y, tail);
  }

  lemma LayoutEnds(head: string, h1: string, x: string, h2: string, y: string, tail: string)
    ensures var p := Layout(head, h1, x, h2, y, tail);
      && |p| == |head| + |h1| + |x| + 2 + |h2| + |y| + 2 + |tail|
      && p[..|head|] == head
      && p[|p| - |tail|..] == tail
  {
    var s1, s2 := h1 + x + "\n\n", h2 + y + "\n\n";
    TwoParts(head + s1 + s2, tail);
    TwoParts(head + s1, s2);
    TwoParts(head, s1);
    SliceOfSlice(head + s1 + s2 + tail, 0, head + s1 + s2, 0, |head + s1|);
    SliceOfSlice(head + s1 + s2 + tail, 0, head + s1, 0, |head|);
  }

  lemma LayoutFirst(head: string, h1: string, x: string, h2: string, y: string, tail: string)
    ensures var p := Layout(head, h1, x, h2, y, tail);
      var xAt := |head| + |h1|;
      xAt + |x| <= |p| && p[xAt - |h1|..xAt] == h1 && p[xAt..xAt + |x|] == x
  {
    var s1, s2 := h1 + x + "\n\n", h2 + y + "\n\n";
    TwoParts(head + s1 + s2, tail);
    TwoParts(head + s1, s2);
    TwoParts(head, s1);
    TwoParts(h1 + x, "\n\n");
    TwoParts(h1, x);
    SliceOfSlice(head + s1 + s2 + tail, 0, head + s1 + s2, 0, |head + s1|);
    SliceOfSlice(head + s1 + s2 + tail, 0, head + s1, |head|, |head| + |s1|);
    SliceOfSlice(head + s1 + s2 + tail, |head|, s1, 0, |h1 + x|);
    SliceOfSlice(head + s1 + s2 + tail, |head|, h1 + x, 0, |h1|);
    SliceOfSlice(head + s1 + s2 + tail, |head|, h1 + x, |h1|, |h1| + |x|);
  }

  lemma LayoutSecond(head: string, h1: string, x: string, h2: string, y: string, tail: string)
    ensures var p := Layout(head, h1, x, h2, y, tail);
      var yAt := |head| + |h1| + |x| + 2 + |h2|;
      yAt + |y| <= |p| && p[yAt - |h2|..yAt] == h2 && p[yAt..yAt + |y|] == y
  {
    var s1, s2 := h1 + x + "\n\n", h2 + y + "\n\n";
    TwoParts(head + s1 + s2, tail);
    TwoParts(head + s1, s2);
    TwoParts(h2 + y, "\n\n");
    TwoParts(h2, y);
    SliceOfSlice(head + s1 + s2 + tail, 0, head + s1 + s2, |head + s1|, |head + s1| + |s2|);
    SliceOfSlice(head + s1 + s2 + tail, |head + s1|, s2, 0, |h2 + y|);
    SliceOfSlice(head + s1 + s2 + tail, |head + s1|, h2 + y, 0, |h2|);
    SliceOfSlice(head + s1 + s2 + tail, |head + s1|, h2 + y, |h2|, |h2| + |y|);
  }

  /** The two parts of `a + b` where they sit. */
  lemma TwoParts(a: string, b: string)
    ensures (a + b)[..|a|] == a && (a + b)[|a|..] == b
  {
  }

  /** A part of a slice is a slice of the whole. */
  lemma SliceOfSlice(p: string, i: nat, s: string, a: nat, b: nat)
    requires i + |s| <= |p| && p[i..i + |s|] == s && a <= b <= |s|
    ensures p[i + a..i + b] == s[a..b]
  {
    forall k | 0 <= k < b - a ensures p[i + a..i + b][k] == s[a..b][k] {
      assert p[i + a + k] == p[i..i + |s|][a + k];
    }
  }

  /** The sections of the analysis prompt come in order: the instructions at
      the start, the summary right after its heading, the code files right
      after theirs, and the closing request at the end. */
  lemma AnalysisOrder(summary: string, code: string)
    ensures var p := AnalysisPrompt(summary, code);
      var head := AnalysisSystemPrompt + "\n\n";
      var infoAt := |head| + |InfoHeading|;
      var codeAt := infoAt + |summary| + 2 + |CodeHeading|;
      && |p| == codeAt + |code| + 2 + |ClosingRequest|
      && StartsWith(p, head)
      && p[infoAt - |InfoHeading|..infoAt] == InfoHeading
      && p[infoAt..infoAt + |summary|] == summary
      && p[codeAt - |CodeHeading|..codeAt] == CodeHeading
      && p[codeAt..codeAt + |code|] == code
      && EndsWith(p, ClosingRequest)
  {
    SectionLayout(AnalysisSystemPrompt + "\n\n", InfoHeading, summary, CodeHeading, code, ClosingRequest);
  }
}
