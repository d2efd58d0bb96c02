/** The GitHub URL helpers of the web UI: `is_valid_github_url` and
    `generate_title_from_github_url`. Parsing the URL itself (`urlparse`) is
    not modelled: each helper takes the network location (`netloc`) and the
    path of the parsed URL. */
module GithubUrls {
  import opened Text

  const GithubHost: string := "github.com"
  /** The title used when the path names no repository. */
  const FallbackTitle: string := "GitHub Import"
  /** Longest path suffix shown in a title; longer ones keep 27 characters and get "...". */
  const MaxSuffixLength: nat := 30

  /** `parsed.path.strip("/").split("/")`. */
  function PathParts(path: string): (parts: seq<string>)
    ensures |parts| >= 1
  {
    Split(StripChar(path, '/'), '/')
  }

  /** A URL is accepted when its host is github.com and its path, with
      surrounding slashes removed, still holds a slash, i.e. splits into at
      least two segments (an owner and a repository). */
  function IsValidGithubUrl(host: string, path: string): (ok: bool)
    ensures ok <==> host == GithubHost && '/' in StripChar(path, '/')
  {
    SplitAtLeastTwo(StripChar(path, '/'), '/');
    host == GithubHost && |PathParts(path)| >= 2
  }

  /** Keeps a suffix of at most 30 characters: 27 of them and "..." when longer. */
  function ShortenSuffix(s: string): (r: string)
  {
    if |s| > MaxSuffixLength then s[..27] + "..." else s
  }

  predicate IsBlobOrTree(segment: string) {
    segment == "blob" || segment == "tree"
  }

  /** The title shown for an imported repository: "owner/repo", followed by
      ": " and the (shortened) path after the branch for a blob or tree URL
      that names one, and the fallback title when the path has no repository. */
  function GithubTitle(path: string): (title: string)
    ensures title == FallbackTitle <==> |PathParts(path)| < 2
    ensures |PathParts(path)| >= 2 ==>
      var head := PathParts(path)[0] + "/" + PathParts(path)[1];
      |head| <= |title| <= |head| + 2 + MaxSuffixLength && title[..|head|] == head
  {
    var parts := PathParts(path);
    if |parts| >= 2 then
      var head := parts[0] + "/" + parts[1];
      assert head[|parts[0]|] == '/';
      if |parts| > 3 && IsBlobOrTree(parts[2]) then
        if |parts| > 4 then
          var title := head + ": " + ShortenSuffix(Join('/', parts[4..]));
          assert title[|parts[0]|] == '/';
          title
        else head
      else head
    else
      assert '/' !in FallbackTitle;
      FallbackTitle
  }

  /** A suffix appears exactly for blob/tree URLs with more than four
      segments, and it is the joined remainder of the path, cut to 27
      characters plus "..." when it is longer than 30. */
  lemma TitleSuffix(path: string)
    requires |PathParts(path)| >= 2
    ensures var parts := PathParts(path);
      var head := parts[0] + "/" + parts[1];
      var rest := if |parts| > 4 then Join('/', parts[4..]) else "";
      if |parts| > 4 && IsBlobOrTree(parts[2]) then
        GithubTitle(path) == head + ": " + ShortenSuffix(rest) &&
        |ShortenSuffix(rest)| <= MaxSuffixLength &&
        (|rest| <= MaxSuffixLength ==> ShortenSuffix(rest) == rest) &&
        (|rest| > MaxSuffixLength ==> ShortenSuffix(rest) == rest[..27] + "...")
      else GithubTitle(path) == head
  {
  }

  /** A URL the validator accepts always gets a repository title, never
      the fallback, and an accepted host with a rejected path always gets
      the fallback: the two helpers agree on what names a repository. */
  lemma ValidUrlTitled(host: string, path: string)
    requires host == GithubHost
    ensures IsValidGithubUrl(host, path) <==> GithubTitle(path) != FallbackTitle
    ensures IsValidGithubUrl(host, path) ==>
      StartsWith(GithubTitle(path), PathParts(path)[0] + "/" + PathParts(path)[1])
  {
  }
}
