/**
 * The instance-summary tool: an instance id `owner__repo-NNN` is parsed into a repository
 * path and a pull-request number, the pull-request link and the summary file's path are
 * derived from it, a Markdown summary is rendered from the fetched artifacts, and the batch
 * driver writes one summary per id, in input order, stopping at the first failure.
 *
 * The artifact downloaders, the bug-description lookup and `os.path.relpath` are external:
 * their results are inputs here (`Fetched`, `Host.relPath`).
 */
module SummarizeInstance {
  import opened Wrappers
  import opened PyStrings

  /*************************************************************************************
   * Paths
   *************************************************************************************/

  const InvestigationDataFolderName := "investigation-data"

  /** `os.path.join(a, b)` on POSIX: an absolute `b` replaces `a`. */
  function PathJoin(a: string, b: string): string {
    if |b| > 0 && b[0] == '/' then b
    else if a == [] || a[|a| - 1] == '/' then a + b
    else a + "/" + b
  }

  /** The joined path ends with `b`, and is `b` alone when `b` is absolute. */
  lemma PathJoinEndsWith(a: string, b: string)
    ensures var r := PathJoin(a, b); |b| <= |r| && r[|r| - |b|..] == b
    ensures |b| > 0 && b[0] == '/' ==> PathJoin(a, b) == b
  {
  }

  /** The investigation-data folder beside the tool, for the tool's own directory `scriptDir`. */
  function DataFolder(scriptDir: string): string {
    PathJoin(scriptDir, InvestigationDataFolderName)
  }

  const SummaryExtension := ".md"

  /** Where the summary of `id` is written: the data folder joined with the id and `SummaryExtension`. */
  function DataPath(scriptDir: string, id: string): string {
    PathJoin(DataFolder(scriptDir), id + SummaryExtension)
  }

  /** The summary's file name is the id followed by `.md`, whatever the folder. */
  lemma DataPathFileName(scriptDir: string, id: string)
    ensures var r, name := DataPath(scriptDir, id), id + SummaryExtension;
            |name| <= |r| && r[|r| - |name|..] == name
  {
    PathJoinEndsWith(DataFolder(scriptDir), id + SummaryExtension);
  }

  /** For an id that is not an absolute path, the summary sits directly in the data folder. */
  lemma DataPathInFolder(scriptDir: string, id: string)
    requires id == [] || id[0] != '/'
    ensures DataPath(scriptDir, id) == DataFolder(scriptDir) + "/" + id + SummaryExtension
  {
    var folder := DataFolder(scriptDir);
    PathJoinEndsWith(scriptDir, InvestigationDataFolderName);
    assert folder[|folder| - 1] == InvestigationDataFolderName[|InvestigationDataFolderName| - 1];
  }

  /**
   * Different ids that are not absolute paths never share a summary path string. (Two
   * path strings can still name one file, e.g. `x-1` and `./x-1`; the model keys files
   * by path text.)
   */
  lemma DataPathInjective(scriptDir: string, a: string, b: string)
    requires a == [] || a[0] != '/'
    requires b == [] || b[0] != '/'
    requires DataPath(scriptDir, a) == DataPath(scriptDir, b)
    ensures a == b
  {
    var folder := DataFolder(scriptDir) + "/";
    DataPathInFolder(scriptDir, a);
    DataPathInFolder(scriptDir, b);
    assert DataPath(scriptDir, a) == folder + (a + SummaryExtension);
    assert DataPath(scriptDir, b) == folder + (b + SummaryExtension);
    assert a + SummaryExtension == DataPath(scriptDir, a)[|folder|..];
    assert b + SummaryExtension == DataPath(scriptDir, b)[|folder|..];
    assert a == (a + SummaryExtension)[..|a|];
    assert b == (b + SummaryExtension)[..|b|];
  }

  /** An id that starts with `/` escapes the data folder: `os.path.join` drops the folder. */
  lemma DataPathAbsoluteId(scriptDir: string, id: string)
    requires |id| > 0 && id[0] == '/'
    ensures DataPath(scriptDir, id) == id + SummaryExtension
  {
  }

  /*************************************************************************************
   * Instance ids
   *************************************************************************************/

  /** Why `parse_instance_id` raises. */
  datatype ParseError =
    | MissingPrNumber                // no `-` in the id: `parts[1]` raises IndexError
    | InvalidPrNumber(suffix: string) // `int(parts[1])` raises ValueError

  /** `prefix.replace("__", "/")`: the repository path encoded in an instance id. */
  function Unescape(prefix: string): string {
    Replace(prefix, "__", "/")
  }

  /** The encoding instance ids use for a repository path: every `/` becomes `__`. */
  function Escape(repoPath: string): string {
    Replace(repoPath, "/", "__")
  }

  /** `parse_instance_id`: split at the last `-`, unescape the prefix, read the suffix with `int()`. */
  function ParseInstanceId(id: string): Result<(string, int), ParseError> {
    var parts := RSplitOnce(id, '-');
    var repoPath := Unescape(parts[0]);
    if |parts| < 2 then Failure(MissingPrNumber)
    else
      match ParseInt(parts[1])
      case None => Failure(InvalidPrNumber(parts[1]))
      case Some(n) => Success((repoPath, n))
  }

  /**
   * Parsing fails for want of a number exactly when the id has no `-`; the number it reads
   * is never negative, since the text after the last `-` holds no `-`.
   */
  lemma ParseInstanceIdSpec(id: string)
    ensures ParseInstanceId(id) == Failure(MissingPrNumber) <==> '-' !in id
    ensures ParseInstanceId(id).Success? ==> ParseInstanceId(id).value.1 >= 0
  {
    RSplitOnceSpec(id, '-');
    var parts := RSplitOnce(id, '-');
    if |parts| == 2 {
      ParseIntNoMinus(parts[1]);
    }
  }

  /**
   * The id is cut at its last `-` only: whatever precedes it, hyphens included, is the
   * repository part, and the text after it alone decides the number.
   */
  lemma ParseAtLastHyphen(prefix: string, suffix: string)
    requires '-' !in suffix
    ensures ParseInstanceId(prefix + "-" + suffix) ==
            if ParseInt(suffix).Some? then Success((Unescape(prefix), ParseInt(suffix).value))
            else Failure(InvalidPrNumber(suffix))
  {
    var id := prefix + "-" + suffix;
    LastIndexOfSpec(id, '-');
    assert id[|prefix|] == '-';
    var k := LastIndexOf(id, '-').value;
    assert k == |prefix|;
    assert id[..k] == prefix && id[k + 1..] == suffix;
  }

  /**
   * A number preceded by U+001C is no number to `int()`, although `str.strip` would remove
   * the separator: the id is rejected with that suffix.
   */
  lemma ParseInstanceIdFileSeparator()
    ensures ParseInstanceId("a-\U{1c}5") == Failure(InvalidPrNumber("\U{1c}5"))
  {
    var prefix, suffix := "a", "\U{1c}5";
    assert prefix + "-" + suffix == "a-\U{1c}5";
    IntRejectsFileSeparator();
    ParseAtLastHyphen(prefix, suffix);
  }

  /** Text without `_` passes through `replace("__", "/")` unchanged, even ahead of more text. */
  lemma {:induction false} UnescapeConcat(a: string, b: string)
    requires '_' !in a
    ensures Unescape(a + b) == a + Unescape(b)
    decreases |a|
  {
    if a != [] {
      var s := a + b;
      assert s[0] == a[0] && a[0] != '_';
      assert |s| < 2 || s[..2][0] != '_';
      assert s[1..] == a[1..] + b;
      assert Unescape(s) == [a[0]] + Unescape(a[1..] + b);
      UnescapeConcat(a[1..], b);
      assert a == [a[0]] + a[1..];
    } else {
      assert a + b == b;
    }
  }

  /** `replace` scans left to right: of three underscores the first two become `/`. */
  lemma UnescapeExample()
    ensures Unescape("a___b") == "a/_b"
  {
    UnescapeConcat("a", "___b");
    assert "a" + "___b" == "a___b";
    assert Unescape("___b") == "/" + Unescape("_b");
    UnescapeConcat("_b"[1..], []);
    assert Unescape("_b") == "_" + Unescape("b");
    UnescapeConcat("b", []);
  }

  /** After unescaping, no two underscores are adjacent: every `__` was consumed. */
  lemma {:induction false} UnescapeNoDoubleUnderscore(s: string)
    ensures forall i :: 0 <= i < |Unescape(s)| - 1 ==> !(Unescape(s)[i] == '_' && Unescape(s)[i + 1] == '_')
    decreases |s|
  {
    if |s| >= 2 && s[..2] == "__" {
      var rest := Unescape(s[2..]);
      UnescapeNoDoubleUnderscore(s[2..]);
      assert Unescape(s) == "/" + rest;
      forall i | 0 <= i < |Unescape(s)| - 1 ensures !(Unescape(s)[i] == '_' && Unescape(s)[i + 1] == '_') {
        if i > 0 {
          assert Unescape(s)[i] == rest[i - 1] && Unescape(s)[i + 1] == rest[i];
        }
      }
    } else if s != [] {
      var t := s[1..];
      var rest := Unescape(t);
      UnescapeNoDoubleUnderscore(t);
      assert Unescape(s) == [s[0]] + rest;
      if s[0] == '_' && t != [] {
        assert t[0] != '_';
        UnescapeHead(t);
      }
      forall i | 0 <= i < |Unescape(s)| - 1 ensures !(Unescape(s)[i] == '_' && Unescape(s)[i + 1] == '_') {
        if i > 0 {
          assert Unescape(s)[i] == rest[i - 1] && Unescape(s)[i + 1] == rest[i];
        }
      }
    }
  }

  /** A string that does not start with `__` keeps its first character. */
  lemma UnescapeHead(t: string)
    requires t != [] && t[0] != '_'
    ensures Unescape(t) != [] && Unescape(t)[0] == t[0]
  {
  }

  /** Escaping a repository path and unescaping it gives the path back, if it has no `_`. */
  lemma {:induction false} UnescapeEscape(repoPath: string)
    requires '_' !in repoPath
    ensures Unescape(Escape(repoPath)) == repoPath
    decreases |repoPath|
  {
    if repoPath != [] {
      var rest := repoPath[1..];
      UnescapeEscape(rest);
      if repoPath[0] == '/' {
        assert Escape(repoPath) == "__" + Escape(rest);
        assert ("__" + Escape(rest))[2..] == Escape(rest);
      } else {
        assert Escape(repoPath) == [repoPath[0]] + Escape(rest);
        UnescapeConcat([repoPath[0]], Escape(rest));
      }
    }
  }

  /** The instance id of a pull request: the escaped repository path, `-`, the number. */
  function InstanceId(repoPath: string, prNumber: nat): string {
    Escape(repoPath) + "-" + Decimal(prNumber)
  }

  /** Parsing the id of a pull request gives back its repository path and number. */
  lemma ParseInstanceIdRoundTrip(repoPath: string, prNumber: nat)
    requires '_' !in repoPath
    ensures ParseInstanceId(InstanceId(repoPath, prNumber)) == Success((repoPath, prNumber))
  {
    var digits := Decimal(prNumber);
    DigitsHaveNoHyphen(digits);
    ParseAtLastHyphen(Escape(repoPath), digits);
    ParseIntOfIntToStr(prNumber);
    UnescapeEscape(repoPath);
  }

  /** `owner__repo-N` parses to `("owner/repo", N)` when neither name holds a `_`. */
  lemma ParseOwnerRepo(owner: string, repo: string, prNumber: nat)
    requires '_' !in owner && '_' !in repo
    ensures ParseInstanceId(owner + "__" + repo + "-" + Decimal(prNumber)) == Success((owner + "/" + repo, prNumber))
  {
    var digits := Decimal(prNumber);
    DigitsHaveNoHyphen(digits);
    UnescapeOwnerRepo(owner, repo);
    ParseIntOfIntToStr(prNumber);
    assert ParseInt(digits) == Some(prNumber);
    ParseAtLastHyphen(owner + "__" + repo, digits);
  }

  /** `owner__repo` unescapes to `owner/repo` when neither name holds a `_`. */
  lemma UnescapeOwnerRepo(owner: string, repo: string)
    requires '_' !in owner && '_' !in repo
    ensures Unescape(owner + "__" + repo) == owner + "/" + repo
  {
    var tail := "__" + repo;
    assert owner + "__" + repo == owner + tail;
    UnescapeConcat(owner, tail);
    assert tail[..2] == "__" && tail[2..] == repo;
    assert Unescape(tail) == "/" + Unescape(repo);
    UnescapeConcat(repo, []);
    assert repo + [] == repo;
  }

  /*************************************************************************************
   * Links
   *************************************************************************************/

  const GitHubPrefix := "https://github.com/"

  /** `make_bug_href`: the pull request's page on GitHub; raises whatever parsing raises. */
  function MakeBugHref(id: string): Result<string, ParseError> {
    match ParseInstanceId(id)
    case Failure(e) => Failure(e)
    case Success((repoPath, prNumber)) => Success(GitHubPrefix + repoPath + "/pull/" + IntToStr(prNumber))
  }

  /**
   * The link raises what parsing raises; otherwise it is the GitHub page of the parsed
   * repository's pull request, the number written without sign or leading zeros.
   */
  lemma MakeBugHrefSpec(id: string)
    ensures ParseInstanceId(id).Failure? ==> MakeBugHref(id) == Failure(ParseInstanceId(id).error)
    ensures ParseInstanceId(id).Success? ==>
              var (repoPath, prNumber) := ParseInstanceId(id).value;
              prNumber >= 0 && MakeBugHref(id) == Success(GitHubPrefix + repoPath + "/pull/" + Decimal(prNumber))
  {
    ParseInstanceIdSpec(id);
  }

  /** The link for `owner__repo-N` is `https://github.com/owner/repo/pull/N`, `/` not encoded. */
  lemma BugHrefOwnerRepo(owner: string, repo: string, prNumber: nat)
    requires '_' !in owner && '_' !in repo
    ensures MakeBugHref(owner + "__" + repo + "-" + Decimal(prNumber))
         == Success(GitHubPrefix + owner + "/" + repo + "/pull/" + Decimal(prNumber))
  {
    var id := owner + "__" + repo + "-" + Decimal(prNumber);
    ParseOwnerRepo(owner, repo, prNumber);
    var path := owner + "/" + repo;
    assert MakeBugHref(id) == Success(GitHubPrefix + path + "/pull/" + IntToStr(prNumber));
    assert GitHubPrefix + path == GitHubPrefix + owner + "/" + repo;
  }

  /**
   * The number goes through `int` and back through `str`, so the link shows it without the
   * leading zeros the id may carry.
   */
  lemma BugHrefDropsLeadingZeros(prefix: string, digits: string)
    requires |digits| > 0 && AllDigits(digits)
    ensures MakeBugHref(prefix + "-0" + digits) == MakeBugHref(prefix + "-" + digits)
    ensures MakeBugHref(prefix + "-" + digits)
         == Success(GitHubPrefix + Unescape(prefix) + "/pull/" + Decimal(DigitsValue(digits)))
  {
    BugHrefZeroPadded(prefix, digits);
    BugHrefOfDigits(prefix, digits);
  }

  /** A zero in front of the digits leaves the link as it was. */
  lemma BugHrefZeroPadded(prefix: string, digits: string)
    requires |digits| > 0 && AllDigits(digits)
    ensures MakeBugHref(prefix + "-0" + digits) == MakeBugHref(prefix + "-" + digits)
  {
    var padded := "0" + digits;
    assert prefix + "-0" + digits == prefix + "-" + padded by {
      var dash, zero := "-", "0";
      assert "-0" == dash + zero;
      ConcatAssoc(prefix, dash, zero);
      ConcatAssoc(prefix + dash, zero, digits);
    }
    ZeroPaddedDigits(digits);
    BugHrefSameNumber(prefix, padded, digits);
  }

  /** Two suffixes that `int()` reads as the same number give the same link. */
  lemma BugHrefSameNumber(prefix: string, a: string, b: string)
    requires '-' !in a && '-' !in b
    requires ParseInt(a).Some? && ParseInt(a) == ParseInt(b)
    ensures MakeBugHref(prefix + "-" + a) == MakeBugHref(prefix + "-" + b)
  {
    ParseAtLastHyphen(prefix, a);
    ParseAtLastHyphen(prefix, b);
  }

  /** The link of `prefix-ds` for a run of digits `ds` shows the value of `ds`. */
  lemma BugHrefOfDigits(prefix: string, ds: string)
    requires |ds| > 0 && AllDigits(ds)
    ensures MakeBugHref(prefix + "-" + ds)
         == Success(GitHubPrefix + Unescape(prefix) + "/pull/" + Decimal(DigitsValue(ds)))
  {
    DigitsHaveNoHyphen(ds);
    ParseIntDigits(ds, false);
    ParseAtLastHyphen(prefix, ds);
  }

  /*************************************************************************************
   * The summary document
   *************************************************************************************/

  /** What the downloaders return for one instance. */
  datatype Artifacts = Artifacts(
    predictionLogs: seq<string>,
    predictionTrajectories: seq<string>,
    resultPatches: seq<string>,
    evalFolderHref: Option<string>,
    evalTestOutput: seq<string>)

  /** The host the tool runs on: its own directory and `os.path.relpath` to the data folder. */
  datatype Host = Host(scriptDir: string, relPath: string -> string)

  function MarkdownLink(name: string, target: string): string {
    "[" + name + "](" + target + ")"
  }

  /** One link per path, each to the path relative to the data folder, in the paths' order. */
  function Links(name: string, paths: seq<string>, relPath: string -> string): (r: seq<string>)
    ensures |r| == |paths|
  {
    seq(|paths|, i requires 0 <= i < |paths| => MarkdownLink(name, relPath(paths[i])))
  }

  /** `", ".join([f"[name]({make_relative_path(p)})" for p in paths])`. */
  function LinkList(name: string, paths: seq<string>, relPath: string -> string): string {
    Join(", ", Links(name, paths, relPath))
  }

  /** An empty list of artifacts renders as nothing at all. */
  lemma LinkListEmpty(name: string, relPath: string -> string)
    ensures LinkList(name, [], relPath) == ""
  {
  }

  /** Each further path adds `", "` and its link at the end: the links keep the paths' order. */
  lemma LinkListAppend(name: string, paths: seq<string>, path: string, relPath: string -> string)
    ensures LinkList(name, paths + [path], relPath)
         == (if paths == [] then "" else LinkList(name, paths, relPath) + ", ")
            + MarkdownLink(name, relPath(path))
  {
    var links := Links(name, paths, relPath);
    assert Links(name, paths + [path], relPath) == links + [MarkdownLink(name, relPath(path))];
    JoinAppend(", ", links, MarkdownLink(name, relPath(path)));
  }

  /** The link to the `i`-th path starts right after the links before it and one `", "`. */
  lemma LinkListItemAt(name: string, paths: seq<string>, relPath: string -> string, i: nat)
    requires i < |paths|
    ensures var link := MarkdownLink(name, relPath(paths[i]));
            var start := if i == 0 then 0 else |LinkList(name, paths[..i], relPath)| + 2;
            start + |link| <= |LinkList(name, paths, relPath)|
            && LinkList(name, paths, relPath)[start..start + |link|] == link
  {
    var links := Links(name, paths, relPath);
    assert Links(name, paths[..i], relPath) == links[..i];
    JoinItemAt(", ", links, i);
  }

  const NoEvaluation := "(no evaluation found)"

  /** What the evaluation link starts with: its label and the opening of its target. */
  const EvalFolderLinkOpen := "[Evaluation Results Folder]("

  /** The evaluation line: a link when the folder href is truthy, the placeholder otherwise. */
  function EvalFolderLine(href: Option<string>): (r: string)
    ensures r == NoEvaluation <==> href.None? || href.value == ""
    ensures href.Some? && href.value != "" ==>
              |r| > |EvalFolderLinkOpen| && EvalFolderLinkOpen <= r && href.value <= r[|EvalFolderLinkOpen|..]
  {
    if href.Some? && href.value != "" then
      var r := MarkdownLink("Evaluation Results Folder", href.value);
      assert r[0] != NoEvaluation[0];
      r
    else NoEvaluation
  }

  /** The title and the Links section, as they appear in the finished document. */
  function LinksSection(id: string, bugHref: string, a: Artifacts, relPath: string -> string): string {
    "# " + id + "\n## Links\n\n"
    + "* [PR Link](" + bugHref + ")\n"
    + "* Prediction\n"
    + "  * Run Logs: " + LinkList("Run Log", a.predictionLogs, relPath) + "\n"
    + "  * Traj Json: " + LinkList("Traj", a.predictionTrajectories, relPath) + "\n"
    + "  * " + LinkList("Patch", a.resultPatches, relPath) + "\n"
    + "* Evaluation\n"
    + "  * " + EvalFolderLine(a.evalFolderHref) + "\n"
    + "  * Eval Log: " + LinkList("Eval Log", a.evalTestOutput, relPath)
  }

  /** The f-string of `summarize_instance` before `.strip()`. */
  function Template(id: string, bugHref: string, a: Artifacts, bugMarkdown: string, relPath: string -> string): string {
    "\n" + LinksSection(id, bugHref, a, relPath) + "\n\n## Bug Data\n\n" + bugMarkdown + "\n\n"
  }

  /** Why rendering raises: the id does not parse, or the bug description could not be had. */
  datatype RenderError = BadInstanceId(error: ParseError) | BugDataUnavailable

  /**
   * The summary text. `bugMarkdown` is `None` when `get_swe_bench_instance_markdown` raised;
   * the pull-request link is computed first, so a bad id is reported ahead of it.
   */
  function Render(id: string, a: Artifacts, bugMarkdown: Option<string>, relPath: string -> string): Result<string, RenderError> {
    match MakeBugHref(id)
    case Failure(e) => Failure(BadInstanceId(e))
    case Success(href) =>
      match bugMarkdown
      case None => Failure(BugDataUnavailable)
      case Some(md) => Success(Strip(Template(id, href, a, md, relPath)))
  }

  /** Rendering fails only for an id that does not parse or a missing bug description. */
  lemma RenderFailsOnlyOn(id: string, a: Artifacts, bugMarkdown: Option<string>, relPath: string -> string)
    ensures Render(id, a, bugMarkdown, relPath).Success? <==> ParseInstanceId(id).Success? && bugMarkdown.Some?
    ensures ParseInstanceId(id).Failure? ==> Render(id, a, bugMarkdown, relPath) == Failure(BadInstanceId(ParseInstanceId(id).error))
  {
  }

  /** The text after the bug description: nothing, or a blank line and the description. */
  function BugDataTail(md: string): string {
    if RStrip(md) == "" then "" else "\n\n" + RStrip(md)
  }

  /**
   * Right-stripping `head`, whitespace, `md` and the same whitespace again keeps `head`
   * and, when `md` is not blank, the whitespace and `md` without its trailing whitespace.
   */
  lemma RStripAroundSpace(head: string, gap: string, md: string)
    requires head != [] && !IsSpace(head[|head| - 1]) && RStrip(gap) == []
    ensures RStrip(head + gap + md + gap) == if RStrip(md) == [] then head else head + gap + RStrip(md)
  {
    var x := head + gap;
    var y := md + gap;
    assert head + gap + md + gap == x + y;
    RStripAppend(x, y);
    RStripAppend(md, gap);
    RStripAppend(head, gap);
    assert RStrip(head) == head;
  }

  /** A leading newline before a `#` is all that `lstrip` removes. */
  lemma LStripNewlineHeading(body: string)
    requires body != [] && body[0] == '#'
    ensures LStrip("\n" + body) == body
  {
    assert ("\n" + body)[1..] == body;
  }

  /** Associativity of `+` on strings, called where the solver would otherwise search for it. */
  lemma ConcatAssoc(a: string, b: string, c: string)
    ensures a + b + c == a + (b + c)
  {
  }

  /** The stripped tail of the template: nothing, or the whitespace and the stripped `md`. */
  function StrippedTail(gap: string, md: string): string {
    if RStrip(md) == [] then [] else gap + RStrip(md)
  }

  /**
   * Right-stripping a newline, a heading block that ends in a non-space, whitespace, `md`
   * and the same whitespace.
   */
  lemma RStripParts(links: string, heading: string, gap: string, md: string)
    requires heading != [] && !IsSpace(heading[|heading| - 1]) && RStrip(gap) == []
    ensures RStrip("\n" + links + heading + gap + md + gap) == "\n" + (links + heading + StrippedTail(gap, md))
  {
    var block := links + heading;
    var head := "\n" + block;
    ConcatAssoc("\n", links, heading);
    RStripAroundSpace(head, gap, md);
    if RStrip(md) == [] {
      assert block + StrippedTail(gap, md) == block;
    } else {
      ConcatAssoc(head, gap, RStrip(md));
      ConcatAssoc("\n", block, gap + RStrip(md));
    }
  }

  /**
   * `.strip()` of a newline, a heading block that starts with `#` and ends in a non-space,
   * whitespace, `md` and the same whitespace.
   */
  lemma StripParts(links: string, heading: string, gap: string, md: string)
    requires links != [] && links[0] == '#'
    requires heading != [] && !IsSpace(heading[|heading| - 1]) && RStrip(gap) == []
    ensures Strip("\n" + links + heading + gap + md + gap) == links + heading + StrippedTail(gap, md)
  {
    RStripParts(links, heading, gap, md);
    LStripNewlineHeading(links + heading + StrippedTail(gap, md));
  }

  /**
   * `.strip()` of the template removes only its leading newline and the whitespace at the
   * end of the bug description.
   */
  lemma StripTemplate(links: string, md: string)
    requires links != [] && links[0] == '#'
    ensures Strip("\n" + links + "\n\n## Bug Data\n\n" + md + "\n\n") == links + "\n\n## Bug Data" + BugDataTail(md)
  {
    var heading, gap := "\n\n## Bug Data", "\n\n";
    assert "\n" + links + "\n\n## Bug Data\n\n" + md + "\n\n" == "\n" + links + heading + gap + md + gap;
    assert RStrip(gap) == [];
    StripParts(links, heading, gap, md);
  }

  /**
   * The finished document: `.strip()` removes only the template's leading newline and the
   * trailing whitespace of the bug description, so the document opens with `# <id>` and
   * ends with `## Bug Data` and the description, or with `## Bug Data` alone when the
   * description is blank.
   */
  lemma RenderedDocument(id: string, a: Artifacts, md: string, relPath: string -> string)
    requires MakeBugHref(id).Success?
    ensures Render(id, a, Some(md), relPath)
         == Success(LinksSection(id, MakeBugHref(id).value, a, relPath) + "\n\n## Bug Data" + BugDataTail(md))
  {
    var links := LinksSection(id, MakeBugHref(id).value, a, relPath);
    assert links[0] == '#';
    StripTemplate(links, md);
  }

  /** A one-element list of artifacts renders as that artifact's link alone. */
  lemma LinkListSingle(name: string, path: string, relPath: string -> string)
    ensures LinkList(name, [path], relPath) == MarkdownLink(name, relPath(path))
  {
    assert Links(name, [path], relPath) == [MarkdownLink(name, relPath(path))];
  }

  /** The pull-request link of the worked example below. */
  lemma OctocatHref()
    ensures MakeBugHref("octocat__hello-world-42") == Success("https://github.com/octocat/hello-world/pull/42")
  {
    DecimalFortyTwo();
    OctocatPieces("42");
    BugHrefOwnerRepo("octocat", "hello-world", 42);
  }

  /** `str(42)`, proved on its own so that the example's other goals stay small. */
  lemma DecimalFortyTwo()
    ensures Decimal(42) == "42"
  {
  }

  /**
   * The id and the link of the worked example, assembled from their parts. The digits come
   * in as a parameter, rather than as the literal "42", to keep the solver's work small.
   */
  lemma OctocatPieces(digits: string)
    requires digits == "42"
    ensures "octocat" + "__" + "hello-world" + "-" + digits == "octocat__hello-world-42"
    ensures GitHubPrefix + "octocat" + "/" + "hello-world" + "/pull/" + digits
         == "https://github.com/octocat/hello-world/pull/42"
  {
  }

  /**
   * A worked example: `octocat__hello-world-42` with one artifact of each kind and a
   * one-line bug description.
   */
  lemma OctocatExample(log: string, traj: string, patch: string, evalFolder: string, evalLog: string, relPath: string -> string)
    requires evalFolder != ""
    ensures Render("octocat__hello-world-42", Artifacts([log], [traj], [patch], Some(evalFolder), [evalLog]),
                   Some("Fixes off-by-one error."), relPath)
         == Success("# " + "octocat__hello-world-42" + "\n## Links\n\n"
                    + "* [PR Link](" + "https://github.com/octocat/hello-world/pull/42" + ")\n"
                    + "* Prediction\n"
                    + "  * Run Logs: " + MarkdownLink("Run Log", relPath(log)) + "\n"
                    + "  * Traj Json: " + MarkdownLink("Traj", relPath(traj)) + "\n"
                    + "  * " + MarkdownLink("Patch", relPath(patch)) + "\n"
                    + "* Evaluation\n"
                    + "  * " + MarkdownLink("Evaluation Results Folder", evalFolder) + "\n"
                    + "  * Eval Log: " + MarkdownLink("Eval Log", relPath(evalLog))
                    + "\n\n## Bug Data" + ("\n\n" + "Fixes off-by-one error."))
  {
    var id := "octocat__hello-world-42";
    var a := Artifacts([log], [traj], [patch], Some(evalFolder), [evalLog]);
    OctocatHref();
    OctocatBugData();
    RenderedDocument(id, a, "Fixes off-by-one error.", relPath);
    OctocatLinks(id, "https://github.com/octocat/hello-world/pull/42", log, traj, patch, evalFolder, evalLog, relPath);
  }

  /** The worked example's bug description has no trailing whitespace to lose. */
  lemma OctocatBugData()
    ensures BugDataTail("Fixes off-by-one error.") == "\n\n" + "Fixes off-by-one error."
  {
    var md := "Fixes off-by-one error.";
    assert RStrip(md) == md;
  }

  /** The Links section of an instance with one artifact of each kind. */
  lemma OctocatLinks(id: string, href: string, log: string, traj: string, patch: string, evalFolder: string, evalLog: string, relPath: string -> string)
    requires evalFolder != ""
    ensures LinksSection(id, href, Artifacts([log], [traj], [patch], Some(evalFolder), [evalLog]), relPath)
         == "# " + id + "\n## Links\n\n"
            + "* [PR Link](" + href + ")\n"
            + "* Prediction\n"
            + "  * Run Logs: " + MarkdownLink("Run Log", relPath(log)) + "\n"
            + "  * Traj Json: " + MarkdownLink("Traj", relPath(traj)) + "\n"
            + "  * " + MarkdownLink("Patch", relPath(patch)) + "\n"
            + "* Evaluation\n"
            + "  * " + MarkdownLink("Evaluation Results Folder", evalFolder) + "\n"
            + "  * Eval Log: " + MarkdownLink("Eval Log", relPath(evalLog))
  {
    LinkListSingle("Run Log", log, relPath);
    LinkListSingle("Traj", traj, relPath);
    LinkListSingle("Patch", patch, relPath);
    LinkListSingle("Eval Log", evalLog, relPath);
  }

  /*************************************************************************************
   * Writing summaries
   *************************************************************************************/

  /**
   * What the external calls of `summarize_instance` produced for one id. A downloader that
   * raises does so before the summary file is opened; the bug description is looked up
   * while the file is open, so `bugMarkdown == None` leaves the file truncated.
   */
  datatype Fetched =
    | RaisedBeforeOpen
    | Downloaded(artifacts: Artifacts, bugMarkdown: Option<string>)

  /** The effect of one `summarize_instance(id)` on its summary file. */
  datatype StepOutcome =
    | Written(doc: string)     // the file holds the rendered summary
    | Truncated                 // the file was opened for writing, then rendering raised
    | Untouched                 // the call raised before opening the file

  /** What `summarize_instance(id)` does to its file, given what the external calls produced. */
  function Outcome(host: Host, id: string, fetched: Fetched): StepOutcome {
    match fetched
    case RaisedBeforeOpen => Untouched
    case Downloaded(a, md) =>
      match Render(id, a, md, host.relPath)
      case Success(doc) => Written(doc)
      case Failure(_) => Truncated
  }

  /**
   * A summary is written exactly when the downloads succeed, the id parses and the bug
   * description is found; the file is left alone only when a download raised.
   */
  lemma OutcomeKinds(host: Host, id: string, fetched: Fetched)
    ensures Outcome(host, id, fetched).Written?
            <==> fetched.Downloaded? && ParseInstanceId(id).Success? && fetched.bugMarkdown.Some?
    ensures Outcome(host, id, fetched).Untouched? <==> fetched.RaisedBeforeOpen?
  {
    if fetched.Downloaded? {
      RenderFailsOnlyOn(id, fetched.artifacts, fetched.bugMarkdown, host.relPath);
    }
  }

  /** The outcome for each id of a batch. */
  function Outcomes(host: Host, ids: seq<string>, fetched: seq<Fetched>): seq<StepOutcome>
    requires |ids| == |fetched|
  {
    seq(|ids|, j requires 0 <= j < |ids| => Outcome(host, ids[j], fetched[j]))
  }

  /** The files after one `summarize_instance(id)`, and whether it returned normally. */
  datatype StepResult = StepResult(files: map<string, string>, ok: bool)

  function SummarizeStep(files: map<string, string>, scriptDir: string, id: string, outcome: StepOutcome): StepResult {
    var path := DataPath(scriptDir, id);
    match outcome
    case Written(doc) => StepResult(files[path := doc], true)
    case Truncated => StepResult(files[path := ""], false)
    case Untouched => StepResult(files, false)
  }

  /** How the loop of `main` ends: every summary written, or aborted at the `failedAt`-th id. */
  datatype BatchResult =
    | Completed(files: map<string, string>)
    | Aborted(files: map<string, string>, failedAt: nat)

  /** The loop of `main` over `ids`, `outcomes[j]` being what summarizing `ids[j]` came to. */
  function Batch(files: map<string, string>, scriptDir: string, ids: seq<string>, outcomes: seq<StepOutcome>): BatchResult
    requires |ids| == |outcomes|
    decreases |ids|
  {
    if ids == [] then Completed(files)
    else
      var n := |ids| - 1;
      match Batch(files, scriptDir, ids[..n], outcomes[..n])
      case Aborted(f, k) => Aborted(f, k)
      case Completed(f) =>
        var step := SummarizeStep(f, scriptDir, ids[n], outcomes[n]);
        if step.ok then Completed(step.files) else Aborted(step.files, |ids|)
  }

  /** The summaries a run writes when every id succeeds; a later id overwrites an earlier one. */
  function Writes(scriptDir: string, ids: seq<string>, outcomes: seq<StepOutcome>): map<string, string>
    requires |ids| == |outcomes|
    decreases |ids|
  {
    if ids == [] then map[]
    else
      var n := |ids| - 1;
      var w := Writes(scriptDir, ids[..n], outcomes[..n]);
      if outcomes[n].Written? then w[DataPath(scriptDir, ids[n]) := outcomes[n].doc] else w
  }

  predicate AllWritten(outcomes: seq<StepOutcome>) {
    forall j :: 0 <= j < |outcomes| ==> outcomes[j].Written?
  }

  /**
   * The batch runs to the end exactly when every id is summarized, and then the files are
   * the old ones overridden by the new summaries.
   */
  lemma {:induction false} BatchCompleted(files: map<string, string>, scriptDir: string, ids: seq<string>, outcomes: seq<StepOutcome>)
    requires |ids| == |outcomes|
    ensures Batch(files, scriptDir, ids, outcomes).Completed? <==> AllWritten(outcomes)
    ensures Batch(files, scriptDir, ids, outcomes).Completed? ==>
              Batch(files, scriptDir, ids, outcomes).files == files + Writes(scriptDir, ids, outcomes)
    decreases |ids|
  {
    if ids != [] {
      var n := |ids| - 1;
      BatchCompleted(files, scriptDir, ids[..n], outcomes[..n]);
      assert AllWritten(outcomes) <==> AllWritten(outcomes[..n]) && outcomes[n].Written? by {
        if AllWritten(outcomes[..n]) && outcomes[n].Written? {
          forall j | 0 <= j < |outcomes| ensures outcomes[j].Written? {
            if j < n { assert outcomes[..n][j] == outcomes[j]; }
          }
        }
      }
      var before := Batch(files, scriptDir, ids[..n], outcomes[..n]);
      if before.Completed? && outcomes[n].Written? {
        var w := Writes(scriptDir, ids[..n], outcomes[..n]);
        OverrideUpdate(files, w, DataPath(scriptDir, ids[n]), outcomes[n].doc);
      }
    }
  }

  /** Updating an override is overriding with the update. */
  lemma OverrideUpdate(a: map<string, string>, b: map<string, string>, k: string, v: string)
    ensures (a + b)[k := v] == a + b[k := v]
  {
  }

  /**
   * An abort at the `k`-th id (counting from 1) leaves exactly the summaries of ids 1..k-1,
   * plus an empty file for id `k` when it failed after opening its file; `k` is the first id
   * that failed.
   */
  lemma {:induction false} BatchAborted(files: map<string, string>, scriptDir: string, ids: seq<string>, outcomes: seq<StepOutcome>)
    requires |ids| == |outcomes|
    requires Batch(files, scriptDir, ids, outcomes).Aborted?
    ensures var k := Batch(files, scriptDir, ids, outcomes).failedAt;
            && 1 <= k <= |ids|
            && AllWritten(outcomes[..k - 1])
            && !outcomes[k - 1].Written?
            && Batch(files, scriptDir, ids, outcomes).files
               == files + Writes(scriptDir, ids[..k - 1], outcomes[..k - 1])
                  + (if outcomes[k - 1].Truncated? then map[DataPath(scriptDir, ids[k - 1]) := ""] else map[])
    decreases |ids|
  {
    var n := |ids| - 1;
    assert ids[..n + 1] == ids && outcomes[..n + 1] == outcomes;
    var before := Batch(files, scriptDir, ids[..n], outcomes[..n]);
    if before.Aborted? {
      assert Batch(files, scriptDir, ids, outcomes) == before;
      var k := before.failedAt;
      BatchAborted(files, scriptDir, ids[..n], outcomes[..n]);
      assert ids[..n][..k - 1] == ids[..k - 1] && outcomes[..n][..k - 1] == outcomes[..k - 1];
    } else {
      BatchCompleted(files, scriptDir, ids[..n], outcomes[..n]);
      AbortedAtLast(files, scriptDir, ids, outcomes);
    }
  }

  /** After a completed run of ids, an id that is not written aborts the batch at its position. */
  lemma AbortedAtLast(files: map<string, string>, scriptDir: string, ids: seq<string>, outcomes: seq<StepOutcome>)
    requires |ids| == |outcomes| && ids != []
    requires Batch(files, scriptDir, ids[..|ids| - 1], outcomes[..|ids| - 1])
             == Completed(files + Writes(scriptDir, ids[..|ids| - 1], outcomes[..|ids| - 1]))
    requires !outcomes[|ids| - 1].Written?
    ensures Batch(files, scriptDir, ids, outcomes)
         == Aborted(files + Writes(scriptDir, ids[..|ids| - 1], outcomes[..|ids| - 1])
                    + (if outcomes[|ids| - 1].Truncated? then map[DataPath(scriptDir, ids[|ids| - 1]) := ""] else map[]),
                    |ids|)
  {
    var n := |ids| - 1;
    var f := files + Writes(scriptDir, ids[..n], outcomes[..n]);
    var path := DataPath(scriptDir, ids[n]);
    if outcomes[n].Truncated? {
      assert f[path := ""] == f + map[path := ""];
    } else {
      assert f + map[] == f;
    }
  }

  /** One more id after a run of completed ones: the batch's next step is that id's step. */
  lemma BatchStep(files: map<string, string>, scriptDir: string, ids: seq<string>, outcomes: seq<StepOutcome>, i: nat,
                  current: map<string, string>)
    requires |ids| == |outcomes| && i < |ids|
    requires Batch(files, scriptDir, ids[..i], outcomes[..i]) == Completed(current)
    ensures var step := SummarizeStep(current, scriptDir, ids[i], outcomes[i]);
            Batch(files, scriptDir, ids[..i + 1], outcomes[..i + 1])
            == if step.ok then Completed(step.files) else Aborted(step.files, i + 1)
  {
    assert ids[..i + 1][..i] == ids[..i] && outcomes[..i + 1][..i] == outcomes[..i];
  }

  /** Once the first `m` ids have aborted the batch, the ids after them change nothing. */
  lemma {:induction false} AbortPersists(files: map<string, string>, scriptDir: string, ids: seq<string>, outcomes: seq<StepOutcome>, m: nat)
    requires |ids| == |outcomes| && m <= |ids|
    requires Batch(files, scriptDir, ids[..m], outcomes[..m]).Aborted?
    ensures Batch(files, scriptDir, ids, outcomes) == Batch(files, scriptDir, ids[..m], outcomes[..m])
    decreases |ids| - m
  {
    if m < |ids| {
      assert ids[..m + 1][..m] == ids[..m] && outcomes[..m + 1][..m] == outcomes[..m];
      AbortPersists(files, scriptDir, ids, outcomes, m + 1);
    } else {
      assert ids[..m] == ids && outcomes[..m] == outcomes;
    }
  }

  /** The summary paths of `ids`. */
  function SummaryPaths(scriptDir: string, ids: seq<string>): set<string>
    decreases |ids|
  {
    if ids == [] then {} else SummaryPaths(scriptDir, ids[..|ids| - 1]) + {DataPath(scriptDir, ids[|ids| - 1])}
  }

  /** A path is a summary path of `ids` exactly when it is the summary path of one of them. */
  lemma {:induction false} SummaryPathsMembers(scriptDir: string, ids: seq<string>, path: string)
    ensures path in SummaryPaths(scriptDir, ids) <==> exists j :: 0 <= j < |ids| && DataPath(scriptDir, ids[j]) == path
    decreases |ids|
  {
    if ids != [] {
      var n := |ids| - 1;
      SummaryPathsMembers(scriptDir, ids[..n], path);
      if exists j :: 0 <= j < |ids| && DataPath(scriptDir, ids[j]) == path {
        var j :| 0 <= j < |ids| && DataPath(scriptDir, ids[j]) == path;
        if j < n {
          assert ids[..n][j] == ids[j];
        }
      }
      if exists j :: 0 <= j < n && DataPath(scriptDir, ids[..n][j]) == path {
        var j :| 0 <= j < n && DataPath(scriptDir, ids[..n][j]) == path;
        assert ids[..n][j] == ids[j];
      }
    }
  }

  /** A successful run writes one summary file per id, and no other file. */
  lemma {:induction false} WritesKeys(scriptDir: string, ids: seq<string>, outcomes: seq<StepOutcome>)
    requires |ids| == |outcomes| && AllWritten(outcomes)
    ensures Writes(scriptDir, ids, outcomes).Keys == SummaryPaths(scriptDir, ids)
    decreases |ids|
  {
    if ids != [] {
      var n := |ids| - 1;
      assert AllWritten(outcomes[..n]);
      WritesKeys(scriptDir, ids[..n], outcomes[..n]);
      assert outcomes[n].Written?;
    }
  }

  /** The summary file of the `j`-th id holds its document unless a later id shares the file. */
  lemma {:induction false} WritesContents(scriptDir: string, ids: seq<string>, outcomes: seq<StepOutcome>, j: nat)
    requires |ids| == |outcomes| && j < |ids|
    requires outcomes[j].Written?
    requires forall i :: j < i < |ids| ==> DataPath(scriptDir, ids[i]) != DataPath(scriptDir, ids[j])
    ensures var path := DataPath(scriptDir, ids[j]);
            path in Writes(scriptDir, ids, outcomes) && Writes(scriptDir, ids, outcomes)[path] == outcomes[j].doc
    decreases |ids|
  {
    var n := |ids| - 1;
    if j < n {
      assert ids[..n][j] == ids[j] && outcomes[..n][j] == outcomes[j];
      forall i | j < i < n ensures DataPath(scriptDir, ids[..n][i]) != DataPath(scriptDir, ids[..n][j]) {
        assert ids[..n][i] == ids[i];
      }
      WritesContents(scriptDir, ids[..n], outcomes[..n], j);
    }
  }

  /**
   * After an abort at the `k`-th id, an id further on whose file no earlier id shares and
   * that did not exist before has no summary.
   */
  lemma NothingAfterAbort(files: map<string, string>, scriptDir: string, ids: seq<string>, outcomes: seq<StepOutcome>, j: nat)
    requires |ids| == |outcomes| && j < |ids|
    requires Batch(files, scriptDir, ids, outcomes).Aborted?
    requires Batch(files, scriptDir, ids, outcomes).failedAt <= j
    requires DataPath(scriptDir, ids[j]) !in files
    requires forall i :: 0 <= i < j ==> DataPath(scriptDir, ids[i]) != DataPath(scriptDir, ids[j])
    ensures DataPath(scriptDir, ids[j]) !in Batch(files, scriptDir, ids, outcomes).files
  {
    var k := Batch(files, scriptDir, ids, outcomes).failedAt;
    BatchAborted(files, scriptDir, ids, outcomes);
    assert AllWritten(outcomes[..k - 1]);
    WritesKeys(scriptDir, ids[..k - 1], outcomes[..k - 1]);
    var path := DataPath(scriptDir, ids[j]);
    SummaryPathsMembers(scriptDir, ids[..k - 1], path);
  }

  /** Running the same batch again over its own result, with the same outcomes, changes nothing. */
  lemma BatchIdempotent(files: map<string, string>, scriptDir: string, ids: seq<string>, outcomes: seq<StepOutcome>)
    requires |ids| == |outcomes|
    requires Batch(files, scriptDir, ids, outcomes).Completed?
    ensures Batch(Batch(files, scriptDir, ids, outcomes).files, scriptDir, ids, outcomes) == Batch(files, scriptDir, ids, outcomes)
  {
    var after := Batch(files, scriptDir, ids, outcomes).files;
    BatchCompleted(files, scriptDir, ids, outcomes);
    BatchCompleted(after, scriptDir, ids, outcomes);
    var w := Writes(scriptDir, ids, outcomes);
    assert after + w == after;
  }

  /** The progress line `main` prints before summarizing the `i`-th of `n` ids. */
  function ProgressLine(i: nat, n: nat, id: string): string {
    "Summarizing " + Decimal(i) + "/" + Decimal(n) + ": " + id
  }

  /** The progress lines of a whole batch, numbered from 1, in input order. */
  function ProgressLines(ids: seq<string>): (r: seq<string>)
    ensures |r| == |ids|
  {
    seq(|ids|, j requires 0 <= j < |ids| => ProgressLine(j + 1, |ids|, ids[j]))
  }

  /** The first `i + 1` progress lines are the first `i` and then the line of id `i + 1`. */
  lemma ProgressLinesPrefix(ids: seq<string>, i: nat)
    requires i < |ids|
    ensures ProgressLines(ids)[..i + 1] == ProgressLines(ids)[..i] + [ProgressLine(i + 1, |ids|, ids[i])]
  {
    var lines := ProgressLines(ids);
    assert lines[i] == ProgressLine(i + 1, |ids|, ids[i]);
    assert lines[..i + 1] == lines[..i] + [lines[i]];
  }

  /** The investigation-data folder's files, as the tool leaves them. */
  class InvestigationData {
    const host: Host
    var files: map<string, string>

    constructor (host: Host, files: map<string, string>)
      ensures this.host == host && this.files == files
    {
      this.host := host;
      this.files := files;
    }

    /** `summarize_instance(id)`: `ok` is false when it raises. */
    method Summarize(id: string, fetched: Fetched) returns (ok: bool)
      modifies this
      ensures StepResult(files, ok) == SummarizeStep(old(files), host.scriptDir, id, Outcome(host, id, fetched))
    {
      var path := DataPath(host.scriptDir, id);
      match fetched
      case RaisedBeforeOpen =>
        ok := false;
      case Downloaded(a, md) =>
        files := files[path := ""];
        var rendered := Render(id, a, md, host.relPath);
        if rendered.Success? {
          files := files[path := rendered.value];
          ok := true;
        } else {
          ok := false;
        }
    }

    /**
     * The loop of `main`: summarize each id in order, printing its progress line first, and
     * stop at the first that raises. `failedAt` is that id's 1-based position.
     */
    method SummarizeAll(ids: seq<string>, fetched: seq<Fetched>) returns (progress: seq<string>, failedAt: Option<nat>)
      requires |ids| == |fetched|
      modifies this
      ensures Batch(old(files), host.scriptDir, ids, Outcomes(host, ids, fetched))
           == if failedAt.None? then Completed(files) else Aborted(files, failedAt.value)
      ensures |progress| == (if failedAt.None? then |ids| else failedAt.value)
      ensures |progress| <= |ids|
      ensures progress == ProgressLines(ids)[..|progress|]
    {
      ghost var outcomes := Outcomes(host, ids, fetched);
      progress := [];
      var i := 0;
      while i < |ids|
        invariant 0 <= i <= |ids|
        invariant Batch(old(files), host.scriptDir, ids[..i], outcomes[..i]) == Completed(files)
        invariant |progress| == i
        invariant progress == ProgressLines(ids)[..i]
      {
        ProgressLinesPrefix(ids, i);
        progress := progress + [ProgressLine(i + 1, |ids|, ids[i])];
        ghost var before := files;
        var ok := Summarize(ids[i], fetched[i]);
        BatchStep(old(files), host.scriptDir, ids, outcomes, i, before);
        if !ok {
          AbortPersists(old(files), host.scriptDir, ids, outcomes, i + 1);
          return progress, Some(i + 1);
        }
        i := i + 1;
      }
      assert ids[..i] == ids && outcomes[..i] == outcomes;
      failedAt := None;
    }
  }
}
