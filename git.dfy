/**
 * What version.py learns from git: the latest commit (`get_git_version`,
 * snakeoil/version.py:65-86) and its nearest tag (`_get_git_tag`,
 * snakeoil/version.py:89-102). The process call `_run_git` is an input:
 * a function from git's arguments to the outcome of running it.
 */
module Git {
  import opened Wrappers
  import opened Text

  /** `errno.ENOENT` (Linux): the git binary could not be found. */
  const ENOENT: int := 2

  /** What running git ends in: its standard output and exit status, or an
      `OSError` (an `EnvironmentError`) carrying an errno. */
  datatype RunOutcome = Ran(stdout: seq<Byte>, returncode: int) | OsError(errno: int)

  /** `_run_git(cwd, cmd)` for the fixed working directory: the outcome of
      running git with the arguments `cmd`. */
  type Runner = seq<string> -> RunOutcome

  /** The exceptions that can leave `get_git_version`. */
  datatype Exception = OSError(errno: int) | UnicodeDecodeError | IndexError

  /** The record `get_git_version` returns; `tag` is None when no tag names
      the commit. */
  datatype VersionInfo = VersionInfo(rev: string, date: string, tag: Option<string>)

  /** The record that stands in when git is not installed. */
  const UnknownInfo := VersionInfo("unknown", "unknown", Some("unknown"))

  const LogArgs: seq<string> := ["log", "--format=%H\n%ad", "HEAD^..HEAD"]

  function NameRevArgs(rev: string): seq<string> {
    ["name-rev", "--tag", rev]
  }

  const TagsPrefix: string := "tags/"

  // ------------------------------------------------------------ the tag

  /** What `_get_git_tag` makes of the second word of the name-rev output:
      no tag unless it starts with `tags/`; otherwise the rest, cleaned of one
      trailing `^0` and then one leading `v`. */
  function TagOfName(name: string): Option<string> {
    if !StartsWith(name, TagsPrefix) then None
    else
      var afterPrefix := name[|TagsPrefix|..];
      var noSuffix := if EndsWith(afterPrefix, "^0") then afterPrefix[..|afterPrefix| - 2] else afterPrefix;
      var noLead := if StartsWith(noSuffix, "v") then noSuffix[1..] else noSuffix;
      Some(noLead)
  }

  /** The tag `_get_git_tag` derives from the decoded `git name-rev --tag`
      output, which must be exactly two whitespace-separated words. */
  function TagFromNameRev(out: string): Option<string> {
    var words := Words(out);
    if |words| != 2 then None else TagOfName(words[1])
  }

  /** No tag exactly when the output is not two words or the second does not
      start with `tags/`. */
  lemma TagNoneIff(out: string)
    ensures TagFromNameRev(out).None? <==>
              |Words(out)| != 2 || !StartsWith(Words(out)[1], TagsPrefix)
  {
  }

  /** Output of no words, one word, or three or more has no tag, whatever the
      words say. */
  lemma NoTagUnlessTwoWords(out: string)
    requires |Words(out)| != 2
    ensures TagFromNameRev(out) == None
  {
  }

  /** The tag is what remains of the name after `tags/`, less one leading `v`
      (`lead` == 1) and one trailing `^0` (`trail` == 2), each stripped
      exactly when present, the `^0` first. It is a contiguous piece of the
      name, `lead + trail` shorter than the part after `tags/`, and has no
      whitespace when the name has none. */
  lemma TagShape(name: string) returns (lead: nat, trail: nat)
    requires StartsWith(name, TagsPrefix)
    ensures TagOfName(name).Some?
    ensures var b := name[|TagsPrefix|..];
            && lead <= 1 && (trail == 0 || trail == 2) && lead + trail <= |b|
            && TagOfName(name).value == b[lead..|b| - trail]
            && (trail == 2 <==> EndsWith(b, "^0"))
            && (lead == 1 <==> StartsWith(b[..|b| - trail], "v"))
    ensures |TagOfName(name).value| == |name| - |TagsPrefix| - lead - trail
    ensures NoSpace(name) ==> NoSpace(TagOfName(name).value)
  {
    var b := name[|TagsPrefix|..];
    trail := if EndsWith(b, "^0") then 2 else 0;
    var c := b[..|b| - trail];
    lead := if StartsWith(c, "v") then 1 else 0;
    assert c[lead..] == b[lead..|b| - trail];
    assert forall i :: lead <= i < |b| - trail ==> b[i] == name[|TagsPrefix| + i];
  }

  /** Stripping the leading `v` before the trailing `^0` would give the same
      tag: the two never overlap, since `v` is neither `^` nor `0`. */
  lemma StripOrderIrrelevant(b: string)
    ensures var noSuffix := if EndsWith(b, "^0") then b[..|b| - 2] else b;
            var vFirst := if StartsWith(b, "v") then b[1..] else b;
            (if StartsWith(noSuffix, "v") then noSuffix[1..] else noSuffix)
            == (if EndsWith(vFirst, "^0") then vFirst[..|vFirst| - 2] else vFirst)
  {
    if StartsWith(b, "v") && EndsWith(b, "^0") {
      assert b[0] == 'v';
      assert b[|b| - 2] == '^';
      assert |b| >= 3;
      var vFirst := b[1..];
      assert vFirst[|vFirst| - 2..] == b[|b| - 2..];
      assert b[..|b| - 2][..1] == b[..1];
    } else if StartsWith(b, "v") {
      var vFirst := b[1..];
      if |vFirst| >= 2 {
        assert vFirst[|vFirst| - 2..] == b[|b| - 2..];
      }
    } else if EndsWith(b, "^0") {
      if |b| >= 3 {
        assert b[..|b| - 2][..1] == b[..1];
      }
    }
  }

  /** `tags/v<tag>^0`, the way name-rev names a tagged commit, gives back
      `<tag>` for every tag (one starting with `v` or ending in `^0`
      included). */
  lemma TagOfTagName(tag: string)
    ensures TagOfName("tags/v" + tag + "^0") == Some(tag)
  {
    var name := "tags/v" + tag + "^0";
    assert name[..5] == TagsPrefix;
    var b := name[5..];
    assert b == "v" + tag + "^0";
    assert b[|b| - 2..] == "^0";
    assert b[..|b| - 2] == "v" + tag;
    assert ("v" + tag)[1..] == tag;
  }

  /** A tag name with neither a leading `v` nor a trailing `^0` comes back
      unchanged. */
  lemma TagOfPlainName(tag: string)
    requires !StartsWith(tag, "v") && !EndsWith(tag, "^0")
    ensures TagOfName("tags/" + tag) == Some(tag)
  {
    var name := "tags/" + tag;
    assert name[..5] == TagsPrefix;
    assert name[5..] == tag;
  }

  /** The tag round-trips through name-rev's line for a tagged commit,
      `<rev> tags/v<tag>^0`, for any tag without whitespace. */
  lemma TagOfTaggedCommit(rev: string, tag: string)
    requires IsWord(rev) && NoSpace(tag)
    ensures TagFromNameRev(rev + " tags/v" + tag + "^0\n") == Some(tag)
  {
    var name := "tags/v" + tag + "^0";
    assert IsWord(name) by {
      assert forall i :: 6 <= i < 6 + |tag| ==> name[i] == tag[i - 6];
    }
    assert rev + " tags/v" + tag + "^0\n" == rev + " " + name + "\n";
    WordsOfPair(rev, name);
    TagOfTagName(tag);
  }

  /** A commit that name-rev names by something other than a tag (git
      prints `undefined` when nothing fits) has no tag. */
  lemma NoTagForOtherName(rev: string, name: string)
    requires IsWord(rev) && IsWord(name) && !StartsWith(name, TagsPrefix)
    ensures TagFromNameRev(rev + " " + name + "\n") == None
  {
    WordsOfPair(rev, name);
  }

  /** The strips at work: `^0` and `v` both go, and only one `v` is stripped. */
  lemma TagExamples()
    ensures TagOfName("tags/v1.2^0") == Some("1.2")
    ensures TagOfName("tags/vv1") == Some("v1")
  {
    assert TagOfName("tags/v1.2^0") == Some("1.2") by {
      assert "tags/v1.2^0" == "tags/v" + "1.2" + "^0";
      TagOfTagName("1.2");
    }
    var name := "tags/vv1";
    assert name[..5] == TagsPrefix;
    assert name[5..] == "vv1";
  }

  /** Only one `^0` is stripped. */
  lemma TagStripsOneSuffix()
    ensures TagOfName("tags/1^0^0") == Some("1^0")
  {
    var name := "tags/1^0^0";
    assert name[..5] == TagsPrefix;
    assert name[5..] == "1^0^0";
    assert "1^0^0"[3..] == "^0" && "1^0^0"[..3] == "1^0";
    assert EndsWith("1^0^0", "^0");
    assert !StartsWith("1^0", "v") by { assert "1^0"[..1][0] != "v"[0]; }
  }

  lemma NoTagExamples()
    ensures TagOfName("heads/main") == None
    ensures TagFromNameRev("") == None
  {
    assert "heads/main"[..5][0] != TagsPrefix[0];
  }

  // ------------------------------------------------------------- the calls

  /** `_get_git_tag(cwd, rev)`: runs `git name-rev --tag <rev>`, ignoring its
      exit status; an `OSError` of the call and a failed ASCII decoding are
      raised. */
  function GetGitTag(git: Runner, rev: string): (r: Result<Option<string>, Exception>)
    ensures git(NameRevArgs(rev)).OsError? <==> r.Err? && r.error.OSError?
  {
    match git(NameRevArgs(rev))
    case OsError(e) => Err(OSError(e))
    case Ran(out, _) =>
      match DecodeAscii(out)
      case None => Err(UnicodeDecodeError)
      case Some(text) => Ok(TagFromNameRev(text))
  }

  /** The body of the `try` in `get_git_version`, before its
      `except EnvironmentError`. */
  function GitVersionTry(git: Runner): Result<Option<VersionInfo>, Exception> {
    match git(LogArgs)
    case OsError(e) => Err(OSError(e))
    case Ran(out, ret) =>
      if ret != 0 then Ok(None)
      else
        match DecodeAscii(out)
        case None => Err(UnicodeDecodeError)
        case Some(text) =>
          var data := SplitLines(text);
          if |data| < 2 then Err(IndexError)
          else
            var tag :- GetGitTag(git, data[0]);
            Ok(Some(VersionInfo(data[0], data[1], tag)))
  }

  /** `get_git_version(cwd)`: an `OSError` with errno ENOENT, from either git
      call, becomes the all-"unknown" record; every other exception is
      raised. */
  function GetGitVersion(git: Runner): (r: Result<Option<VersionInfo>, Exception>)
    ensures r.Err? ==> r.error != OSError(ENOENT)
    ensures r.Ok? && r.value.Some? && r.value.value.tag == None ==> git(LogArgs).Ran?
  {
    var res := GitVersionTry(git);
    if res.Err? && res.error.OSError? && res.error.errno == ENOENT then Ok(Some(UnknownInfo))
    else res
  }

  /** No record exactly when `git log` ran and exited with a non-zero
      status. */
  lemma NoRecordIff(git: Runner)
    ensures GetGitVersion(git) == Ok(None) <==>
              git(LogArgs).Ran? && git(LogArgs).returncode != 0
  {
  }

  /** A successful `git log` printing at least two lines: the first is the
      revision, the second the date, and the tag is the one name-rev gives
      for that revision. */
  lemma RecordFromLog(git: Runner, text: string)
    requires git(LogArgs).Ran? && git(LogArgs).returncode == 0
    requires DecodeAscii(git(LogArgs).stdout) == Some(text)
    requires |SplitLines(text)| >= 2
    ensures var rev := SplitLines(text)[0];
            match GetGitTag(git, rev)
            case Ok(tag) => GetGitVersion(git) == Ok(Some(VersionInfo(rev, SplitLines(text)[1], tag)))
            case Err(e) => GetGitVersion(git) == if e == OSError(ENOENT) then Ok(Some(UnknownInfo)) else Err(e)
  {
  }

  /** Fewer than two lines is an IndexError, not a fallback, and name-rev is
      not consulted. */
  lemma ShortLogRaises(git: Runner, text: string)
    requires git(LogArgs).Ran? && git(LogArgs).returncode == 0
    requires DecodeAscii(git(LogArgs).stdout) == Some(text)
    requires |SplitLines(text)| < 2
    ensures GetGitVersion(git) == Err(IndexError)
  {
  }

  /** A missing git binary (ENOENT on the `git log` call) gives the
      all-"unknown" record; any other errno is raised. */
  lemma LogOsError(git: Runner)
    requires git(LogArgs).OsError?
    ensures GetGitVersion(git) ==
              if git(LogArgs).errno == ENOENT then Ok(Some(UnknownInfo))
              else Err(OSError(git(LogArgs).errno))
  {
  }

  /** The whole path for a tagged commit: `git log` printing `<rev>\n<date>\n`
      and name-rev naming `tags/v<tag>^0` give the record of that revision,
      date and tag. */
  lemma RecordOfTaggedCommit(git: Runner, rev: string, date: string, tag: string, status: int)
    requires IsWord(rev) && IsAscii(rev) && NoLineBreak(date) && IsAscii(date)
    requires NoSpace(tag) && IsAscii(tag)
    requires git(LogArgs) == Ran(EncodeAscii(rev + "\n" + date + "\n"), 0)
    requires git(NameRevArgs(rev)) == Ran(EncodeAscii(rev + " tags/v" + tag + "^0\n"), status)
    ensures GetGitVersion(git) == Ok(Some(VersionInfo(rev, date, Some(tag))))
  {
    DecodeEncode(rev + "\n" + date + "\n");
    DecodeEncode(rev + " tags/v" + tag + "^0\n");
    WordHasNoLineBreak(rev);
    assert Unlines([rev, date]) == rev + "\n" + date + "\n" by {
      assert Unlines([rev, date][1..]) == date + "\n" + Unlines([]);
    }
    SplitLinesOfUnlines([rev, date]);
    TagOfTaggedCommit(rev, tag);
  }

  /** Only the answers to the two git calls matter: runners that agree on
      `git log` and on name-rev for the logged revision give the same
      result. */
  lemma DependsOnlyOnTwoCalls(git1: Runner, git2: Runner)
    requires git1(LogArgs) == git2(LogArgs)
    requires forall rev :: git1(NameRevArgs(rev)) == git2(NameRevArgs(rev))
    ensures GetGitVersion(git1) == GetGitVersion(git2)
  {
  }
}
