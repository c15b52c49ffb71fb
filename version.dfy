/**
 * `get_version` (snakeoil/version.py:13-47): the version string of a
 * project, computed on the first call and cached in the module-level `_ver`
 * for every later one.
 */
module Version {
  import opened Wrappers
  import opened Text
  import opened Git

  /** Importing `<project>._verinfo`: it is either missing (ImportError) or
      provides a `version_info` value, a record or None. */
  datatype VerinfoImport = Missing | Imported(versionInfo: Option<VersionInfo>)

  const Unavailable: string := "extended version info unavailable"

  /** The record `get_version` works from: the one `_verinfo` provides, or,
      when that module is missing, whatever git reports; an exception of
      `get_git_version` propagates. */
  function LookupVersionInfo(verinfo: VerinfoImport, git: Runner): (r: Result<Option<VersionInfo>, Exception>)
    ensures verinfo.Imported? ==> r == Ok(verinfo.versionInfo)
  {
    match verinfo
    case Imported(info) => Ok(info)
    case Missing => GetGitVersion(git)
  }

  /** The second line of the version string. */
  function Summary(info: Option<VersionInfo>, apiVersion: string): string {
    if info.None? then Unavailable
    else if info.value.tag == Some(apiVersion) then "released " + info.value.date
    else "vcs version " + info.value.rev + ", date " + info.value.date
  }

  /** `'%s %s\n%s' % (project, api_version, s)`. */
  function Describe(project: string, apiVersion: string, info: Option<VersionInfo>): string {
    project + " " + apiVersion + "\n" + Summary(info, apiVersion)
  }

  /** What the first call of `get_version` returns or raises. */
  function ResolveVersion(project: string, apiVersion: string, verinfo: VerinfoImport, git: Runner)
    : (r: Result<string, Exception>)
    ensures r.Err? <==> verinfo.Missing? && GetGitVersion(git).Err?
  {
    var info :- LookupVersionInfo(verinfo, git);
    Ok(Describe(project, apiVersion, info))
  }

  /** The three summaries are told apart by their opening words: the
      fallback text, `released <date>` exactly when the record's tag is the
      API version (a record without a tag never is), and otherwise
      `vcs version <rev>, date <date>`. */
  lemma SummaryCases(info: Option<VersionInfo>, apiVersion: string)
    ensures info.None? ==> Summary(info, apiVersion) == Unavailable
    ensures info.Some? ==>
              (StartsWith(Summary(info, apiVersion), "released ") <==> info.value.tag == Some(apiVersion))
    ensures info.Some? && info.value.tag == Some(apiVersion) ==>
              Summary(info, apiVersion)[|"released "|..] == info.value.date
    ensures info.Some? && info.value.tag != Some(apiVersion) ==>
              StartsWith(Summary(info, apiVersion), "vcs version " + info.value.rev + ", date ")
              && Summary(info, apiVersion)[|"vcs version " + info.value.rev + ", date "|..] == info.value.date
    ensures info.Some? && info.value.tag.None? ==> !StartsWith(Summary(info, apiVersion), "released ")
    ensures Summary(info, apiVersion) == Unavailable <==> info.None?
  {
    var s := Summary(info, apiVersion);
    if info.Some? {
      if info.value.tag == Some(apiVersion) {
        assert s[..9] == "released ";
        assert s != Unavailable by { assert s[0] != Unavailable[0]; }
      } else {
        var p := "vcs version " + info.value.rev + ", date ";
        assert s == p + info.value.date;
        assert s[..|p|] == p;
        assert s[|p|..] == info.value.date;
        assert s[0] == 'v';
        assert !StartsWith(s, "released ") by { assert s[..9][0] != "released "[0]; }
        assert s != Unavailable by { assert s[0] != Unavailable[0]; }
      }
    }
  }

  /** The version string is two parts: its first line is
      `<project> <api_version>` and the lines after it are the summary's. */
  lemma DescribeLines(project: string, apiVersion: string, info: Option<VersionInfo>)
    requires NoLineBreak(project) && NoLineBreak(apiVersion)
    ensures SplitLines(Describe(project, apiVersion, info))
            == [project + " " + apiVersion] + SplitLines(Summary(info, apiVersion))
  {
    var head := project + " " + apiVersion;
    assert NoLineBreak(head) by {
      assert forall i :: 0 <= i < |project| ==> head[i] == project[i];
      assert forall i :: |project| < i < |head| ==> head[i] == apiVersion[i - |project| - 1];
    }
    SplitLinesOfCons(head, Summary(info, apiVersion));
  }

  /** When git is not installed, the all-"unknown" record describes a
      development version, unless the API version is itself "unknown". */
  lemma MissingGitVersion(project: string, apiVersion: string, git: Runner)
    requires git(LogArgs) == OsError(ENOENT) && apiVersion != "unknown"
    ensures ResolveVersion(project, apiVersion, Missing, git)
            == Ok(project + " " + apiVersion + "\n" + "vcs version unknown, date unknown")
  {
    assert LookupVersionInfo(Missing, git) == Ok(Some(UnknownInfo)) by { LogOsError(git); }
    UnknownSummary(apiVersion);
    assert Describe(project, apiVersion, Some(UnknownInfo))
        == project + " " + apiVersion + "\n" + "vcs version unknown, date unknown";
  }

  lemma UnknownSummary(apiVersion: string)
    requires apiVersion != "unknown"
    ensures Summary(Some(UnknownInfo), apiVersion) == "vcs version unknown, date unknown"
  {
    assert UnknownInfo.tag != Some(apiVersion);
    var s := "vcs version " + UnknownInfo.rev + ", date " + UnknownInfo.date;
    assert Summary(Some(UnknownInfo), apiVersion) == s;
    assert s == "vcs version unknown, date unknown";
  }

  /** A `_verinfo` whose `version_info` is None gives the unavailable
      summary. */
  lemma EmptyVerinfoVersion(project: string, apiVersion: string, git: Runner)
    ensures ResolveVersion(project, apiVersion, Imported(None), git)
            == Ok(project + " " + apiVersion + "\n" + Unavailable)
  {
    assert LookupVersionInfo(Imported(None), git) == Ok(None);
  }

  /** The module-level cache `_ver` of version.py. */
  class VersionCache {
    var ver: Option<string>

    /** The module as first imported: `_ver = None`. */
    constructor ()
      ensures ver == None
    {
      ver := None;
    }

    /** `get_version(project, repo_file)`. The project's `__version__`, the
        `_verinfo` import and git (run in the directory of `repo_file`) are
        inputs. The first call that returns caches its string; from then on
        every call returns that string whatever its arguments. A call that
        raises leaves the cache unset. */
    method GetVersion(project: string, apiVersion: string, verinfo: VerinfoImport, git: Runner)
      returns (r: Result<string, Exception>)
      modifies this
      ensures old(ver).Some? ==> r == Ok(old(ver).value) && ver == old(ver)
      ensures old(ver).None? ==> r == ResolveVersion(project, apiVersion, verinfo, git)
      ensures old(ver).None? ==> ver == if r.Ok? then Some(r.value) else None
    {
      if ver.None? {
        var info := LookupVersionInfo(verinfo, git);
        if info.Err? {
          return Err(info.error);
        }
        ver := Some(Describe(project, apiVersion, info.value));
      }
      r := Ok(ver.value);
    }
  }

  /** Two calls in a fresh interpreter: the first computes the version
      string; once it has returned one, the second returns the same string,
      whatever it is asked. */
  method SecondCallReturnsCached(project1: string, apiVersion1: string, verinfo1: VerinfoImport, git1: Runner,
                                 project2: string, apiVersion2: string, verinfo2: VerinfoImport, git2: Runner)
    returns (first: Result<string, Exception>, second: Result<string, Exception>)
    ensures first == ResolveVersion(project1, apiVersion1, verinfo1, git1)
    ensures first.Ok? ==> second == first
    ensures first.Err? ==> second == ResolveVersion(project2, apiVersion2, verinfo2, git2)
  {
    var cache := new VersionCache();
    first := cache.GetVersion(project1, apiVersion1, verinfo1, git1);
    second := cache.GetVersion(project2, apiVersion2, verinfo2, git2);
  }
}
