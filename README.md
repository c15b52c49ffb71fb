# snakeoil version strings, modelled in Dafny

snakeoil's `version.py` builds the version string a project shows to its users:

```
<project> <api_version>
<summary>
```

The summary comes from a record with three fields: `rev`, `date` and `tag`.
The record is taken from the project's generated `_verinfo` module. When that module is missing, it comes from git:

- `git log` gives the last commit's revision and date.
- `git name-rev --tag` gives the tag naming that commit.

The version string is computed once and kept in the module-level `_ver`.

The model has four modules:

- `Wrappers` (wrappers.dfy): `Option` and `Result`, the result type for Python calls that may raise.
- `Text` (text.dfy): the Python text operations the code relies on, restricted to ASCII. These are `bytes.decode("ascii")`, `str.split()`, `str.splitlines()`, `startswith` and `endswith`.
- `Git` (git.dfy): `_get_git_tag` and `get_git_version`. Running git (`_run_git`) is an input of type `Runner`, a function from git's argument list to an outcome. The outcome is either its stdout bytes and exit status, or an `OSError` with an errno. The working directory is part of that function.
- `Version` (version.dfy): the summary choice, the formatting, and `get_version` itself. `get_version` is the method `GetVersion` of the class `VersionCache`, whose field `ver` is `_ver`.

The exceptions the code can raise are values of `Git.Exception`: `OSError(errno)`, `UnicodeDecodeError` and `IndexError`.

## Model

| member | source | states |
|---|---|---|
| `Text.DecodeEncode` | snakeoil/version.py:75 | ASCII decoding gives back any ASCII text from its bytes |
| `Text.DecodeRejectsHighByte` | snakeoil/version.py:75 | a byte of 128 or more makes the decoding fail (UnicodeDecodeError) |
| `Text.WordsAreWords` | snakeoil/version.py:91 | every piece `split()` returns is non-empty and free of whitespace |
| `Text.WordsOfUnwords` | snakeoil/version.py:91 | `split()` on words joined by single spaces gives back exactly those words |
| `Text.WordsOfPair` | snakeoil/version.py:91 | a name-rev line `<a> <b>\n` splits into exactly `[a, b]` |
| `Text.SplitLines` | snakeoil/version.py:75 | no line contains a line boundary; the empty text, and only it, has no lines |
| `Text.SplitLinesOfCons` | snakeoil/version.py:75 | a line followed by `\n` splits into that line, then the lines of the rest |
| `Text.SplitLinesOfUnlines` | snakeoil/version.py:75 | `splitlines()` gives back any lines, empty ones included, each ended by `\n` |
| `Git.TagNoneIff` | snakeoil/version.py:91-96 | no tag if and only if the output is not exactly two words, or the second word does not start with `tags/` |
| `Git.NoTagUnlessTwoWords` | snakeoil/version.py:91-93 | zero, one, or three or more words give no tag |
| `Git.TagShape` | snakeoil/version.py:94-102 | the tag is the part after `tags/`, less one trailing `^0` exactly when present, then one leading `v` exactly when present; it is contiguous and shorter by what was stripped, and it has no whitespace when the name has none |
| `Git.StripOrderIrrelevant` | snakeoil/version.py:97-102 | stripping `v` before `^0` would give the same tag as the code's order |
| `Git.TagOfTagName` | snakeoil/version.py:94-102 | `tags/v<t>^0` gives tag `t` for every `t` |
| `Git.TagOfPlainName` | snakeoil/version.py:94-102 | `tags/<t>` gives `t` when `t` has no leading `v` and no trailing `^0` |
| `Git.TagOfTaggedCommit` | snakeoil/version.py:89-102 | name-rev output `<rev> tags/v<t>^0\n` gives tag `t` |
| `Git.NoTagForOtherName` | snakeoil/version.py:94-96 | a second word outside `tags/` (such as `undefined`) gives no tag |
| `Git.TagExamples` | snakeoil/version.py:97-102 | `tags/v1.2^0` gives `1.2`, stripping both `^0` and `v`; `tags/vv1` gives `v1`, showing that only one `v` is stripped |
| `Git.TagStripsOneSuffix` | snakeoil/version.py:98-99 | `tags/1^0^0` gives `1^0`: only one `^0` is stripped |
| `Git.NoTagExamples` | snakeoil/version.py:92-96 | `heads/main` and empty output give no tag |
| `Git.GetGitTag` | snakeoil/version.py:89-91 | `_get_git_tag` raises an OSError exactly when the name-rev call does |
| `Git.GetGitVersion` | snakeoil/version.py:65-86 | an OSError with errno ENOENT never leaves it; a record without a tag comes only from a `git log` that ran |
| `Git.NoRecordIff` | snakeoil/version.py:70-73 | None if and only if `git log` ran and exited with a non-zero status |
| `Git.RecordFromLog` | snakeoil/version.py:75-81 | on exit status 0 with two or more lines: rev is line 1, date is line 2, and tag is `_get_git_tag` of that rev; an ENOENT from name-rev gives the unknown record, and other errors propagate |
| `Git.ShortLogRaises` | snakeoil/version.py:75-79 | fewer than two lines raise IndexError, with no fallback |
| `Git.LogOsError` | snakeoil/version.py:82-86 | ENOENT gives `{rev, date, tag} = "unknown"`; any other errno is re-raised |
| `Git.RecordOfTaggedCommit` | snakeoil/version.py:65-102 | `git log` printing `<rev>\n<date>\n` plus name-rev naming `tags/v<t>^0` give the record `(rev, date, t)` |
| `Git.DependsOnlyOnTwoCalls` | snakeoil/version.py:69-80 | the result depends only on git's answers to `git log` and to name-rev for a revision |
| `Version.LookupVersionInfo` | snakeoil/version.py:25-36 | an importable `_verinfo` supplies the record as it is, and git is not consulted |
| `Version.ResolveVersion` | snakeoil/version.py:24-46 | computing the string fails if and only if `_verinfo` is missing and `get_git_version` raises |
| `Version.SummaryCases` | snakeoil/version.py:38-44 | with no record the summary is the unavailable text, and only then; `released <date>` appears exactly when the tag equals the API version, and a None tag never does; otherwise the summary is `vcs version <rev>, date <date>`, with the date after that prefix |
| `Version.DescribeLines` | snakeoil/version.py:46 | the first line is `<project> <api_version>`; the lines that follow are the summary's |
| `Version.MissingGitVersion` | snakeoil/version.py:25-46 | with no `_verinfo` and no git binary, the string reads `vcs version unknown, date unknown` unless the API version is `unknown` |
| `Version.UnknownSummary` | snakeoil/version.py:40-44 | the unknown record, whose tag is `"unknown"`, summarises as `vcs version unknown, date unknown` for any other API version |
| `Version.EmptyVerinfoVersion` | snakeoil/version.py:28-39 | a `_verinfo` holding None yields the unavailable text |
| `Version.VersionCache.constructor` | snakeoil/version.py:10 | `_ver` starts unset |
| `Version.VersionCache.GetVersion` | snakeoil/version.py:13-47 | the first call computes the string and caches it; once set, every call returns the cached string, whatever its arguments; a call that raises leaves the cache unset |
| `Version.SecondCallReturnsCached` | snakeoil/version.py:23-47 | after a first call that returns, a second call returns the same string, whatever its arguments |

## Left out

- Process I/O in `_run_git` (version.py:50-62) is not modelled: the subprocess, the environment copy with `LC_CTYPE=C` and the devnull stderr. It is the `Runner` input, so git's answers are whatever the caller supplies.
- `os.path.abspath` and `os.path.dirname` (version.py:33, 68) are folded into the `Runner`, which belongs to one working directory.
- `import_module(project)` and `getattr(..., '__version__')` (version.py:26) are dynamic imports. The API version is a string parameter, and an ImportError or AttributeError there is not modelled.
- The `_verinfo` import (version.py:28-30) is a parameter, either missing or holding a `version_info` value. A `_verinfo` without `version_info` (an AttributeError) is not modelled.
- The ImportError that the inner `except ImportError` (version.py:35-36) catches could only come from `import subprocess` inside `_run_git`, so it is not modelled.
- The record's fields, and the API version, are strings. Python would also format and compare other objects there.
- The model covers only ASCII text. `decode("ascii")` accepts nothing else, and only the ASCII cases of `str.split()` whitespace and `str.splitlines()` boundaries are needed.
- `ENOENT` is 2, its value on Linux. Other platforms are not modelled.
