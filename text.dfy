/**
 * The pieces of Python's text handling that version.py relies on, restricted
 * to ASCII: `bytes.decode("ascii")`, `str.split()` with no separator and
 * `str.splitlines()`.
 */
module Text {
  import opened Wrappers

  /** One byte of a child process's standard output. */
  type Byte = b: int | 0 <= b < 256

  predicate IsAscii(s: string) {
    forall i :: 0 <= i < |s| ==> s[i] as int < 128
  }

  /** `bytes.decode("ascii")`: `None` stands for the UnicodeDecodeError raised
      by a byte of 128 or more. */
  function DecodeAscii(bs: seq<Byte>): Option<string> {
    if forall i :: 0 <= i < |bs| ==> bs[i] < 128
    then Some(seq(|bs|, i requires 0 <= i < |bs| => (bs[i] as char)))
    else None
  }

  /** The bytes of an ASCII string; used to state what decoding gives back. */
  function EncodeAscii(s: string): (bs: seq<Byte>)
    requires IsAscii(s)
  {
    seq(|s|, i requires 0 <= i < |s| => s[i] as int)
  }

  lemma DecodeEncode(s: string)
    requires IsAscii(s)
    ensures DecodeAscii(EncodeAscii(s)) == Some(s)
  {
    var bs := EncodeAscii(s);
    assert forall i :: 0 <= i < |bs| ==> bs[i] < 128;
    assert seq(|bs|, i requires 0 <= i < |bs| => (bs[i] as char)) == s;
  }

  lemma DecodeRejectsHighByte(bs: seq<Byte>, k: nat)
    requires k < |bs| && bs[k] >= 128
    ensures DecodeAscii(bs) == None
  {
  }

  // ---------------------------------------------------------------- split()

  /** The ASCII characters Python's `str.isspace` accepts: tab, line feed,
      vertical tab, form feed, carriage return, the four separators 0x1C-0x1F
      and the space. */
  predicate IsSpace(c: char) {
    9 <= c as int <= 13 || 28 <= c as int <= 32
  }

  predicate NoSpace(s: string) {
    forall i :: 0 <= i < |s| ==> !IsSpace(s[i])
  }

  /** What `str.split()` can return: non-empty runs without whitespace. */
  predicate IsWord(w: string) {
    w != [] && NoSpace(w)
  }

  /** Drops the leading whitespace of `s`. */
  function SkipSpace(s: string): (t: string)
    ensures |t| <= |s| && t == s[|s| - |t|..]
    ensures t == [] || !IsSpace(t[0])
    ensures forall i :: 0 <= i < |s| - |t| ==> IsSpace(s[i])
  {
    if s != [] && IsSpace(s[0]) then SkipSpace(s[1..]) else s
  }

  /** The length of the longest prefix of `s` without whitespace. */
  function WordLength(s: string): (n: nat)
    ensures n <= |s|
    ensures NoSpace(s[..n])
    ensures n < |s| ==> IsSpace(s[n])
  {
    if s == [] || IsSpace(s[0]) then 0 else 1 + WordLength(s[1..])
  }

  /** `str.split()`: the maximal whitespace-free runs of `s`, in order. */
  function Words(s: string): seq<string>
    decreases |s|
  {
    var t := SkipSpace(s);
    if t == [] then []
    else
      var n := WordLength(t);
      assert n != 0 by { assert !IsSpace(t[0]); }
      [t[..n]] + Words(t[n..])
  }

  /** Every piece `split()` returns is non-empty and free of whitespace. */
  lemma {:induction false} WordsAreWords(s: string)
    ensures forall k :: 0 <= k < |Words(s)| ==> IsWord(Words(s)[k])
    decreases |s|
  {
    var t := SkipSpace(s);
    if t != [] {
      var n := WordLength(t);
      assert n != 0 by { assert !IsSpace(t[0]); }
      var rest := Words(t[n..]);
      WordsAreWords(t[n..]);
      var ws := Words(s);
      assert ws == [t[..n]] + rest;
      forall k | 0 <= k < |ws| ensures IsWord(ws[k]) {
        if k > 0 { assert ws[k] == rest[k - 1]; }
      }
    }
  }

  lemma {:induction false} WordLengthOfWord(w: string, rest: string)
    requires NoSpace(w)
    requires rest == [] || IsSpace(rest[0])
    ensures WordLength(w + rest) == |w|
  {
    if w != [] {
      assert (w + rest)[1..] == w[1..] + rest;
      WordLengthOfWord(w[1..], rest);
    }
  }

  lemma WordsSkipsSpace(c: char, s: string)
    requires IsSpace(c)
    ensures Words([c] + s) == Words(s)
  {
    assert ([c] + s)[1..] == s;
  }

  lemma WordsOfWord(w: string)
    requires IsWord(w)
    ensures Words(w) == [w]
  {
    WordLengthOfWord(w, []);
    assert w + [] == w;
    assert w[|w|..] == [];
  }

  /** Splitting a word followed by a whitespace character and more text gives
      the word, then the words of the rest. */
  lemma WordsOfCons(w: string, c: char, s: string)
    requires IsWord(w) && IsSpace(c)
    ensures Words(w + [c] + s) == [w] + Words(s)
  {
    var t := w + [c] + s;
    assert t == w + ([c] + s);
    WordLengthOfWord(w, [c] + s);
    assert t[..|w|] == w;
    assert t[|w|..] == [c] + s;
    WordsSkipsSpace(c, s);
  }

  /** The words of two words separated by a space and followed by a newline:
      the shape of one line of `git name-rev` output. */
  lemma WordsOfPair(a: string, b: string)
    requires IsWord(a) && IsWord(b)
    ensures Words(a + " " + b + "\n") == [a, b]
  {
    var tail := b + ['\n'] + [];
    assert a + " " + b + "\n" == a + [' '] + tail;
    WordsOfCons(a, ' ', tail);
    WordsOfCons(b, '\n', []);
    WordsOfEmpty();
  }

  lemma WordsOfEmpty()
    ensures Words([]) == []
  {
  }

  /** Joins words with single spaces. */
  function Unwords(ws: seq<string>): string {
    if ws == [] then "" else if |ws| == 1 then ws[0] else ws[0] + " " + Unwords(ws[1..])
  }

  /** `split()` undoes `Unwords` for any words without whitespace. */
  lemma {:induction false} WordsOfUnwords(ws: seq<string>)
    requires forall k :: 0 <= k < |ws| ==> IsWord(ws[k])
    ensures Words(Unwords(ws)) == ws
  {
    if |ws| == 1 {
      WordsOfWord(ws[0]);
    } else if |ws| > 1 {
      var head, tail := ws[0], ws[1..];
      var rest := Unwords(tail);
      assert Words(rest) == tail by {
        forall k | 0 <= k < |tail| ensures IsWord(tail[k]) { assert tail[k] == ws[k + 1]; }
        WordsOfUnwords(tail);
      }
      assert Unwords(ws) == head + [' '] + rest by { UnwordsCons(ws); }
      assert Words(head + [' '] + rest) == [head] + Words(rest) by { WordsOfCons(head, ' ', rest); }
      assert ws == [head] + tail;
    }
  }

  lemma UnwordsCons(ws: seq<string>)
    requires |ws| > 1
    ensures Unwords(ws) == ws[0] + [' '] + Unwords(ws[1..])
  {
  }

  // ----------------------------------------------------------- splitlines()

  /** The ASCII line boundaries of Python's `str.splitlines`: line feed,
      vertical tab, form feed, carriage return and the separators 0x1C-0x1E
      (0x1F is whitespace but not a line boundary). */
  predicate IsLineBreak(c: char) {
    10 <= c as int <= 13 || 28 <= c as int <= 30
  }

  predicate NoLineBreak(s: string) {
    forall i :: 0 <= i < |s| ==> !IsLineBreak(s[i])
  }

  lemma WordHasNoLineBreak(w: string)
    requires NoSpace(w)
    ensures NoLineBreak(w)
  {
  }

  /** The length of the longest prefix of `s` without a line boundary. */
  function LineLength(s: string): (n: nat)
    ensures n <= |s|
    ensures NoLineBreak(s[..n])
    ensures n < |s| ==> IsLineBreak(s[n])
  {
    if s == [] || IsLineBreak(s[0]) then 0 else 1 + LineLength(s[1..])
  }

  /** The width of the line boundary at `s[n]`: "\r\n" counts as one. */
  function BreakLength(s: string, n: nat): (k: nat)
    requires n < |s|
    ensures 1 <= k <= |s| - n
  {
    if s[n] == '\r' && n + 1 < |s| && s[n + 1] == '\n' then 2 else 1
  }

  /** `str.splitlines()`: the lines of `s` without their terminators; a final
      terminator does not start an empty line. */
  function SplitLines(s: string): (lines: seq<string>)
    ensures forall k :: 0 <= k < |lines| ==> NoLineBreak(lines[k])
    ensures s == [] <==> lines == []
    decreases |s|
  {
    if s == [] then []
    else
      var n := LineLength(s);
      if n == |s| then [s]
      else [s[..n]] + SplitLines(s[n + BreakLength(s, n)..])
  }

  lemma {:induction false} LineLengthOfLine(x: string, c: char, y: string)
    requires NoLineBreak(x) && IsLineBreak(c)
    ensures LineLength(x + [c] + y) == |x|
  {
    if x != [] {
      assert (x + [c] + y)[1..] == x[1..] + [c] + y;
      LineLengthOfLine(x[1..], c, y);
    }
  }

  /** A line followed by "\n" and more text splits into that line and the
      lines of the rest. */
  lemma SplitLinesOfCons(x: string, y: string)
    requires NoLineBreak(x)
    ensures SplitLines(x + "\n" + y) == [x] + SplitLines(y)
  {
    var s := x + "\n" + y;
    assert s == x + ['\n'] + y;
    LineLengthOfLine(x, '\n', y);
    assert s[..|x|] == x;
    assert s[|x| + 1..] == y;
  }

  /** Joins lines, ending each with "\n", as `git log` prints them. */
  function Unlines(lines: seq<string>): string {
    if lines == [] then "" else lines[0] + "\n" + Unlines(lines[1..])
  }

  /** `splitlines` undoes `Unlines` for lines without line boundaries,
      empty lines included. */
  lemma {:induction false} SplitLinesOfUnlines(lines: seq<string>)
    requires forall k :: 0 <= k < |lines| ==> NoLineBreak(lines[k])
    ensures SplitLines(Unlines(lines)) == lines
  {
    if lines != [] {
      SplitLinesOfCons(lines[0], Unlines(lines[1..]));
      SplitLinesOfUnlines(lines[1..]);
    }
  }

  // ------------------------------------------------------ prefixes, suffixes

  /** `str.startswith`. */
  predicate StartsWith(s: string, p: string) {
    |p| <= |s| && s[..|p|] == p
  }

  /** `str.endswith`. */
  predicate EndsWith(s: string, q: string) {
    |q| <= |s| && s[|s| - |q|..] == q
  }
}
