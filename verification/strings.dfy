/** Text helpers the topology parser relies on: Python's argument-less
    `str.split()` on whitespace, `str.split('/')` on a separator,
    `str.isdigit()` restricted to ASCII, and the plugin's own `listToString`. */
module Strings {

  /** ASCII whitespace as Python's `str.split()` treats it: space, the controls
      \t \n \v \f \r, and the four separator controls U+001C..U+001F. */
  predicate IsSpace(c: char) {
    c == ' ' || ('\t' <= c <= '\r') || ('\U{001C}' <= c <= '\U{001F}')
  }

  /** A word as `str.split()` produces it: non-empty, no whitespace. */
  predicate IsToken(t: string) {
    |t| > 0 && forall i :: 0 <= i < |t| ==> !IsSpace(t[i])
  }

  /** `str.isdigit()` on ASCII text: non-empty and only decimal digits. */
  predicate IsDigits(s: string) {
    |s| > 0 && forall i :: 0 <= i < |s| ==> '0' <= s[i] <= '9'
  }

  /** Length of the leading run of non-whitespace characters of `s`. */
  function WordLength(s: string): (n: nat)
    ensures n <= |s|
    ensures forall i :: 0 <= i < n ==> !IsSpace(s[i])
    ensures n < |s| ==> IsSpace(s[n])
  {
    if |s| == 0 || IsSpace(s[0]) then 0 else 1 + WordLength(s[1..])
  }

  /** Python's `str.split()` with no argument: the maximal whitespace-free runs
      of `s`, in order; leading, trailing and repeated whitespace yields no
      empty words. */
  function Split(s: string): (words: seq<string>)
    ensures forall i :: 0 <= i < |words| ==> IsToken(words[i])
    decreases |s|
  {
    if |s| == 0 then []
    else if IsSpace(s[0]) then Split(s[1..])
    else
      var n := WordLength(s);
      [s[..n]] + Split(s[n..])
  }

  /** The non-whitespace characters of `s`, in order. */
  function NonSpace(s: string): string {
    if |s| == 0 then ""
    else (if IsSpace(s[0]) then "" else [s[0]]) + NonSpace(s[1..])
  }

  /** All words glued together. */
  function Concat(words: seq<string>): string {
    if |words| == 0 then "" else words[0] + Concat(words[1..])
  }

  /** Words separated by one space each. */
  function Unwords(words: seq<string>): string {
    if |words| == 0 then ""
    else if |words| == 1 then words[0]
    else words[0] + " " + Unwords(words[1..])
  }

  lemma {:induction false} NonSpaceAppend(a: string, b: string)
    ensures NonSpace(a + b) == NonSpace(a) + NonSpace(b)
  {
    if |a| == 0 {
      assert a + b == b;
    } else {
      assert (a + b)[1..] == a[1..] + b;
      NonSpaceAppend(a[1..], b);
    }
  }

  lemma {:induction false} NonSpaceOfRun(t: string)
    requires forall i :: 0 <= i < |t| ==> !IsSpace(t[i])
    ensures NonSpace(t) == t
  {
    if |t| > 0 {
      NonSpaceOfRun(t[1..]);
      assert t == [t[0]] + t[1..];
    }
  }

  /** Splitting loses exactly the whitespace: the words, glued back together,
      are the non-whitespace characters of the line in their original order. */
  lemma {:induction false} SplitKeepsContent(s: string)
    ensures Concat(Split(s)) == NonSpace(s)
    decreases |s|
  {
    if |s| == 0 {
    } else if IsSpace(s[0]) {
      SplitKeepsContent(s[1..]);
    } else {
      var n := WordLength(s);
      SplitKeepsContent(s[n..]);
      assert s == s[..n] + s[n..];
      NonSpaceAppend(s[..n], s[n..]);
      NonSpaceOfRun(s[..n]);
      var words := [s[..n]] + Split(s[n..]);
      assert words[1..] == Split(s[n..]);
    }
  }

  /** A word followed by nothing or by whitespace is split off as one word. */
  lemma SplitLeadingWord(w: string, rest: string)
    requires IsToken(w)
    requires |rest| == 0 || IsSpace(rest[0])
    ensures Split(w + rest) == [w] + Split(rest)
  {
    var s := w + rest;
    var n := WordLength(s);
    assert |rest| > 0 ==> s[|w|] == rest[0];
    if n < |w| {
      assert false;
    }
    if n > |w| {
      assert false;
    }
    assert s[..n] == w;
    assert s[n..] == rest;
  }

  /** Splitting words joined by single spaces gives the words back. */
  lemma {:induction false} SplitUnwords(words: seq<string>)
    requires forall i :: 0 <= i < |words| ==> IsToken(words[i])
    ensures Split(Unwords(words)) == words
  {
    if |words| == 1 {
      SplitLeadingWord(words[0], "");
      assert words[0] + "" == words[0];
    } else if |words| > 1 {
      var tail := Unwords(words[1..]);
      var spaced := " " + tail;
      SplitUnwords(words[1..]);
      SplitLeadingWord(words[0], spaced);
      assert Unwords(words) == words[0] + spaced;
      assert spaced[1..] == tail;
      assert Split(spaced) == Split(tail);
      assert words == [words[0]] + words[1..];
    }
  }

  /** Python's `str.split(sep)` with an explicit separator: every separator
      ends a part, so empty parts are kept and there is always at least one. */
  function SplitOn(s: string, sep: char): (parts: seq<string>)
    ensures |parts| >= 1
    ensures forall i :: 0 <= i < |parts| ==> sep !in parts[i]
  {
    if |s| == 0 then [""]
    else
      var rest := SplitOn(s[1..], sep);
      if s[0] == sep then [""] + rest
      else [[s[0]] + rest[0]] + rest[1..]
  }

  /** The parts with one separator between neighbours (`sep.join(parts)`). */
  function JoinOn(parts: seq<string>, sep: char): string
    requires |parts| >= 1
  {
    if |parts| == 1 then parts[0] else parts[0] + [sep] + JoinOn(parts[1..], sep)
  }

  /** Joining the parts of a split restores the original text. */
  lemma {:induction false} JoinSplit(s: string, sep: char)
    ensures JoinOn(SplitOn(s, sep), sep) == s
  {
    if |s| > 0 {
      var rest := SplitOn(s[1..], sep);
      JoinSplit(s[1..], sep);
      var parts := SplitOn(s, sep);
      if s[0] == sep {
        assert parts[1..] == rest;
        assert s == [sep] + s[1..];
      } else if |rest| == 1 {
        assert s == [s[0]] + s[1..];
      } else {
        assert parts[1..] == rest[1..];
        assert s == [s[0]] + s[1..];
      }
    }
  }

  lemma {:induction false} SplitOnPrefix(w: string, tail: string, sep: char)
    requires sep !in w
    ensures SplitOn(w + tail, sep) == [w + SplitOn(tail, sep)[0]] + SplitOn(tail, sep)[1..]
  {
    if |w| == 0 {
      var parts := SplitOn(tail, sep);
      assert w + tail == tail;
      assert w + parts[0] == parts[0];
      assert parts == [parts[0]] + parts[1..];
    } else {
      SplitOnPrefix(w[1..], tail, sep);
      assert (w + tail)[1..] == w[1..] + tail;
      assert w[0] == (w + tail)[0];
      assert [w[0]] + (w[1..] + SplitOn(tail, sep)[0]) == w + SplitOn(tail, sep)[0];
    }
  }

  /** Splitting parts that contain no separator, once joined, gives the parts
      back: together with JoinSplit, SplitOn and JoinOn are inverse bijections. */
  lemma {:induction false} SplitJoin(parts: seq<string>, sep: char)
    requires |parts| >= 1
    requires forall i :: 0 <= i < |parts| ==> sep !in parts[i]
    ensures SplitOn(JoinOn(parts, sep), sep) == parts
  {
    if |parts| == 1 {
      SplitOnPrefix(parts[0], "", sep);
      assert parts[0] + "" == parts[0];
    } else {
      var tail := [sep] + JoinOn(parts[1..], sep);
      SplitJoin(parts[1..], sep);
      SplitOnPrefix(parts[0], tail, sep);
      assert tail[0] == sep;
      assert tail[1..] == JoinOn(parts[1..], sep);
      var split := SplitOn(tail, sep);
      assert split == [""] + parts[1..];
      assert split[0] == "" && split[1..] == parts[1..];
      assert parts[0] + split[0] == parts[0];
      assert JoinOn(parts, sep) == parts[0] + tail;
      assert parts == [parts[0]] + parts[1..];
    }
  }

  /** The plugin's `listToString` (`__init__.py` lines 21-31): each element
      followed by a '/', accumulated left to right. */
  function ListToString(parts: seq<string>): (s: string)
    ensures |parts| > 0 ==> |s| > 0 && s[|s| - 1] == '/'
    ensures |parts| == 0 ==> s == ""
  {
    if |parts| == 0 then ""
    else ListToString(parts[..|parts| - 1]) + parts[|parts| - 1] + "/"
  }

  lemma {:induction false} JoinOnSnoc(parts: seq<string>, last: string, sep: char)
    requires |parts| >= 1
    ensures JoinOn(parts + [last], sep) == JoinOn(parts, sep) + [sep] + last
  {
    if |parts| == 1 {
      assert (parts + [last])[1..] == [last];
    } else {
      JoinOnSnoc(parts[1..], last, sep);
      assert (parts + [last])[1..] == parts[1..] + [last];
    }
  }

  /** `listToString(init) + last` is the '/'-join of `init + [last]`. */
  lemma {:induction false} ListToStringJoin(init: seq<string>, last: string)
    ensures ListToString(init) + last == JoinOn(init + [last], '/')
  {
    if |init| == 0 {
      assert init + [last] == [last];
    } else {
      var front := init[..|init| - 1];
      var x := init[|init| - 1];
      ListToStringJoin(front, x);
      JoinOnSnoc(init, last, '/');
      assert front + [x] == init;
    }
  }

  /** The path reassembly of `process` (lines 139-145) loses nothing: the
      directory prefix built from all parts but the last, followed by the last part, is
      the path that was split. */
  lemma PathReassembly(path: string)
    ensures var parts := SplitOn(path, '/');
            ListToString(parts[..|parts| - 1]) + parts[|parts| - 1] == path
  {
    var parts := SplitOn(path, '/');
    ListToStringJoin(parts[..|parts| - 1], parts[|parts| - 1]);
    assert parts[..|parts| - 1] + [parts[|parts| - 1]] == parts;
    JoinSplit(path, '/');
  }
}
