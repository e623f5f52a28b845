/**
 The ignored-user line filter of the bridge: every line of a chunk of
 terminal output that starts with "<name> says:" for an ignored name is
 blanked (its text removed, its newline kept), and the whole result is
 stripped of leading and trailing whitespace.

 The regular expression of the source is modelled on lines: with the
 MULTILINE flag `^` and `$` sit at the line boundaries that '\n' makes,
 `.` matches every character but '\n' (so a trailing '\r' is part of the
 line and is blanked with it), and a match of `^(?:u1|...|un) says:.*$`
 is exactly a line that has some `ui + " says:"` as a prefix.
 */
module LineFilter {

  /** Python's `str.isspace()`: the characters `str.strip()` removes by default. */
  predicate IsSpace(c: char) {
    var n := c as int;
    (9 <= n <= 13) || (28 <= n <= 32) || n == 0x85 || n == 0xA0 || n == 0x1680
    || (0x2000 <= n <= 0x200A) || n == 0x2028 || n == 0x2029 || n == 0x202F
    || n == 0x205F || n == 0x3000
  }

  predicate AllSpace(s: string) {
    forall i :: 0 <= i < |s| ==> IsSpace(s[i])
  }

  /** No leading and no trailing whitespace. */
  predicate Trimmed(s: string) {
    s == [] || (!IsSpace(s[0]) && !IsSpace(s[|s| - 1]))
  }

  /** `str.lstrip()`: drops the longest all-whitespace prefix. */
  function StripLeft(s: string): string
  {
    if s != [] && IsSpace(s[0]) then StripLeft(s[1..]) else s
  }

  /** `str.rstrip()`: drops the longest all-whitespace suffix. */
  function StripRight(s: string): string
  {
    if s != [] && IsSpace(s[|s| - 1]) then StripRight(s[..|s| - 1]) else s
  }

  /** lstrip removes a whitespace prefix and stops at a non-whitespace character. */
  lemma {:induction false} StripLeftRemovesSpace(s: string)
    ensures |StripLeft(s)| <= |s| && StripLeft(s) == s[|s| - |StripLeft(s)|..]
    ensures AllSpace(s[..|s| - |StripLeft(s)|])
    ensures StripLeft(s) == [] || !IsSpace(StripLeft(s)[0])
  {
    if s != [] && IsSpace(s[0]) {
      StripLeftRemovesSpace(s[1..]);
      var n := |s| - |StripLeft(s)|;
      assert forall k :: 1 <= k < n ==> s[..n][k] == s[1..][..n - 1][k - 1];
    }
  }

  /** rstrip removes a whitespace suffix and stops at a non-whitespace character. */
  lemma {:induction false} StripRightRemovesSpace(s: string)
    ensures |StripRight(s)| <= |s| && StripRight(s) == s[..|StripRight(s)|]
    ensures AllSpace(s[|StripRight(s)|..])
    ensures StripRight(s) == [] || !IsSpace(StripRight(s)[|StripRight(s)| - 1])
  {
    if s != [] && IsSpace(s[|s| - 1]) {
      var t := s[..|s| - 1];
      StripRightRemovesSpace(t);
      assert StripRight(s) == StripRight(t);
      var m := |StripRight(t)|;
      assert StripRight(s) == t[..m] == s[..m];
      assert s[m..] == t[m..] + [s[|s| - 1]];
      assert forall k :: 0 <= k < |s| - 1 - m ==> s[m..][k] == t[m..][k];
    }
  }

  /** `str.strip()` (main.py:33). */
  function Strip(s: string): (r: string)
    ensures Trimmed(r)
  {
    StripLeftRemovesSpace(s);
    StripRightRemovesSpace(StripLeft(s));
    StripRight(StripLeft(s))
  }

  /** lstrip stops at the first non-whitespace character. */
  lemma {:induction false} StripLeftAt(s: string, i: nat)
    requires i <= |s| && AllSpace(s[..i])
    requires i < |s| ==> !IsSpace(s[i])
    ensures StripLeft(s) == s[i..]
  {
    if i > 0 {
      assert s[..i][0] == s[0];
      assert s[1..][..i - 1] == s[1..i];
      assert forall k :: 0 <= k < i - 1 ==> s[1..i][k] == s[..i][k + 1];
      StripLeftAt(s[1..], i - 1);
    }
  }

  /** rstrip stops after the last non-whitespace character. */
  lemma {:induction false} StripRightAt(s: string, j: nat)
    requires j <= |s| && AllSpace(s[j..])
    requires j > 0 ==> !IsSpace(s[j - 1])
    ensures StripRight(s) == s[..j]
  {
    if j < |s| {
      var t := s[..|s| - 1];
      assert s[j..][|s| - 1 - j] == s[|s| - 1];
      assert t[j..] == s[j..|s| - 1];
      assert forall k :: 0 <= k < |s| - 1 - j ==> t[j..][k] == s[j..][k];
      StripRightAt(t, j);
      assert t[..j] == s[..j];
    }
  }

  /** Strip removes exactly the whitespace around the trimmed middle of `s`,
      and nothing else: the middle is determined uniquely. */
  lemma StripIsMiddle(s: string, i: nat, j: nat)
    requires i <= j <= |s|
    requires AllSpace(s[..i]) && AllSpace(s[j..]) && Trimmed(s[i..j])
    ensures Strip(s) == s[i..j]
  {
    if i < j {
      assert s[i..j][0] == s[i] && s[i..j][j - i - 1] == s[j - 1];
      StripLeftAt(s, i);
      var l := s[i..];
      assert l[j - i..] == s[j..];
      assert l[j - i - 1] == s[j - 1];
      StripRightAt(l, j - i);
      assert l[..j - i] == s[i..j];
    } else {
      assert forall k :: i <= k < |s| ==> s[k] == s[j..][k - j];
      assert forall k :: 0 <= k < i ==> s[k] == s[..i][k];
      assert AllSpace(s[..|s|]) by { assert s[..|s|] == s; }
      StripLeftAt(s, |s|);
    }
  }

  /** Stripping twice is stripping once; a trimmed string is its own strip. */
  lemma StripOfTrimmed(s: string)
    requires Trimmed(s)
    ensures Strip(s) == s
  {
    StripIsMiddle(s, 0, |s|);
  }

  lemma StripIdempotent(s: string)
    ensures Strip(Strip(s)) == Strip(s)
  {
    StripOfTrimmed(Strip(s));
  }

  // ---------------------------------------------------------------------
  // Lines

  /** The lines of `s`, delimited by '\n' (there is one more line than
      there are newlines; the last one may be empty). */
  function Split(s: string): (lines: seq<string>)
    ensures |lines| >= 1
    ensures forall k :: 0 <= k < |lines| ==> '\n' !in lines[k]
  {
    if s == [] then [[]]
    else
      var rest := Split(s[1..]);
      if s[0] == '\n' then [[]] + rest
      else [[s[0]] + rest[0]] + rest[1..]
  }

  /** The inverse of Split: the lines glued back with '\n'. */
  function Join(lines: seq<string>): string
  {
    if lines == [] then []
    else if |lines| == 1 then lines[0]
    else lines[0] + "\n" + Join(lines[1..])
  }

  predicate NoNewlines(lines: seq<string>) {
    forall k :: 0 <= k < |lines| ==> '\n' !in lines[k]
  }

  /** Putting a character in front of the first line puts it in front of the text. */
  lemma JoinConsFirst(c: char, lines: seq<string>)
    requires |lines| >= 1
    ensures Join([[c] + lines[0]] + lines[1..]) == [c] + Join(lines)
  {
    var all := [[c] + lines[0]] + lines[1..];
    assert all[0] == [c] + lines[0] && all[1..] == lines[1..];
    if |lines| > 1 {
      var rest := Join(lines[1..]);
      assert Join(all) == ([c] + lines[0]) + "\n" + rest;
      assert Join(lines) == lines[0] + "\n" + rest;
      ConcatAssoc([c], lines[0], "\n", rest);
    }
  }

  lemma ConcatAssoc(w: string, x: string, y: string, z: string)
    ensures w + x + y + z == w + (x + y + z)
  {
  }

  lemma {:induction false} JoinSplit(s: string)
    ensures Join(Split(s)) == s
  {
    if s != [] {
      JoinSplit(s[1..]);
      var rest := Split(s[1..]);
      if s[0] == '\n' {
        assert Split(s) == [[]] + rest;
        assert Join(Split(s)) == [] + "\n" + Join(rest);
      } else {
        assert Split(s) == [[s[0]] + rest[0]] + rest[1..];
        JoinConsFirst(s[0], rest);
      }
    }
  }

  /** Splitting at a newline splits the line lists. */
  lemma {:induction false} SplitAtNewline(a: string, b: string)
    ensures Split(a + "\n" + b) == Split(a) + Split(b)
  {
    var s := a + "\n" + b;
    if a == [] {
      assert s == "\n" + b;
      assert s[1..] == b;
    } else {
      assert s[0] == a[0];
      assert s[1..] == a[1..] + "\n" + b;
      SplitAtNewline(a[1..], b);
    }
  }

  /** A string without newlines is a single line. */
  lemma {:induction false} SplitLine(a: string)
    requires '\n' !in a
    ensures Split(a) == [a]
  {
    if a != [] {
      assert '\n' !in a[1..] by { assert forall k :: 0 <= k < |a| - 1 ==> a[1..][k] == a[k + 1]; }
      SplitLine(a[1..]);
      assert a == [a[0]] + a[1..];
    }
  }

  lemma {:induction false} SplitJoin(lines: seq<string>)
    requires |lines| >= 1 && NoNewlines(lines)
    ensures Split(Join(lines)) == lines
  {
    if |lines| == 1 {
      SplitLine(lines[0]);
    } else {
      SplitJoin(lines[1..]);
      SplitAtNewline(lines[0], Join(lines[1..]));
      SplitLine(lines[0]);
      assert lines == [lines[0]] + lines[1..];
    }
  }

  /** Joining a list of nonempty lists splits at the junction. */
  lemma {:induction false} JoinAppend(xs: seq<string>, ys: seq<string>)
    requires |xs| >= 1 && |ys| >= 1
    ensures Join(xs + ys) == Join(xs) + "\n" + Join(ys)
  {
    if |xs| == 1 {
      assert (xs + ys)[1..] == ys;
    } else {
      assert (xs + ys)[1..] == xs[1..] + ys;
      JoinAppend(xs[1..], ys);
    }
  }

  /** There is one line more than there are newline characters. */
  lemma {:induction false} LineCount(s: string)
    ensures |Split(s)| == multiset(s)['\n'] + 1
  {
    if s != [] {
      LineCount(s[1..]);
      assert s == [s[0]] + s[1..];
      assert multiset(s) == multiset([s[0]]) + multiset(s[1..]);
    }
  }

  // ---------------------------------------------------------------------
  // Matching

  /** The alternatives of the pattern built at main.py:31. With no ignored
      names the group is `(?:)`, which matches the empty name. */
  function Alternatives(ignored: seq<string>): (alts: seq<string>)
    ensures forall line :: MatchesAny(alts, line) <==>
              if ignored == [] then " says:" <= line
              else exists u :: u in ignored && (u + " says:") <= line
  {
    var alts := if ignored == [] then [""] else ignored;
    AlternationMeaning(alts);
    assert "" + " says:" == " says:";
    alts
  }

  /** The alternation `u1|...|un` followed by " says:", tried left to
      right at the start of `line`. */
  predicate MatchesAny(alts: seq<string>, line: string) {
    alts != [] && ((alts[0] + " says:") <= line || MatchesAny(alts[1..], line))
  }

  /** A line is blanked when it starts with `u + " says:"` for an ignored `u`. */
  predicate Matches(ignored: seq<string>, line: string) {
    MatchesAny(Alternatives(ignored), line)
  }

  /** The alternation matches exactly when some single alternative, taken
      literally and case-sensitively, is followed by " says:" at the very
      start of the line. */
  lemma {:induction false} MatchesAnyIff(alts: seq<string>, line: string)
    ensures MatchesAny(alts, line) <==>
            exists k :: 0 <= k < |alts| && (alts[k] + " says:") <= line
  {
    if alts != [] {
      MatchesAnyIff(alts[1..], line);
      if MatchesAny(alts[1..], line) {
        var k :| 0 <= k < |alts[1..]| && (alts[1..][k] + " says:") <= line;
        assert alts[k + 1] == alts[1..][k];
      }
      if exists k :: 0 <= k < |alts| && (alts[k] + " says:") <= line {
        var k :| 0 <= k < |alts| && (alts[k] + " says:") <= line;
        if k > 0 {
          assert alts[1..][k - 1] == alts[k];
        }
      }
    }
  }

  /** The alternation, over all lines at once. */
  lemma AlternationMeaning(alts: seq<string>)
    ensures forall line :: MatchesAny(alts, line) <==>
              exists u :: u in alts && (u + " says:") <= line
  {
    forall line: string
      ensures MatchesAny(alts, line) <==> exists u :: u in alts && (u + " says:") <= line
    {
      MatchesAnyIff(alts, line);
      if exists u :: u in alts && (u + " says:") <= line {
        var u :| u in alts && (u + " says:") <= line;
        var k :| 0 <= k < |alts| && alts[k] == u;
      }
    }
  }

  /** Corollary of the contract of `Alternatives`, stated over the
      alternatives themselves (the empty list giving `""`). */
  lemma MatchesIff(ignored: seq<string>, line: string)
    ensures Matches(ignored, line) <==>
            exists u :: u in Alternatives(ignored) && (u + " says:") <= line
  {
    var alts := Alternatives(ignored);
    MatchesAnyIff(alts, line);
    if exists u :: u in alts && (u + " says:") <= line {
      var u :| u in alts && (u + " says:") <= line;
      var k :| 0 <= k < |alts| && alts[k] == u;
    }
  }

  /** A matched line holds the space of " says:"; in particular an empty
      line or a line without a space is never blanked. */
  lemma MatchedLineHasSpace(ignored: seq<string>, line: string)
    ensures Matches(ignored, line) ==> ' ' in line
  {
    MatchesIff(ignored, line);
    if Matches(ignored, line) {
      var u :| u in Alternatives(ignored) && (u + " says:") <= line;
      assert line[|u|] == (u + " says:")[|u|] == ' ';
    }
  }

  // ---------------------------------------------------------------------
  // The filter

  /** Each matching line becomes empty; every other line is kept as is. */
  function BlankLines(ignored: seq<string>, lines: seq<string>): (out: seq<string>)
    ensures |out| == |lines|
    ensures forall k :: 0 <= k < |lines| ==>
              out[k] == (if Matches(ignored, lines[k]) then [] else lines[k])
  {
    if lines == [] then []
    else
      [if Matches(ignored, lines[0]) then [] else lines[0]] + BlankLines(ignored, lines[1..])
  }

  /** The `re.sub` of main.py:33, before the strip. */
  function Blanked(ignored: seq<string>, text: string): (b: string)
    ensures Split(b) == BlankLines(ignored, Split(text))
  {
    var out := BlankLines(ignored, Split(text));
    BlankLinesKeepNoNewlines(ignored, Split(text));
    SplitJoin(out);
    Join(out)
  }

  lemma BlankLinesKeepNoNewlines(ignored: seq<string>, lines: seq<string>)
    requires NoNewlines(lines)
    ensures NoNewlines(BlankLines(ignored, lines))
  {
    var out := BlankLines(ignored, lines);
    forall k | 0 <= k < |out| ensures '\n' !in out[k] {
      assert '\n' !in lines[k];
    }
  }

  /** `remove_ignored_user_lines` (main.py:26-33). */
  function RemoveIgnoredUserLines(ignored: seq<string>, text: string): (r: string)
    ensures Trimmed(r)
  {
    Strip(Blanked(ignored, text))
  }

  /** Corollary of the contracts of `Blanked` and `BlankLines`, line by
      line: blanking keeps the lines and their order; line k of the result
      is empty when line k of the input matches, and is line k of the input
      otherwise. */
  lemma BlankedLines(ignored: seq<string>, text: string)
    ensures |Split(Blanked(ignored, text))| == |Split(text)|
    ensures forall k :: 0 <= k < |Split(text)| ==>
              Split(Blanked(ignored, text))[k] ==
              (if Matches(ignored, Split(text)[k]) then [] else Split(text)[k])
  {
    var out := BlankLines(ignored, Split(text));
    assert NoNewlines(out) by {
      forall k | 0 <= k < |out| ensures '\n' !in out[k] {
        assert '\n' !in Split(text)[k];
      }
    }
    SplitJoin(out);
  }

  /** Blanking never adds or removes a newline. */
  lemma BlankedKeepsNewlines(ignored: seq<string>, text: string)
    ensures multiset(Blanked(ignored, text))['\n'] == multiset(text)['\n']
  {
    BlankedLines(ignored, text);
    LineCount(text);
    LineCount(Blanked(ignored, text));
  }

  /** No line of the blanked text is an ignored user's line. */
  lemma BlankedHasNoIgnoredLine(ignored: seq<string>, text: string)
    ensures forall k :: 0 <= k < |Split(Blanked(ignored, text))| ==>
              !Matches(ignored, Split(Blanked(ignored, text))[k])
  {
    BlankedLines(ignored, text);
    MatchedLineHasSpace(ignored, []);
  }

  /** Blanking is idempotent. */
  lemma BlankedIdempotent(ignored: seq<string>, text: string)
    ensures Blanked(ignored, Blanked(ignored, text)) == Blanked(ignored, text)
  {
    var b := Blanked(ignored, text);
    BlankedHasNoIgnoredLine(ignored, text);
    assert BlankLines(ignored, Split(b)) == Split(b);
    JoinSplit(b);
  }

  /** When no line is ignored the filter only strips. */
  lemma FilterWithoutMatches(ignored: seq<string>, text: string)
    requires forall k :: 0 <= k < |Split(text)| ==> !Matches(ignored, Split(text)[k])
    ensures RemoveIgnoredUserLines(ignored, text) == Strip(text)
  {
    assert BlankLines(ignored, Split(text)) == Split(text);
    JoinSplit(text);
  }

  /** Filtering output that has no ignored line left returns it unchanged. */
  lemma FilterOfCleanOutput(ignored: seq<string>, text: string)
    requires forall k :: 0 <= k < |Split(RemoveIgnoredUserLines(ignored, text))| ==>
               !Matches(ignored, Split(RemoveIgnoredUserLines(ignored, text))[k])
    ensures RemoveIgnoredUserLines(ignored, RemoveIgnoredUserLines(ignored, text)) ==
            RemoveIgnoredUserLines(ignored, text)
  {
    var r := RemoveIgnoredUserLines(ignored, text);
    FilterWithoutMatches(ignored, r);
    StripOfTrimmed(r);
  }

  /** Matching is anchored, literal and case-sensitive. */
  lemma MatchingIsAnchoredAndCaseSensitive()
    ensures Matches(["alice"], "alice says: hi")
    ensures !Matches(["alice"], "xalice says: hi")
    ensures !Matches(["alice"], "  alice says: hi")
    ensures !Matches(["alice"], "Alice says: hi")
    ensures !Matches(["a.c"], "abc says: hi")
  {
    assert "alice says:" <= "alice says: hi";
    assert ("alice says:")[0] != ("xalice says: hi")[0];
    assert ("alice says:")[0] != ("  alice says: hi")[0];
    assert ("alice says:")[0] != ("Alice says: hi")[0];
    assert ("a.c says:")[1] != ("abc says: hi")[1];
  }

  /** With no ignored names the empty alternative blanks " says:" lines. */
  lemma EmptyIgnoreListMatchesEmptyName(line: string)
    ensures Matches([], line) <==> (" says:" <= line)
  {
    var alts: seq<string> := [""];
    assert Alternatives([]) == alts;
    assert alts[1..] == [];
    assert alts[0] + " says:" == " says:";
    assert MatchesAny(alts, line) == ((alts[0] + " says:") <= line || MatchesAny(alts[1..], line));
  }

  /** Filtering text given as its lines blanks those lines. */
  lemma BlankedJoin(ignored: seq<string>, lines: seq<string>)
    requires |lines| >= 1 && NoNewlines(lines)
    ensures Blanked(ignored, Join(lines)) == Join(BlankLines(ignored, lines))
  {
    SplitJoin(lines);
  }

  lemma JoinFour(a: string, b: string, c: string, d: string)
    ensures Join([a, b, c, d]) == a + "\n" + (b + "\n" + (c + "\n" + d))
  {
    assert [a, b, c, d][1..] == [b, c, d];
    assert [b, c, d][1..] == [c, d];
    assert [c, d][1..] == [d];
    assert Join([c, d]) == c + "\n" + d;
    assert Join([b, c, d]) == b + "\n" + Join([c, d]);
  }

  /** Strip removes whitespace around a trimmed middle. */
  lemma StripSurrounded(pre: string, mid: string, post: string)
    requires AllSpace(pre) && AllSpace(post) && Trimmed(mid)
    ensures Strip(pre + mid + post) == mid
  {
    var s := pre + mid + post;
    assert s[..|pre|] == pre;
    assert s[|pre| + |mid|..] == post;
    assert s[|pre|..|pre| + |mid|] == mid;
    StripIsMiddle(s, |pre|, |pre| + |mid|);
  }

  lemma MatchesOne(u: string, line: string)
    ensures Matches([u], line) <==> (u + " says:") <= line
  {
    var alts := [u];
    assert Alternatives(alts) == alts && alts[0] == u && alts[1..] == [];
    assert !MatchesAny(alts[1..], line);
  }

  lemma MatchesTwo(u: string, v: string, line: string)
    ensures Matches([u, v], line) <==> (u + " says:") <= line || (v + " says:") <= line
  {
    var alts := [u, v];
    assert Alternatives(alts) == alts && alts[0] == u && alts[1..] == [v];
    assert [v][0] == v && [v][1..] == [];
    assert !MatchesAny([v][1..], line);
    assert MatchesAny([v], line) <==> (v + " says:") <= line;
  }

  /** The filter of a text given as its lines, when the blanked lines are
      a trimmed middle between whitespace. */
  lemma FilterOfJoin(ignored: seq<string>, lines: seq<string>, pre: string, mid: string, post: string)
    requires |lines| >= 1 && NoNewlines(lines)
    requires Join(BlankLines(ignored, lines)) == pre + mid + post
    requires AllSpace(pre) && AllSpace(post) && Trimmed(mid)
    ensures RemoveIgnoredUserLines(ignored, Join(lines)) == mid
  {
    BlankedJoin(ignored, lines);
    StripSurrounded(pre, mid, post);
  }

  /** A text of one line is either blanked entirely or only stripped. */
  lemma FilterSingleLine(ignored: seq<string>, line: string)
    requires '\n' !in line
    ensures RemoveIgnoredUserLines(ignored, line) ==
            (if Matches(ignored, line) then [] else Strip(line))
  {
    SplitLine(line);
    assert BlankLines(ignored, [line]) == [if Matches(ignored, line) then [] else line];
  }

  /** A one-line text that is an ignored line filters to nothing. */
  lemma FilterIgnoredLine(ignored: seq<string>, line: string)
    requires '\n' !in line && Matches(ignored, line)
    ensures RemoveIgnoredUserLines(ignored, line) == []
  {
    FilterSingleLine(ignored, line);
  }

  /** A line behind a space that the filter keeps loses only that space. */
  lemma FilterIndentedLine(ignored: seq<string>, u: string)
    requires '\n' !in u && Trimmed(u) && !Matches(ignored, " " + u)
    ensures RemoveIgnoredUserLines(ignored, " " + u) == u
  {
    var sp: string := " ";
    var t := sp + u;
    assert AllSpace(sp) by { assert sp[0] == 32 as char; }
    assert AllSpace([]);
    assert t == t + [];
    StripSurrounded(sp, u, []);
    assert Strip(t) == u;
    assert '\n' !in t;
    FilterSingleLine(ignored, t);
  }

  /** The filter as a whole is not idempotent: stripping can bring an
      ignored line to the start of the text ... */
  lemma StripCanExposeIgnoredLine()
    ensures RemoveIgnoredUserLines(["alice"], " alice says: hi") == "alice says: hi"
  {
    var u := "alice says: hi";
    assert " " + u == " alice says: hi";
    MatchesOne("alice", " " + u);
    assert ("alice says:")[0] != (" " + u)[0];
    assert Trimmed(u) by { assert u[0] == 'a' && u[|u| - 1] == 'i'; }
    FilterIndentedLine(["alice"], u);
  }

  /** ... where the next pass blanks it. */
  lemma ExposedLineIsBlanked()
    ensures RemoveIgnoredUserLines(["alice"], "alice says: hi") == ""
  {
    var u := "alice says: hi";
    MatchesOne("alice", u);
    assert "alice says:" <= u;
    FilterIgnoredLine(["alice"], u);
  }

  lemma JoinThree(a: string, b: string, c: string)
    ensures Join([a, b, c]) == a + "\n" + b + "\n" + c
  {
    assert [a, b, c][1..] == [b, c];
    assert [b, c][1..] == [c];
    assert Join([b, c]) == b + "\n" + c;
  }

  lemma NewlineAssoc4(a: string, b: string, c: string)
    ensures a + "\n" + (b + "\n" + (c + "\n" + [])) == a + "\n" + b + "\n" + c + "\n"
  {
  }

  /** Two ignored lines around a kept one, as in the worked example below. */
  lemma FilterKeepsMiddleLine(ignored: seq<string>, a: string, c: string, b: string)
    requires '\n' !in a && '\n' !in c && '\n' !in b
    requires Matches(ignored, a) && !Matches(ignored, c) && Matches(ignored, b)
    requires Trimmed(c)
    ensures RemoveIgnoredUserLines(ignored, a + "\n" + c + "\n" + b + "\n") == c
  {
    var lines := [a, c, b, []];
    JoinFour(a, c, b, []);
    NewlineAssoc4(a, c, b);
    assert NoNewlines(lines);
    MatchedLineHasSpace(ignored, []);
    assert BlankLines(ignored, lines) == [[], c, [], []];
    JoinFour([], c, [], []);
    var nl: string := "\n";
    assert nl[0] == 10 as char && IsSpace(10 as char);
    assert [] + "\n" + (c + "\n" + ([] + "\n" + [])) == nl + c + (nl + nl);
    FilterOfJoin(ignored, lines, nl, c, nl + nl);
  }

  lemma WorkedExampleText()
    ensures "alice says: hi" + "\n" + "carol says: hey" + "\n" + "bob says: yo" + "\n" ==
            "alice says: hi\ncarol says: hey\nbob says: yo\n"
  {
  }

  lemma WorkedExampleLines()
    ensures Matches(["alice", "bob"], "alice says: hi")
    ensures !Matches(["alice", "bob"], "carol says: hey")
    ensures Matches(["alice", "bob"], "bob says: yo")
    ensures Trimmed("carol says: hey")
  {
    var a, c, b := "alice says: hi", "carol says: hey", "bob says: yo";
    MatchesTwo("alice", "bob", a);
    MatchesTwo("alice", "bob", b);
    MatchesTwo("alice", "bob", c);
    WorkedExamplePrefixes();
  }

  lemma WorkedExamplePrefixes()
    ensures "alice says:" <= "alice says: hi" && "bob says:" <= "bob says: yo"
    ensures !("alice says:" <= "carol says: hey") && !("bob says:" <= "carol says: hey")
    ensures Trimmed("carol says: hey")
  {
    var c := "carol says: hey";
    assert ("alice says:")[0] != c[0] && ("bob says:")[0] != c[0];
    assert c[0] == 'c' && c[|c| - 1] == 'y';
  }

  /** The worked example: alice's and bob's lines go, carol's stays. */
  lemma WorkedExample()
    ensures RemoveIgnoredUserLines(["alice", "bob"],
              "alice says: hi\ncarol says: hey\nbob says: yo\n") == "carol says: hey"
  {
    WorkedExampleText();
    WorkedExampleLines();
    FilterKeepsMiddleLine(["alice", "bob"], "alice says: hi", "carol says: hey", "bob says: yo");
  }

  // ---------------------------------------------------------------------
  // The listener's envelope (main.py:110-111)

  /** The envelope adds one line before the chunk's lines and one after. */
  function Wrap(data: string): (w: string)
    ensures Split(w) == ["```ansi"] + Split(data) + ["```"]
  {
    var head, tail := "```ansi", "```";
    SplitEnclosed(head, data, tail);
    head + "\n" + data + "\n" + tail
  }

  /** Putting a line before and a line after a text adds those lines to its lines. */
  lemma SplitEnclosed(head: string, data: string, tail: string)
    requires '\n' !in head && '\n' !in tail
    ensures Split(head + "\n" + data + "\n" + tail) == [head] + Split(data) + [tail]
  {
    NewlineAssoc(head, data, tail);
    SplitAtNewline(head, data + "\n" + tail);
    SplitAtNewline(data, tail);
    SplitLine(head);
    SplitLine(tail);
  }

  lemma NewlineAssoc(a: string, b: string, c: string)
    ensures a + "\n" + (b + "\n" + c) == a + "\n" + b + "\n" + c
  {
  }

  lemma JoinEnclosed(head: string, lines: seq<string>, tail: string)
    requires |lines| >= 1
    ensures Join([head] + lines + [tail]) == head + "\n" + Join(lines) + "\n" + tail
  {
    var rest := lines + [tail];
    var all := [head] + rest;
    assert all[0] == head && all[1..] == rest;
    assert Join(all) == head + "\n" + Join(rest);
    JoinAppend(lines, [tail]);
    assert Join([tail]) == tail;
    NewlineAssoc(head, Join(lines), tail);
    assert [head] + lines + [tail] == all;
  }

  lemma BlankLinesEnclosed(ignored: seq<string>, head: string, lines: seq<string>, tail: string)
    requires !Matches(ignored, head) && !Matches(ignored, tail)
    ensures BlankLines(ignored, [head] + lines + [tail]) == [head] + BlankLines(ignored, lines) + [tail]
  {
    BlankLinesAppend(ignored, [head] + lines, [tail]);
    BlankLinesAppend(ignored, [head], lines);
  }

  /** Lines without a space around a text survive blanking, and the text
      between them is blanked as on its own. */
  lemma BlankedEnclosed(ignored: seq<string>, head: string, data: string, tail: string)
    requires '\n' !in head && '\n' !in tail && ' ' !in head && ' ' !in tail
    ensures Blanked(ignored, head + "\n" + data + "\n" + tail) == head + "\n" + Blanked(ignored, data) + "\n" + tail
  {
    SplitEnclosed(head, data, tail);
    MatchedLineHasSpace(ignored, head);
    MatchedLineHasSpace(ignored, tail);
    BlankLinesEnclosed(ignored, head, Split(data), tail);
    JoinEnclosed(head, BlankLines(ignored, Split(data)), tail);
  }

  /** Around a blanked text, lines without a space add no ignored line. */
  lemma EnclosedHasNoIgnoredLine(ignored: seq<string>, head: string, data: string, tail: string)
    requires '\n' !in head && '\n' !in tail && ' ' !in head && ' ' !in tail
    ensures forall k :: 0 <= k < |Split(head + "\n" + Blanked(ignored, data) + "\n" + tail)| ==>
              !Matches(ignored, Split(head + "\n" + Blanked(ignored, data) + "\n" + tail)[k])
  {
    var b := Blanked(ignored, data);
    SplitEnclosed(head, b, tail);
    BlankedHasNoIgnoredLine(ignored, data);
    MatchedLineHasSpace(ignored, head);
    MatchedLineHasSpace(ignored, tail);
    var lines := Split(head + "\n" + b + "\n" + tail);
    forall k | 0 <= k < |lines| ensures !Matches(ignored, lines[k]) {
      if 0 < k < |lines| - 1 {
        assert lines[k] == Split(b)[k - 1];
      }
    }
  }

  lemma FilterEnclosed(ignored: seq<string>, head: string, data: string, tail: string)
    requires '\n' !in head && '\n' !in tail && ' ' !in head && ' ' !in tail
    requires head != [] && !IsSpace(head[0]) && tail != [] && !IsSpace(tail[|tail| - 1])
    ensures RemoveIgnoredUserLines(ignored, head + "\n" + data + "\n" + tail) ==
            head + "\n" + Blanked(ignored, data) + "\n" + tail
  {
    BlankedEnclosed(ignored, head, data, tail);
    var r := head + "\n" + Blanked(ignored, data) + "\n" + tail;
    assert r[0] == head[0] && r[|r| - 1] == tail[|tail| - 1];
    StripOfTrimmed(r);
  }

  lemma EnvelopeText(b: string)
    ensures "```ansi" + "\n" + b + "\n" + "```" == "```ansi\n" + b + "\n```"
  {
  }

  /** So filtering a wrapped chunk keeps the envelope, blanks the chunk's
      ignored lines, and strips nothing. */
  lemma FilterWrapped(ignored: seq<string>, data: string)
    ensures RemoveIgnoredUserLines(ignored, Wrap(data)) == "```ansi\n" + Blanked(ignored, data) + "\n```"
  {
    var head, tail := "```ansi", "```";
    assert Wrap(data) == head + "\n" + data + "\n" + tail;
    FilterEnclosed(ignored, head, data, tail);
    EnvelopeText(Blanked(ignored, data));
  }

  lemma BlankLinesAppend(ignored: seq<string>, xs: seq<string>, ys: seq<string>)
    ensures BlankLines(ignored, xs + ys) == BlankLines(ignored, xs) + BlankLines(ignored, ys)
  {
  }
}
