/** FASTA extraction: the response is a sequence of lines; header lines (first
    character '>') are dropped, every other line is stripped of surrounding
    whitespace and the results are concatenated in order. */
module Fasta {

  /** The characters Python's str.strip() removes when called without arguments
      (those for which str.isspace() holds). */
  const Whitespace: set<char> := {
    '\t', '\n', '\U{B}', '\U{C}', '\r', '\U{1C}', '\U{1D}', '\U{1E}', '\U{1F}', ' ',
    '\U{85}', '\U{A0}', '\U{1680}',
    '\U{2000}', '\U{2001}', '\U{2002}', '\U{2003}', '\U{2004}', '\U{2005}',
    '\U{2006}', '\U{2007}', '\U{2008}', '\U{2009}', '\U{200A}',
    '\U{2028}', '\U{2029}', '\U{202F}', '\U{205F}', '\U{3000}'
  }

  predicate IsSpace(c: char) {
    c in Whitespace
  }

  predicate AllSpace(s: string) {
    forall i :: 0 <= i < |s| ==> IsSpace(s[i])
  }

  /** Number of whitespace characters at the front of s. */
  function LeadingSpace(s: string): (n: nat)
    ensures n <= |s|
    ensures forall i :: 0 <= i < n ==> IsSpace(s[i])
    ensures n < |s| ==> !IsSpace(s[n])
  {
    if s != [] && IsSpace(s[0]) then 1 + LeadingSpace(s[1..]) else 0
  }

  /** Number of whitespace characters at the end of s. */
  function TrailingSpace(s: string): (n: nat)
    ensures n <= |s|
    ensures forall i :: |s| - n <= i < |s| ==> IsSpace(s[i])
    ensures n < |s| ==> !IsSpace(s[|s| - n - 1])
  {
    if s != [] && IsSpace(s[|s| - 1]) then 1 + TrailingSpace(s[..|s| - 1]) else 0
  }

  /** Python's str.strip(): the line without its leading and trailing whitespace. */
  function Strip(s: string): string
  {
    var t := s[LeadingSpace(s)..];
    t[..|t| - TrailingSpace(t)]
  }

  /** Strip keeps the run s[lo..hi] of s, which neither starts nor ends with
      whitespace, and everything it removes on either side is whitespace. */
  lemma StripSpec(s: string) returns (lo: nat, hi: nat)
    ensures lo <= hi <= |s| && Strip(s) == s[lo..hi]
    ensures forall i :: 0 <= i < lo ==> IsSpace(s[i])
    ensures forall i :: hi <= i < |s| ==> IsSpace(s[i])
    ensures lo < hi ==> !IsSpace(s[lo]) && !IsSpace(s[hi - 1])
    ensures Strip(s) == [] <==> AllSpace(s)
  {
    lo := LeadingSpace(s);
    var t := s[lo..];
    var n := TrailingSpace(t);
    hi := lo + |t| - n;
    assert forall i :: hi <= i < |s| ==> s[i] == t[i - lo];
    assert Strip(s) == t[..|t| - n] == s[lo..hi];
    if lo == hi {
      assert AllSpace(s);
    }
  }

  /** A line is a header when its very first character, before any stripping, is '>'. */
  predicate IsHeader(line: string) {
    |line| > 0 && line[0] == '>'
  }

  /** What one line adds to the sequence: nothing for a header, its stripped
      text otherwise. */
  function Contribution(line: string): string
  {
    if IsHeader(line) then [] else Strip(line)
  }

  /** The residue sequence: the stripped non-header lines, joined in order. */
  function ParseSequence(lines: seq<string>): string
  {
    if lines == [] then [] else Contribution(lines[0]) + ParseSequence(lines[1..])
  }

  /** The gate in front of the parser: the retrieval succeeded and the text holds
      a '>' somewhere. A '>' is never a line break, so it is in the text exactly
      when it is in one of its lines. */
  predicate Retrieved(status: int, lines: seq<string>) {
    status == 200 && exists i :: 0 <= i < |lines| && '>' in lines[i]
  }

  /** Parsing distributes over concatenation of the line sequence: the lines
      contribute in their own order. */
  lemma {:induction false} ParseAppend(a: seq<string>, b: seq<string>)
    ensures ParseSequence(a + b) == ParseSequence(a) + ParseSequence(b)
  {
    if a == [] {
      assert a + b == b;
    } else {
      assert (a + b)[0] == a[0];
      assert (a + b)[1..] == a[1..] + b;
      ParseAppend(a[1..], b);
    }
  }

  lemma SplitAt<T>(xs: seq<T>, i: nat)
    requires i <= |xs|
    ensures xs == xs[..i] + xs[i..]
  {
  }

  /** Line i is dropped when it is a header and contributes exactly its stripped
      text, at its own place, otherwise. */
  lemma ParseAt(lines: seq<string>, i: nat)
    requires i < |lines|
    ensures ParseSequence(lines) ==
      ParseSequence(lines[..i])
      + Contribution(lines[i])
      + ParseSequence(lines[i + 1..])
  {
    var tail := lines[i..];
    SplitAt(lines, i);
    ParseAppend(lines[..i], tail);
    assert tail[0] == lines[i] && tail[1..] == lines[i + 1..];
    var front, line, back := ParseSequence(lines[..i]), Contribution(lines[i]), ParseSequence(lines[i + 1..]);
    assert ParseSequence(tail) == line + back;
    assert front + (line + back) == front + line + back;
  }

  /** The parsed sequence is empty exactly when every non-header line is blank;
      in particular a header-only response yields the empty sequence. */
  lemma {:induction false} ParseEmpty(lines: seq<string>)
    ensures ParseSequence(lines) == [] <==>
      forall i :: 0 <= i < |lines| && !IsHeader(lines[i]) ==> AllSpace(lines[i])
  {
    if lines != [] {
      ParseEmpty(lines[1..]);
      assert forall i :: 1 <= i < |lines| ==> lines[i] == lines[1..][i - 1];
    }
  }

  /** A line that neither starts nor ends with whitespace is left as it is. */
  lemma StripUnchanged(s: string)
    requires s != [] && !IsSpace(s[0]) && !IsSpace(s[|s| - 1])
    ensures Strip(s) == s
  {
    assert LeadingSpace(s) == 0;
    assert s[0..] == s;
  }

  /** Leading whitespace before a non-blank character is counted exactly. */
  lemma {:induction false} LeadingSpaceSkip(blanks: string, rest: string)
    requires AllSpace(blanks)
    requires rest != [] && !IsSpace(rest[0])
    ensures LeadingSpace(blanks + rest) == |blanks|
  {
    if blanks != [] {
      assert (blanks + rest)[1..] == blanks[1..] + rest;
      LeadingSpaceSkip(blanks[1..], rest);
    } else {
      assert blanks + rest == rest;
    }
  }

  /** The header test is made on the raw line: a line whose '>' follows blanks
      is not a header, whatever comes after the '>'. */
  lemma IndentedMarkerNotHeader(blanks: string, rest: string)
    requires blanks != [] && AllSpace(blanks)
    ensures !IsHeader(blanks + ['>'] + rest)
  {
    assert (blanks + ['>'] + rest)[0] == blanks[0];
  }

  /** Such a line is residue data, and everything from the '>' on is kept. */
  lemma IndentedMarkerIsKept(blanks: string, rest: string)
    requires blanks != [] && AllSpace(blanks)
    requires rest == [] || !IsSpace(rest[|rest| - 1])
    ensures ParseSequence([blanks + ['>'] + rest]) == ['>'] + rest
  {
    var line := blanks + ['>'] + rest;
    var kept := ['>'] + rest;
    assert line == blanks + kept;
    IndentedMarkerNotHeader(blanks, rest);
    LeadingSpaceSkip(blanks, kept);
    assert line[|blanks|..] == kept;
    assert kept[|kept| - 1] == if rest == [] then '>' else rest[|rest| - 1];
    StripUnchanged(kept);
    assert ParseSequence([line]) == Strip(line) + ParseSequence([line][1..]);
  }

  /** A header followed by two residue lines. */
  lemma ParseTwoLines()
    ensures ParseSequence([">hdr", "AB", "CD"]) == "ABCD"
  {
    StripUnchanged("AB");
    StripUnchanged("CD");
    ParseAt([">hdr", "AB", "CD"], 0);
    ParseAt(["AB", "CD"], 0);
    ParseAt(["CD"], 0);
    assert [">hdr", "AB", "CD"][1..] == ["AB", "CD"];
    assert ["AB", "CD"][1..] == ["CD"];
  }

  /** A header on its own yields the empty sequence, not a failure. */
  lemma ParseHeaderOnly()
    ensures ParseSequence([">hdr"]) == ""
  {
    assert [">hdr"][1..] == [];
  }
}
