/**
 The output file of `main` (main.py:77-79): every host followed by a line
 break, in list order; and the count the summary reports (main.py:83).
 Reading the file back, by splitting on line breaks and dropping the empty
 piece after the final one, recovers the list.
 */
module Serialiser {

  /** The file content: `line + '\n'` for each line, in order. */
  function Serialise(lines: seq<string>): (content: string)
    ensures |lines| == 0 <==> content == ""
    ensures |lines| > 0 ==> content[|content| - 1] == '\n'
  {
    if |lines| == 0 then "" else lines[0] + "\n" + Serialise(lines[1..])
  }

  predicate NoLineBreaks(lines: seq<string>) {
    forall j :: 0 <= j < |lines| ==> '\n' !in lines[j]
  }

  /** Position of the first line break at or after `i`; |s| when there is none. */
  function NextBreak(s: string, i: nat): (k: nat)
    requires i <= |s|
    ensures i <= k <= |s|
    ensures k < |s| ==> s[k] == '\n'
    ensures forall j :: i <= j < k ==> s[j] != '\n'
    decreases |s| - i
  {
    if i == |s| || s[i] == '\n' then i else NextBreak(s, i + 1)
  }

  /** `s.split('\n')`: the pieces between line breaks, at least one. */
  function Split(s: string): (pieces: seq<string>)
    ensures |pieces| > 0
    ensures NoLineBreaks(pieces)
    decreases |s|
  {
    var k := NextBreak(s, 0);
    if k == |s| then [s] else [s[..k]] + Split(s[k + 1..])
  }

  /** The lines of a file: its pieces, without the empty one after a final break. */
  function ReadLines(content: string): seq<string> {
    var pieces := Split(content);
    if pieces[|pieces| - 1] == "" then pieces[..|pieces| - 1] else pieces
  }

  /** A first line without a break is split off exactly. */
  lemma SplitAfterLine(line: string, rest: string)
    requires '\n' !in line
    ensures Split(line + "\n" + rest) == [line] + Split(rest)
  {
    var s := line + "\n" + rest;
    assert forall j :: 0 <= j < |line| ==> s[j] == line[j];
    assert s[|line|] == '\n';
    assert s[..|line|] == line;
    assert s[|line| + 1..] == rest;
  }

  /** The serialised file splits into the lines and one empty piece. */
  lemma {:induction false} SplitSerialise(lines: seq<string>)
    requires NoLineBreaks(lines)
    ensures Split(Serialise(lines)) == lines + [""]
  {
    if |lines| > 0 {
      SplitAfterLine(lines[0], Serialise(lines[1..]));
      SplitSerialise(lines[1..]);
      assert lines == [lines[0]] + lines[1..];
    }
  }

  /** Reading the file back gives the list that was written. */
  lemma ReadBack(lines: seq<string>)
    requires NoLineBreaks(lines)
    ensures ReadLines(Serialise(lines)) == lines
  {
    SplitSerialise(lines);
    assert (lines + [""])[..|lines|] == lines;
  }

  /** Writing one more line appends it and its break to the file. */
  lemma {:induction false} SerialiseSnoc(lines: seq<string>, line: string)
    ensures Serialise(lines + [line]) == Serialise(lines) + line + "\n"
  {
    if |lines| > 0 {
      SerialiseSnoc(lines[1..], line);
      assert (lines + [line])[1..] == lines[1..] + [line];
    }
  }

  /** Number of occurrences of `c` in `s`. */
  function Occurrences(c: char, s: string): nat {
    if |s| == 0 then 0 else (if s[0] == c then 1 else 0) + Occurrences(c, s[1..])
  }

  lemma {:induction false} OccurrencesAppend(c: char, a: string, b: string)
    ensures Occurrences(c, a + b) == Occurrences(c, a) + Occurrences(c, b)
    decreases |a|
  {
    if |a| > 0 {
      OccurrencesAppend(c, a[1..], b);
      assert (a + b)[1..] == a[1..] + b;
    } else {
      assert a + b == b;
    }
  }

  lemma {:induction false} NoOccurrences(c: char, s: string)
    requires c !in s
    ensures Occurrences(c, s) == 0
    decreases |s|
  {
    if |s| > 0 {
      assert forall j :: 0 <= j < |s| - 1 ==> s[1..][j] == s[j + 1];
      NoOccurrences(c, s[1..]);
    }
  }

  /** The file holds one line break per host. */
  lemma {:induction false} BreakPerLine(lines: seq<string>)
    requires NoLineBreaks(lines)
    ensures Occurrences('\n', Serialise(lines)) == |lines|
  {
    if |lines| > 0 {
      BreakPerLine(lines[1..]);
      NoOccurrences('\n', lines[0]);
      OccurrencesAppend('\n', lines[0], "\n");
      OccurrencesAppend('\n', lines[0] + "\n", Serialise(lines[1..]));
    }
  }

  /** The write loop of main.py:77-79 and the count of main.py:83. */
  method WriteHosts(hosts: seq<string>) returns (content: string, count: nat)
    ensures NoLineBreaks(hosts) ==> ReadLines(content) == hosts
    ensures NoLineBreaks(hosts) ==> Occurrences('\n', content) == count
    ensures count == |hosts|
  {
    content := "";
    var i := 0;
    while i < |hosts|
      invariant i <= |hosts|
      invariant content == Serialise(hosts[..i])
    {
      SerialiseSnoc(hosts[..i], hosts[i]);
      assert hosts[..i + 1] == hosts[..i] + [hosts[i]];
      content := content + hosts[i] + "\n";
      i := i + 1;
    }
    assert hosts[..i] == hosts;
    count := |hosts|;
    if NoLineBreaks(hosts) {
      ReadBack(hosts);
      BreakPerLine(hosts);
    }
  }
}
