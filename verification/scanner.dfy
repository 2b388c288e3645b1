/**
 The host pattern of main.py:32 applied with `re.search` (main.py:38),
 written as a deterministic scanner.

 Neither `\s` nor the host class contains ':', and no host character is
 whitespace. The match Python's leftmost, greedy engine reports is taken to
 be the greedy one: each `\s*` stops at the first non-space, the host run
 is taken whole, and the optional port is taken whenever a ':' and at least
 one digit follow the run. `GreedyMatchUnique` shows that at one start only
 one span is greedy in this sense.
 */
module Scanner {
  import opened Chars

  datatype Option<T> = None | Some(value: T)

  /** Positions of one match of the pattern: the ':' after the label, and
      the capture group s[hostStart..end], whose host run is s[hostStart..hostEnd]. */
  datatype Span = Span(colon: nat, hostStart: nat, hostEnd: nat, end: nat)

  /** A successful `re.search`: where the pattern starts, and its positions. */
  datatype Found = Found(start: nat, span: Span)

  /** End of the longest run of class `k` starting at `i`. */
  function RunEnd(s: string, i: nat, k: Class): (j: nat)
    requires i <= |s|
    ensures i <= j <= |s|
    ensures All(k, s[i..j])
    ensures j < |s| ==> !In(k, s[j])
    decreases |s| - i
  {
    if i < |s| && In(k, s[i]) then RunEnd(s, i + 1, k) else i
  }

  predicate StartsWithLabel(s: string, i: nat) {
    i + |Label| <= |s| && s[i..i + |Label|] == Label
  }

  /** The mandatory part of the pattern fits at `i` with these positions:
      label, spaces, ':', spaces, a non-empty host run s[hostStart..hostEnd].
      Any positions that fit count, not only the greedy ones. */
  ghost predicate Fits(s: string, i: nat, colon: nat, hostStart: nat, hostEnd: nat) {
    && StartsWithLabel(s, i)
    && i + |Label| <= colon < hostStart < hostEnd <= |s|
    && s[colon] == ':'
    && All(Space, s[i + |Label|..colon])
    && All(Space, s[colon + 1..hostStart])
    && All(Host, s[hostStart..hostEnd])
  }

  /** The regex succeeds when started at position `i`. The optional port
      group can always be skipped, so it plays no part here. */
  ghost predicate PatternAt(s: string, i: nat) {
    exists colon, hostStart, hostEnd :: Fits(s, i, colon, hostStart, hostEnd)
  }

  /** A ':' followed by at least one digit starts at `e`. */
  predicate PortFollows(s: string, e: nat) {
    e + 1 < |s| && s[e] == ':' && IsDigit(s[e + 1])
  }

  /** `sp` is the match the regex engine reports at `i`: the host run and
      the port digit run are maximal, and the port is taken exactly when
      ':' and a digit follow the host run. */
  ghost predicate IsGreedyMatch(s: string, i: nat, sp: Span) {
    && Fits(s, i, sp.colon, sp.hostStart, sp.hostEnd)
    && (sp.hostEnd == |s| || !IsHostChar(s[sp.hostEnd]))
    && sp.hostEnd <= sp.end <= |s|
    && (if PortFollows(s, sp.hostEnd)
        then sp.hostEnd + 1 < sp.end
             && All(Digit, s[sp.hostEnd + 1..sp.end])
             && (sp.end == |s| || !IsDigit(s[sp.end]))
        else sp.end == sp.hostEnd)
  }

  /** The pattern anchored at `i` (one attempt of `re.search`). */
  function MatchAt(s: string, i: nat): (r: Option<Span>)
    ensures r.Some? ==> IsGreedyMatch(s, i, r.value)
  {
    if !StartsWithLabel(s, i) then None
    else
      var colon := RunEnd(s, i + |Label|, Space);
      if colon == |s| || s[colon] != ':' then None
      else
        var hostStart := RunEnd(s, colon + 1, Space);
        var hostEnd := RunEnd(s, hostStart, Host);
        if hostEnd == hostStart then None
        else if PortFollows(s, hostEnd) then Some(Span(colon, hostStart, hostEnd, RunEnd(s, hostEnd + 1, Digit)))
        else Some(Span(colon, hostStart, hostEnd, hostEnd))
  }

  /** A run of class `k` from `i` to `j` that cannot be extended ends where `RunEnd` does. */
  lemma RunEndAt(s: string, i: nat, j: nat, k: Class)
    requires i <= j <= |s|
    requires All(k, s[i..j])
    ensures RunEnd(s, i, k) >= j
    ensures j < |s| && !In(k, s[j]) ==> RunEnd(s, i, k) == j
  {
  }

  /** Whenever the pattern can succeed at `i`, the scanner finds a match there. */
  lemma MatchAtComplete(s: string, i: nat, colon: nat, hostStart: nat, hostEnd: nat)
    requires Fits(s, i, colon, hostStart, hostEnd)
    ensures MatchAt(s, i).Some?
  {
    RunEndAt(s, i + |Label|, colon, Space);
    RunEndAt(s, colon + 1, hostStart, Space);
    RunEndAt(s, hostStart, hostEnd, Host);
  }

  /** The scanner succeeds at `i` exactly when the regex does. */
  lemma MatchAtExact(s: string, i: nat)
    ensures MatchAt(s, i).Some? <==> PatternAt(s, i)
  {
    var r := MatchAt(s, i);
    if r.Some? {
      assert Fits(s, i, r.value.colon, r.value.hostStart, r.value.hostEnd);
    }
    if PatternAt(s, i) {
      var colon, hostStart, hostEnd :| Fits(s, i, colon, hostStart, hostEnd);
      MatchAtComplete(s, i, colon, hostStart, hostEnd);
    }
  }

  /** Two maximal runs of the same class from the same start end at the same place. */
  lemma MaximalRunsAgree(s: string, i: nat, j1: nat, j2: nat, k: Class)
    requires i <= j1 <= |s| && i <= j2 <= |s|
    requires All(k, s[i..j1]) && (j1 < |s| ==> !In(k, s[j1]))
    requires All(k, s[i..j2]) && (j2 < |s| ==> !In(k, s[j2]))
    ensures j1 == j2
  {
    RunEndAt(s, i, j1, k);
    RunEndAt(s, i, j2, k);
  }

  /** At any position there is at most one greedy match: backtracking
      cannot produce a different capture. */
  lemma GreedyMatchUnique(s: string, i: nat, a: Span, b: Span)
    requires IsGreedyMatch(s, i, a) && IsGreedyMatch(s, i, b)
    ensures a == b
  {
    MaximalRunsAgree(s, i + |Label|, a.colon, b.colon, Space);
    assert s[a.hostStart..a.hostEnd][0] == s[a.hostStart];
    assert s[b.hostStart..b.hostEnd][0] == s[b.hostStart];
    MaximalRunsAgree(s, a.colon + 1, a.hostStart, b.hostStart, Space);
    MaximalRunsAgree(s, a.hostStart, a.hostEnd, b.hostEnd, Host);
    if PortFollows(s, a.hostEnd) {
      MaximalRunsAgree(s, a.hostEnd + 1, a.end, b.end, Digit);
    }
  }

  /** Leftmost position at or after `from` where the pattern succeeds. */
  function SearchFrom(s: string, from: nat): (r: Option<Found>)
    ensures r.None? ==> forall p :: from <= p <= |s| ==> MatchAt(s, p).None?
    ensures r.Some? ==> from <= r.value.start <= |s| && MatchAt(s, r.value.start) == Some(r.value.span)
    ensures r.Some? ==> forall p :: from <= p < r.value.start ==> MatchAt(s, p).None?
    decreases |s| + 1 - from
  {
    if from > |s| then None
    else match MatchAt(s, from)
      case Some(sp) => Some(Found(from, sp))
      case None => SearchFrom(s, from + 1)
  }

  /** `re.search`: the greedy match at the leftmost position where the
      pattern succeeds; none when it succeeds nowhere. */
  function Search(s: string): (r: Option<Found>)
    ensures r.None? <==> forall p :: 0 <= p <= |s| ==> !PatternAt(s, p)
    ensures r.Some? ==> r.value.start <= |s| && PatternAt(s, r.value.start)
    ensures r.Some? ==> IsGreedyMatch(s, r.value.start, r.value.span)
    ensures r.Some? ==> forall p :: 0 <= p < r.value.start ==> !PatternAt(s, p)
  {
    assert forall p :: MatchAt(s, p).Some? <==> PatternAt(s, p) by {
      forall p ensures MatchAt(s, p).Some? <==> PatternAt(s, p) {
        MatchAtExact(s, p);
      }
    }
    SearchFrom(s, 0)
  }

  /** The shape of a captured host: a non-empty run of host characters,
      then optionally ':' and one or more digits. */
  ghost predicate IsHostEntry(h: string) {
    exists k :: 0 < k <= |h| && HostSplit(h, k)
  }

  /** `h[..k]` is the host run and the rest, if any, is ':' and a digit run. */
  ghost predicate HostSplit(h: string, k: nat)
    requires 0 < k <= |h|
  {
    && All(Host, h[..k])
    && (k == |h| || (h[k] == ':' && k + 1 < |h| && All(Digit, h[k + 1..])))
  }

  /** `match.group(1)`: the captured text of a greedy match. */
  function Group(s: string, i: nat, sp: Span): (h: string)
    requires IsGreedyMatch(s, i, sp)
    ensures IsHostEntry(h)
    ensures |h| > 0
  {
    var h := s[sp.hostStart..sp.end];
    var k := sp.hostEnd - sp.hostStart;
    assert h[..k] == s[sp.hostStart..sp.hostEnd];
    assert k < |h| ==> h[k + 1..] == s[sp.hostEnd + 1..sp.end];
    assert HostSplit(h, k);
    h
  }

  /** The host a text block yields: `pattern.search(text).group(1)`, if any. */
  function CaptureHost(text: string): (r: Option<string>)
    ensures r.Some? ==> IsHostEntry(r.value)
  {
    match Search(text)
    case None => None
    case Some(f) => Some(Group(text, f.start, f.span))
  }

  /** A block yields no host exactly when the pattern fails at every position. */
  lemma CaptureHostNone(text: string)
    ensures CaptureHost(text).None? <==> forall p :: 0 <= p <= |text| ==> !PatternAt(text, p)
  {
  }

  /** The host a block yields is the text of the greedy match at the
      leftmost position where the pattern succeeds, and nothing else. */
  lemma CaptureHostIsLeftmostMatch(text: string, h: string)
    ensures CaptureHost(text) == Some(h) <==>
      exists i: nat, sp: Span :: i <= |text| && IsGreedyMatch(text, i, sp)
        && (forall p :: 0 <= p < i ==> !PatternAt(text, p))
        && h == text[sp.hostStart..sp.end]
  {
    var r := Search(text);
    if CaptureHost(text) == Some(h) {
      var f := r.value;
      assert h == text[f.span.hostStart..f.span.end];
      assert IsGreedyMatch(text, f.start, f.span);
    }
    if exists i: nat, sp: Span :: i <= |text| && IsGreedyMatch(text, i, sp)
        && (forall p :: 0 <= p < i ==> !PatternAt(text, p))
        && h == text[sp.hostStart..sp.end]
    {
      var i: nat, sp: Span :| i <= |text| && IsGreedyMatch(text, i, sp)
        && (forall p :: 0 <= p < i ==> !PatternAt(text, p))
        && h == text[sp.hostStart..sp.end];
      assert PatternAt(text, i);
      var f := r.value;
      assert f.start == i;
      GreedyMatchUnique(text, i, sp, f.span);
    }
  }

  /** No character of a captured host is a line break. */
  lemma HostEntryHasNoNewline(h: string)
    requires IsHostEntry(h)
    ensures '\n' !in h
  {
    var k :| 0 < k <= |h| && HostSplit(h, k);
    forall j | 0 <= j < |h|
      ensures h[j] != '\n'
    {
      if j < k {
        assert h[..k][j] == h[j];
      } else if j > k {
        assert h[k + 1..][j - k - 1] == h[j];
      }
    }
  }
}
