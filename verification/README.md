# SSTP host extraction — a Dafny model

This project models the host-extraction core of the VPN Gate SSTP scraper
(`main.py`). The scraper finds every element of the VPN Gate page whose text
mentions `SSTP Hostname`. It applies the pattern

    SSTP Hostname\s*:\s*([a-zA-Z0-9\.\-]+(?::\d+)?)

with `re.search` to each element's parent text and keeps every captured
`host` or `host:port` once, in first-seen order. `main` then writes the list to
`sstp_hosts.txt`, one host per line, and reports its length.

The model takes the parent texts as input and consists of six modules:

- `Chars`: the pattern's character classes. `\s` is the set of characters for
  which Python's `str.isspace()` holds. `\d` is the set of Unicode decimal
  digits, listed as the first code point of each run of ten. The host class is
  ASCII only.
- `Scanner`: a deterministic scanner for the pattern. `MatchAt` handles one
  anchored attempt, `Search` finds the leftmost position where the pattern
  succeeds, and `Group` returns the captured text. No class contains `:`, and
  no host character is whitespace. The model takes the match Python's
  leftmost, greedy engine reports to be the greedy one described by
  `IsGreedyMatch`; this is a reading of the engine's semantics, not a theorem.
  What is proved, by `GreedyMatchUnique`, is that at a given start at most one
  span is greedy in that sense. `PatternAt`
  defines declaratively whether the regex succeeds at a position, allowing any
  choice of positions. `MatchAtExact` proves that the scanner agrees with it.
- `Collector`: the loop of `extract_sstp_hosts`. `Captures` gives the
  capture result of each block, in block order. `Dedup` is the loop as a fold
  over those results, and `Collect` applies it to the block texts.
  `FirstHit` gives the index of the first block that captures a host, and the
  lemmas tie the kept list to it:
  - the list holds exactly the captured hosts;
  - it has no duplicates;
  - it is ordered by `FirstHit`;
  - it is the only such list.

  `ExtractSstpHosts` is the loop together with its `try`/`except`. A failed
  fetch or parse gives `[]`. When reading an element's text raises, the loop
  stops and the hosts gathered so far are returned.
- `Serialiser`: the output file and the reported count. `Serialise` writes
  `host + "\n"` for each host. `ReadLines` splits the file on `'\n'` and drops
  the final empty piece, which gives back the list. The file holds exactly one
  line break per host.
- `Pipeline`: one run of `main` up to the summary count.
- `Scenarios`: two concrete texts and the hosts they yield.

`main.py` writes the hosts in first-occurrence order, unsorted, exactly as
captured: no port is added to a host that has none.

## Model

| member | source | states |
|---|---|---|
| Chars.IsSpace | main.py:32 | `\s` on a `str` pattern: exactly the characters for which Python's `str.isspace()` holds |
| Chars.IsDigit | main.py:32 | `\d` on a `str` pattern: any Unicode decimal digit (general category Nd), ASCII or not |
| Chars.IsHostChar | main.py:32 | `[a-zA-Z0-9\.\-]`: ASCII letters, ASCII digits, `.` and `-`, and nothing else |
| Chars.ClassesSeparate | main.py:32 | `:` belongs to none of the three classes, no host character is whitespace, a line break is whitespace but neither a host character nor a digit, and ASCII digits are both host characters and `\d` |
| Scanner.RunEnd | main.py:32 | `\s*` and the `+` runs are greedy: the run found lies wholly in its class and cannot be extended |
| Scanner.MatchAt | main.py:32 | a match at a position is the greedy one. The label is followed by whitespace, `:`, whitespace and a non-empty maximal host run. The port is taken exactly when `:` and a digit follow the run, and its digit run is maximal |
| Scanner.MatchAtComplete | main.py:32 | wherever the pattern fits with some choice of positions, the scanner matches there |
| Scanner.MatchAtExact | main.py:32 | the scanner succeeds at a position if and only if the regex can succeed there |
| Scanner.GreedyMatchUnique | main.py:32 | at a given start at most one span has maximal runs throughout, so the greedy reading of the pattern fixes the capture |
| Scanner.SearchFrom | main.py:38 | the search tries start positions left to right and stops at the first one that matches |
| Scanner.Search | main.py:38 | `re.search` finds no match exactly when the pattern fails at every position. Otherwise it returns the greedy match at the leftmost position where the pattern succeeds, and all earlier positions fail |
| Scanner.Group | main.py:40 | the captured group is non-empty: a run of `[a-zA-Z0-9.-]`, optionally followed by exactly one `:` and one or more digits |
| Scanner.CaptureHost | main.py:38-40 | the host a block yields, if any, is non-empty and has the captured-host shape; which host it is, is stated by `CaptureHostIsLeftmostMatch` |
| Scanner.CaptureHostNone | main.py:38-39 | a block yields no host exactly when the pattern fails at every position in it |
| Scanner.CaptureHostIsLeftmostMatch | main.py:38-40 | a block yields host `h` exactly when `h` is the captured text of a greedy match at some position where the pattern succeeds and it fails at every earlier position |
| Scanner.HostEntryHasNoNewline | main.py:32 | no captured host contains a line break |
| Scenarios.PortIsTaken | main.py:32-40 | in `SSTP Hostname:a:1` the digits after the second `:` belong to the capture, which is `a:1` |
| Scenarios.ColonWithoutDigitsIsNoPort | main.py:32-40 | in `SSTP Hostname:a:x` the optional port group is skipped because no digit follows the `:`, so the capture is `a` |
| Collector.Keep | main.py:39-42 | one iteration keeps the list as a prefix of its result and adds at most one host: the captured one, unless it is already present. Membership becomes old members plus the capture, and a duplicate-free list stays duplicate-free |
| Collector.Dedup | main.py:36-42 | the kept list has no duplicates and holds at most one host per block |
| Collector.Collect | main.py:36-42 | the hosts collected from the block texts have no duplicates and number at most one per block |
| Collector.DedupMembers | main.py:36-42 | a host is kept exactly when some block's capture is that host |
| Collector.DedupOrder | main.py:36-42 | if host x is first captured in an earlier block than host y, x comes before y |
| Collector.DedupIsFirstOccurrence | main.py:36-42 | only the loop's result is a duplicate-free list of exactly the captured hosts in first-capture order |
| Collector.DedupPrefix | main.py:36-46 | the list after the first n blocks is a prefix of the list after all of them, so an early stop returns a prefix of the full result |
| Collector.CollectMembers | main.py:36-42 | in terms of block texts, a host is collected exactly when some block's search captures it |
| Collector.CollectedAreHostEntries | main.py:32-42 | every collected host has the captured-host shape |
| Collector.VisitBlock | main.py:37-42 | one loop iteration on a block text never removes or reorders a kept host and adds at most one. The result holds the old hosts plus the host the text captures, if any, and stays free of duplicates |
| Collector.Readable | main.py:37 | the texts read are exactly those of the elements before the first one whose text raises |
| Collector.ExtractSstpHosts | main.py:22-46 | a failed fetch or parse returns `[]`. Otherwise the result is the collected list of the texts read before the first exception, without duplicates |
| Serialiser.Serialise | main.py:78-79 | the file is empty exactly when there are no hosts, and otherwise ends with a line break |
| Serialiser.SerialiseSnoc | main.py:78-79 | writing one more host appends that host and a line break to the file |
| Serialiser.SplitSerialise | main.py:77-79 | splitting the file on line breaks gives the hosts followed by one empty piece |
| Serialiser.ReadBack | main.py:77-79 | reading the file back, without the final empty piece, recovers the host list exactly and in order |
| Serialiser.BreakPerLine | main.py:77-79 | the file contains exactly one line break per host |
| Serialiser.WriteHosts | main.py:77-83 | the written content reads back as the list, and the reported count is the list's length, which equals the number of lines written |
| Pipeline.CollectedHostsAreLines | main.py:32 | every collected host fits on one line of the output file |
| Pipeline.Run | main.py:75-83 | the file reads back as the deduplicated host list, and the reported count equals both the number of lines read back and the number of line breaks in the file, one after each host. An unavailable page gives an empty file and a count of 0 |

## Left out

- HTTP fetch, the User-Agent header, the 30-second timeout and `raise_for_status` (main.py:23-29): these are network I/O. Their failure is modelled only as `Page.Unavailable`.
- HTML parsing, `find_all` and `element.parent.get_text()` (main.py:31, 34, 37) belong to a third-party library. The model takes the resulting texts as input, and an element whose text cannot be read as `Element.Raises`. It does not assume that each text contains the label. Blocks without it simply yield nothing.
- The printed error message (main.py:44) is console output.
- Configuration from the environment and the choice of output path (main.py:10-20) are process state.
- Opening and writing the output file (main.py:77-79): only the content string is modelled, as characters rather than UTF-8 bytes. A failed `open` ends the run and is not modelled.
- Zip archiving and the existence check (main.py:87-91) are file I/O.
- Telegram delivery (main.py:48-62, 95-96) is a network client.
- Timing, the date stamp and the summary-report text (main.py:65-71, 83-85, 93) depend on the clock or are formatting. Only the count on line 83 is modelled.
- Chars.IsDigit: the decimal-digit table follows Unicode 15.0/15.1, the database of Python 3.12 and 3.13. Python builds with other Unicode versions accept a slightly different set of port digits.
- Serialiser.WriteHosts: the read-back guarantee assumes that no host contains a line break. `Pipeline.CollectedHostsAreLines` proves this holds for every collected host.
