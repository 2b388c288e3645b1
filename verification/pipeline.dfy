/**
 One run of `main` up to the summary count (main.py:64-83): the hosts are
 extracted, written one per line, and counted.
 */
module Pipeline {
  import opened Scanner
  import opened Collector
  import opened Serialiser

  /** Captured hosts never contain a line break, so the file has one line per host. */
  lemma CollectedHostsAreLines(blocks: seq<string>)
    ensures NoLineBreaks(Collect(blocks))
  {
    var hosts := Collect(blocks);
    CollectedAreHostEntries(blocks);
    forall j | 0 <= j < |hosts|
      ensures '\n' !in hosts[j]
    {
      HostEntryHasNoNewline(hosts[j]);
    }
  }

  /** The file written and the count reported for one page. */
  method Run(page: Page) returns (content: string, count: nat)
    ensures page.Unavailable? ==> content == "" && count == 0
    ensures page.Parsed? ==> ReadLines(content) == Collect(Readable(page.elements))
    ensures NoDuplicates(ReadLines(content))
    ensures count == |ReadLines(content)|
    ensures Occurrences('\n', content) == count
  {
    var hosts := ExtractSstpHosts(page);
    if page.Parsed? {
      CollectedHostsAreLines(Readable(page.elements));
    }
    content, count := WriteHosts(hosts);
  }
}
