/**
 The collecting loop of `extract_sstp_hosts` (main.py:22-46): every block
 text is searched for the host pattern and each captured host is kept
 unless an equal one was kept before, giving an order-preserving,
 first-occurrence deduplication. An exception ends the loop and the list
 gathered so far is returned.

 The deduplication is stated over the sequence of per-block capture results
 (`Captures`), so that its proofs do not depend on how a capture is found.
 */
module Collector {
  import opened Scanner

  predicate NoDuplicates(xs: seq<string>) {
    forall p, q :: 0 <= p < q < |xs| ==> xs[p] != xs[q]
  }

  /** What each block yields, in block order: at most one host per block. */
  function Captures(blocks: seq<string>): seq<Option<string>> {
    seq(|blocks|, k requires 0 <= k < |blocks| => CaptureHost(blocks[k]))
  }

  /** One iteration of the loop body (main.py:39-42), given what the block captured. */
  function Keep(hosts: seq<string>, captured: Option<string>): (next: seq<string>)
    ensures hosts <= next && |next| <= |hosts| + 1
    ensures forall h :: h in next <==> h in hosts || captured == Some(h)
    ensures NoDuplicates(hosts) ==> NoDuplicates(next)
  {
    match captured
    case None => hosts
    case Some(h) => if h in hosts then hosts else hosts + [h]
  }

  /** The loop of main.py:36-42 over the per-block captures, in order. */
  function Dedup(cs: seq<Option<string>>): (hosts: seq<string>)
    ensures NoDuplicates(hosts)
    ensures |hosts| <= |cs|
  {
    if |cs| == 0 then []
    else Keep(Dedup(cs[..|cs| - 1]), cs[|cs| - 1])
  }

  /** The hosts `extract_sstp_hosts` collects from the given block texts. */
  function Collect(blocks: seq<string>): (hosts: seq<string>)
    ensures NoDuplicates(hosts) && |hosts| <= |blocks|
  {
    Dedup(Captures(blocks))
  }

  /** Index of the first capture equal to `Some(h)`; |cs| when there is none. */
  function FirstHit(cs: seq<Option<string>>, h: string): (k: nat)
    ensures k <= |cs|
    ensures k < |cs| ==> cs[k] == Some(h)
    ensures forall j :: 0 <= j < k ==> cs[j] != Some(h)
  {
    if |cs| == 0 then 0
    else if cs[0] == Some(h) then 0
    else 1 + FirstHit(cs[1..], h)
  }

  /** Hosts appear in strictly increasing order of `key`. */
  predicate IncreasingBy(key: string -> nat, hosts: seq<string>) {
    forall p, q :: 0 <= p < q < |hosts| ==> key(hosts[p]) < key(hosts[q])
  }

  /** Hosts appear in the order of the block where each is first captured. */
  predicate InFirstHitOrder(cs: seq<Option<string>>, hosts: seq<string>) {
    forall p, q :: 0 <= p < q < |hosts| ==> FirstHit(cs, hosts[p]) < FirstHit(cs, hosts[q])
  }

  /** Appending a capture leaves every earlier first hit where it was. */
  lemma FirstHitSnoc(cs: seq<Option<string>>, c: Option<string>, h: string)
    ensures FirstHit(cs + [c], h) ==
      if FirstHit(cs, h) < |cs| then FirstHit(cs, h)
      else if c == Some(h) then |cs|
      else |cs| + 1
  {
    var all := cs + [c];
    assert forall j :: 0 <= j < |cs| ==> all[j] == cs[j];
    assert all[|cs|] == c;
  }

  /** A host is kept exactly when some block captures it. */
  lemma {:induction false} DedupMembers(cs: seq<Option<string>>)
    ensures forall h :: h in Dedup(cs) <==> FirstHit(cs, h) < |cs|
  {
    if |cs| > 0 {
      var init := cs[..|cs| - 1];
      var last := cs[|cs| - 1];
      assert cs == init + [last];
      DedupMembers(init);
      forall h ensures h in Dedup(cs) <==> FirstHit(cs, h) < |cs| {
        FirstHitSnoc(init, last, h);
      }
    }
  }

  /** Kept hosts follow the order of their first capture. */
  lemma {:induction false} DedupOrder(cs: seq<Option<string>>)
    ensures InFirstHitOrder(cs, Dedup(cs))
  {
    if |cs| > 0 {
      var init := cs[..|cs| - 1];
      var last := cs[|cs| - 1];
      assert cs == init + [last];
      DedupOrder(init);
      DedupMembers(init);
      var prev := Dedup(init);
      var hosts := Dedup(cs);
      forall p, q | 0 <= p < q < |hosts|
        ensures FirstHit(cs, hosts[p]) < FirstHit(cs, hosts[q])
      {
        FirstHitSnoc(init, last, hosts[p]);
        FirstHitSnoc(init, last, hosts[q]);
        assert hosts[p] == prev[p];
        if q < |prev| {
          assert hosts[q] == prev[q];
        } else {
          assert hosts[q] !in prev;
        }
      }
    }
  }

  /** Without duplicates, the tail holds every member but the head. */
  lemma TailMembers(a: seq<string>)
    requires NoDuplicates(a) && |a| > 0
    ensures forall h :: h in a[1..] <==> h in a && h != a[0]
  {
    forall h | h in a && h != a[0]
      ensures h in a[1..]
    {
      var i :| 0 <= i < |a| && a[i] == h;
      assert a[1..][i - 1] == h;
    }
  }

  /** Two non-empty lists with the same members, both increasing by `key`,
      start with the same host. */
  lemma IncreasingSameHead(key: string -> nat, a: seq<string>, b: seq<string>)
    requires NoDuplicates(a) && NoDuplicates(b)
    requires forall h :: h in a <==> h in b
    requires IncreasingBy(key, a) && IncreasingBy(key, b)
    requires |a| > 0
    ensures |b| > 0 && a[0] == b[0]
  {
    assert a[0] in a;
    var q :| 0 <= q < |b| && b[q] == a[0];
    assert b[0] in b;
    var p :| 0 <= p < |a| && a[p] == b[0];
    ghost var keyA := key(a[0]);
    ghost var keyB := key(b[0]);
    if p != 0 && q != 0 {
      assert false;
    }
  }

  /** Two duplicate-free lists with the same members, both strictly
      increasing by the same key, are the same list. */
  lemma {:induction false} IncreasingUnique(key: string -> nat, a: seq<string>, b: seq<string>)
    requires NoDuplicates(a) && NoDuplicates(b)
    requires forall h :: h in a <==> h in b
    requires IncreasingBy(key, a) && IncreasingBy(key, b)
    ensures a == b
    decreases |a|
  {
    if |b| > 0 {
      IncreasingSameHead(key, b, a);
    }
    if |a| > 0 {
      IncreasingSameHead(key, a, b);
      TailMembers(a);
      TailMembers(b);
      IncreasingUnique(key, a[1..], b[1..]);
      assert a == [a[0]] + a[1..];
      assert b == [b[0]] + b[1..];
    }
  }

  /** First-occurrence deduplication characterises the loop's result: any
      duplicate-free list of exactly the captured hosts, in first-capture
      order, is the one the loop builds. */
  lemma DedupIsFirstOccurrence(cs: seq<Option<string>>, hosts: seq<string>)
    requires NoDuplicates(hosts)
    requires forall h :: h in hosts <==> FirstHit(cs, h) < |cs|
    requires InFirstHitOrder(cs, hosts)
    ensures hosts == Dedup(cs)
  {
    DedupMembers(cs);
    DedupOrder(cs);
    var key := h => FirstHit(cs, h);
    assert IncreasingBy(key, hosts);
    assert IncreasingBy(key, Dedup(cs));
    IncreasingUnique(key, hosts, Dedup(cs));
  }

  /** The list kept after the first `n` captures is a prefix of the list
      kept after all of them: later blocks only append. */
  lemma {:induction false} DedupPrefix(cs: seq<Option<string>>, n: nat)
    requires n <= |cs|
    ensures Dedup(cs[..n]) <= Dedup(cs)
    decreases |cs| - n
  {
    if n < |cs| {
      var init := cs[..|cs| - 1];
      assert cs[..n] == init[..n];
      DedupPrefix(init, n);
    } else {
      assert cs[..n] == cs;
    }
  }

  /** In block terms: a host is collected exactly when some block yields it. */
  lemma CollectMembers(blocks: seq<string>)
    ensures forall h :: h in Collect(blocks) <==>
      exists k :: 0 <= k < |blocks| && CaptureHost(blocks[k]) == Some(h)
  {
    var cs := Captures(blocks);
    DedupMembers(cs);
    forall h
      ensures h in Collect(blocks) <==> exists k :: 0 <= k < |blocks| && CaptureHost(blocks[k]) == Some(h)
    {
      if h in Collect(blocks) {
        var k := FirstHit(cs, h);
        assert cs[k] == CaptureHost(blocks[k]);
      }
      if exists k :: 0 <= k < |blocks| && CaptureHost(blocks[k]) == Some(h) {
        var k :| 0 <= k < |blocks| && CaptureHost(blocks[k]) == Some(h);
        assert cs[k] == Some(h);
      }
    }
  }

  /** Every collected host has the shape of a captured host. */
  lemma CollectedAreHostEntries(blocks: seq<string>)
    ensures forall h :: h in Collect(blocks) ==> IsHostEntry(h)
  {
    var cs := Captures(blocks);
    DedupMembers(cs);
    forall h | h in Collect(blocks)
      ensures IsHostEntry(h)
    {
      var k := FirstHit(cs, h);
      assert cs[k] == CaptureHost(blocks[k]);
    }
  }

  /** One more block is one more iteration of the loop body. */
  lemma CollectSnoc(blocks: seq<string>, b: string)
    ensures Collect(blocks + [b]) == Keep(Collect(blocks), CaptureHost(b))
  {
    var cs := Captures(blocks + [b]);
    assert cs == Captures(blocks) + [CaptureHost(b)];
    assert cs[..|cs| - 1] == Captures(blocks);
  }

  /** What `element.parent.get_text()` gave for one element found at
      main.py:34: its text, or an exception. */
  datatype Element = Text(text: string) | Raises

  /** The page after main.py:28-34: the fetch, the status check or the parse
      failed, or the list of elements containing the label. */
  datatype Page = Unavailable | Parsed(elements: seq<Element>)

  /** Index of the first element whose text could not be read; |es| if none. */
  function FirstRaise(es: seq<Element>): (k: nat)
    ensures k <= |es|
    ensures forall j :: 0 <= j < k ==> es[j].Text?
    ensures k < |es| ==> es[k].Raises?
  {
    if |es| == 0 || es[0].Raises? then 0 else 1 + FirstRaise(es[1..])
  }

  /** The texts the loop reads before an exception stops it. */
  function Readable(es: seq<Element>): (texts: seq<string>)
    ensures |texts| == FirstRaise(es)
    ensures forall j :: 0 <= j < |texts| ==> es[j] == Text(texts[j])
  {
    var k := FirstRaise(es);
    seq(k, j requires 0 <= j < k => es[j].text)
  }

  /** The loop body of main.py:37-42 for one readable text. */
  method VisitBlock(hosts: seq<string>, text: string) returns (next: seq<string>)
    ensures hosts <= next && |next| <= |hosts| + 1
    ensures forall h :: h in next <==> h in hosts || CaptureHost(text) == Some(h)
    ensures NoDuplicates(hosts) ==> NoDuplicates(next)
    ensures next == Keep(hosts, CaptureHost(text))
  {
    next := hosts;
    var found := Search(text);
    if found.Some? {
      var host := Group(text, found.value.start, found.value.span);
      if host !in hosts {
        next := hosts + [host];
      }
    }
  }

  /** `extract_sstp_hosts` after its network step: the loop of main.py:36-42
      with the exception handler of main.py:43-46. */
  method ExtractSstpHosts(page: Page) returns (hosts: seq<string>)
    ensures page.Unavailable? ==> hosts == []
    ensures page.Parsed? ==> hosts == Collect(Readable(page.elements))
    ensures NoDuplicates(hosts)
  {
    hosts := [];
    if page.Unavailable? {
      return;
    }
    var es := page.elements;
    ghost var texts := Readable(es);
    var i := 0;
    while i < |es| && es[i].Text?
      invariant i <= FirstRaise(es)
      invariant hosts == Collect(texts[..i])
    {
      var text := es[i].text;
      assert texts[..i + 1] == texts[..i] + [text];
      CollectSnoc(texts[..i], text);
      hosts := VisitBlock(hosts, text);
      i := i + 1;
    }
    assert texts[..i] == texts;
  }
}
