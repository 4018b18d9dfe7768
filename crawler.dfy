/**
 * The crawler's feedback loop as a sequential state machine: workers pop an
 * address from `linkq`, fetch it and publish its links as one batch onto
 * `resultsq`; the orchestrator pops a batch and pushes every link it has not
 * seen before onto `linkq`.  Each step is atomic; goroutine scheduling is the
 * choice of which step runs next.
 */
module Crawler {
  import opened Wrappers

  /** Buffer size of the `linkq` channel. */
  const LinkQueueCapacity: nat := 1000

  /** Buffer size of the `resultsq` channel. */
  const ResultsQueueCapacity: nat := 1000

  /** The pause, in milliseconds, a worker takes after a successful fetch. */
  const FetchDelayMillis: nat := 500

  /** The page fetcher: the links of the page at an address, or None when fetching or parsing fails. */
  type Fetcher = string -> Option<seq<string>>

  predicate Distinct<T(==)>(s: seq<T>) {
    forall i, j :: 0 <= i < j < |s| ==> s[i] != s[j]
  }

  function Elems<T>(s: seq<T>): set<T> {
    set x | x in s
  }

  /**
   * The links the orchestrator pushes while walking `batch` in order, starting
   * with the set `seen`: each link that is neither in `seen` nor earlier in the batch.
   */
  function Fresh(seen: set<string>, batch: seq<string>): (r: seq<string>)
    ensures |r| <= |batch|
  {
    if batch == [] then []
    else
      var init, link := batch[..|batch| - 1], batch[|batch| - 1];
      Fresh(seen, init) + (if link in seen || link in init then [] else [link])
  }

  /** A link is pushed iff it occurs in the batch and was not seen before; none is pushed twice. */
  lemma {:induction false} FreshMembers(seen: set<string>, batch: seq<string>)
    ensures forall x :: x in Fresh(seen, batch) <==> x in batch && x !in seen
    ensures Distinct(Fresh(seen, batch))
  {
    if batch != [] {
      var init, link := batch[..|batch| - 1], batch[|batch| - 1];
      FreshMembers(seen, init);
      assert batch == init + [link];
    }
  }

  /**
   * Walking a batch in two pieces, the second starting with everything the
   * first one saw, pushes what one uninterrupted walk pushes.
   */
  lemma {:induction false} FreshAppend(seen: set<string>, a: seq<string>, b: seq<string>)
    ensures Fresh(seen, a + b) == Fresh(seen, a) + Fresh(seen + Elems(a), b)
    decreases |b|
  {
    if b == [] {
      assert a + b == a;
    } else {
      var init, link := b[..|b| - 1], b[|b| - 1];
      FreshAppend(seen, a, init);
      assert (a + b)[..|a + b| - 1] == a + init;
      assert (link in seen || link in a + init) <==> (link in seen + Elems(a) || link in init);
    }
  }

  /**
   * Across orchestrator passes: if the pushes so far are distinct and are
   * exactly the seen set, the same holds after walking one more batch, so no
   * address is ever pushed twice by the dedup loop.
   */
  lemma DedupPreservesDistinct(pushed: seq<string>, batch: seq<string>)
    requires Distinct(pushed)
    ensures Distinct(pushed + Fresh(Elems(pushed), batch))
    ensures Elems(pushed + Fresh(Elems(pushed), batch)) == Elems(pushed) + Elems(batch)
  {
    var added := Fresh(Elems(pushed), batch);
    FreshMembers(Elems(pushed), batch);
    var all := pushed + added;
    forall i, j | 0 <= i < j < |all| ensures all[i] != all[j] {
      if j >= |pushed| {
        assert all[j] in added;
        if i < |pushed| {
          assert all[i] in pushed;
        }
      }
    }
  }

  /** Examining one more link of the batch: it is pushed iff it is new to everything seen so far. */
  lemma FreshStep(seen: set<string>, batch: seq<string>, i: nat)
    requires i < |batch|
    ensures Elems(batch[..i + 1]) == Elems(batch[..i]) + {batch[i]}
    ensures Fresh(seen, batch[..i + 1]) ==
      Fresh(seen, batch[..i]) + (if batch[i] in seen + Elems(batch[..i]) then [] else [batch[i]])
  {
    assert batch[..i + 1] == batch[..i] + [batch[i]];
    assert batch[..i + 1][..i] == batch[..i];
  }

  lemma SuffixAppend<T>(a: seq<T>, b: seq<T>, k: nat)
    requires k <= |a|
    ensures (a + b)[k..] == a[k..] + b
  {
  }

  /** In a list without repeats every element occurs once. */
  lemma {:induction false} DistinctCount<T>(s: seq<T>, x: T)
    requires Distinct(s)
    ensures multiset(s)[x] == (if x in s then 1 else 0)
  {
    if s != [] {
      var init := s[..|s| - 1];
      DistinctCount(init, x);
      assert s == init + [s[|s| - 1]];
    }
  }

  /** Putting the unexamined rest of the head batch back keeps every batch non-empty and the queue no longer. */
  lemma Requeue(rq: seq<seq<string>>, processed: nat)
    requires rq != [] && processed <= |rq[0]|
    requires forall i :: 0 <= i < |rq| ==> rq[i] != []
    ensures var r := (if processed == |rq[0]| then [] else [rq[0][processed..]]) + rq[1..];
      |r| <= |rq| && forall i :: 0 <= i < |r| ==> r[i] != []
  {
  }

  /** A prefix holds no element more often than the whole list. */
  lemma CountPrefix<T>(s: seq<T>, k: nat, x: T)
    requires k <= |s|
    ensures multiset(s[..k])[x] <= multiset(s)[x]
  {
    assert s == s[..k] + s[k..];
  }

  /**
   * Over a whole run, `linkq` receives the seed once and then each pushed link
   * once: an address other than the seed enters it at most once, and the seed
   * at most twice (once more if some page links back to it).
   */
  lemma EnqueuedAtMost(seed: string, pushed: seq<string>, x: string)
    requires Distinct(pushed)
    ensures multiset([seed] + pushed)[x] <= (if x == seed then 2 else 1)
    ensures x != seed ==> (multiset([seed] + pushed)[x] == 1 <==> x in pushed)
  {
    DistinctCount(pushed, x);
  }

  /**
   * The orchestrator's inner `for` loop over one batch, on the values of
   * `seen` and `linkq`.  Walks `batch` in order; each link not yet seen is
   * marked seen and pushed.  Stops before an unseen link when the queue is
   * full, and returns how many links it examined.
   */
  method WalkBatch(seen: set<string>, linkq: seq<string>, batch: seq<string>)
    returns (processed: nat, seen': set<string>, linkq': seq<string>)
    requires |linkq| <= LinkQueueCapacity
    ensures processed <= |batch|
    ensures seen' == seen + Elems(batch[..processed])
    ensures linkq' == linkq + Fresh(seen, batch[..processed])
    ensures |linkq'| <= LinkQueueCapacity
    ensures processed == |batch| || (batch[processed] !in seen' && |linkq'| == LinkQueueCapacity)
    ensures |linkq| + |batch| <= LinkQueueCapacity ==> processed == |batch|
  {
    seen', linkq' := seen, linkq;
    processed := 0;
    while processed < |batch|
      invariant 0 <= processed <= |batch|
      invariant seen' == seen + Elems(batch[..processed])
      invariant linkq' == linkq + Fresh(seen, batch[..processed])
      invariant |linkq'| <= LinkQueueCapacity
    {
      var link := batch[processed];
      FreshStep(seen, batch, processed);
      if link !in seen' {
        if |linkq'| == LinkQueueCapacity {
          break;
        }
        seen' := seen' + {link};
        linkq' := linkq' + [link];
      }
      processed := processed + 1;
    }
  }

  class Crawler {
    /** The address given on the command line. */
    const seed: string
    /** The orchestrator's `seen` map, as the set of its true keys. */
    var seen: set<string>
    /** The buffered `linkq` channel, front first. */
    var linkq: seq<string>
    /** The buffered `resultsq` channel, front first. */
    var resultsq: seq<seq<string>>
    /** The batches held by publish goroutines that have not sent them yet, in no particular order. */
    var pending: seq<seq<string>>

    /** Every address the dedup loop has pushed onto `linkq`, in push order. */
    ghost var pushed: seq<string>
    /** How many addresses workers have popped from `linkq`. */
    ghost var popped: nat

    /** Everything ever pushed onto `linkq`: the seed, then the dedup loop's pushes. */
    ghost function Enqueued(): seq<string>
      reads this
    {
      [seed] + pushed
    }

    /** The addresses workers have fetched so far, in the order they were popped. */
    ghost function Fetched(): seq<string>
      reads this
      requires popped <= |Enqueued()|
    {
      Enqueued()[..popped]
    }

    ghost predicate Valid()
      reads this
      ensures Valid() ==> forall x :: x in linkq && x != seed ==> x in seen
    {
      && Distinct(pushed)
      && seen == Elems(pushed)
      && popped <= |Enqueued()|
      && linkq == Enqueued()[popped..]
      && |linkq| <= LinkQueueCapacity
      && |resultsq| <= ResultsQueueCapacity
      && (forall i :: 0 <= i < |resultsq| ==> resultsq[i] != [])
      && (forall i :: 0 <= i < |pending| ==> pending[i] != [])
    }

    /** Apart from the seed, no address is fetched twice. */
    lemma FetchedAtMostOnce(x: string)
      requires Valid() && x != seed
      ensures multiset(Fetched())[x] <= 1
    {
      CountPrefix(Enqueued(), popped, x);
      EnqueuedAtMost(seed, pushed, x);
    }

    /** Start-up of `main`: the seed goes onto `linkq`, and `seen` starts empty without it. */
    constructor (seed: string)
      ensures Valid()
      ensures this.seed == seed
      ensures linkq == [seed] && seen == {} && resultsq == [] && pending == []
      ensures pushed == [] && popped == 0
    {
      this.seed := seed;
      linkq := [seed];
      seen := {};
      resultsq := [];
      pending := [];
      pushed := [];
      popped := 0;
    }

    /**
     * One iteration of a worker's loop.  Pops an address (returned in `link`),
     * fetches it, and, when the fetch succeeded and the page had links,
     * starts a publish goroutine holding them as one batch.  `delay` is the
     * pause the worker takes, which a failed fetch skips.  With `linkq` empty
     * the worker is blocked and nothing happens.
     */
    method WorkerStep(fetch: Fetcher) returns (link: Option<string>, delay: nat)
      requires Valid()
      modifies this
      ensures Valid()
      ensures seen == old(seen) && pushed == old(pushed) && resultsq == old(resultsq)
      ensures old(linkq) == [] ==>
        link == None && delay == 0 && linkq == [] && pending == old(pending) && popped == old(popped)
      ensures old(linkq) != [] ==>
        link == Some(old(linkq)[0]) && linkq == old(linkq)[1..] && popped == old(popped) + 1
      ensures link.Some? && fetch(link.value).None? ==> pending == old(pending) && delay == 0
      ensures link.Some? && fetch(link.value) == Some([]) ==> pending == old(pending) && delay == FetchDelayMillis
      ensures link.Some? && fetch(link.value).Some? && fetch(link.value).value != [] ==>
        pending == old(pending) + [fetch(link.value).value] && delay == FetchDelayMillis
    {
      if linkq == [] {
        return None, 0;
      }
      var address := linkq[0];
      linkq := linkq[1..];
      popped := popped + 1;
      link := Some(address);
      var plinks := fetch(address);
      if plinks.None? {
        return link, 0;
      }
      delay := FetchDelayMillis;
      if |plinks.value| > 0 {
        pending := pending + [plinks.value];
      }
    }

    /**
     * A publish goroutine's send: the pending batch chosen by `i` goes onto
     * `resultsq`.  The scheduler may pick any pending batch, so batches can
     * arrive in another order than their addresses were fetched.  With
     * `resultsq` full the send blocks and nothing happens.
     */
    method Deliver(i: nat) returns (sent: bool)
      requires Valid() && i < |pending|
      modifies this
      ensures Valid()
      ensures seen == old(seen) && linkq == old(linkq) && pushed == old(pushed) && popped == old(popped)
      ensures sent <==> |old(resultsq)| < ResultsQueueCapacity
      ensures sent ==>
        resultsq == old(resultsq) + [old(pending)[i]] && pending == old(pending)[..i] + old(pending)[i + 1..]
      ensures !sent ==> resultsq == old(resultsq) && pending == old(pending)
    {
      if |resultsq| == ResultsQueueCapacity {
        return false;
      }
      var batch := pending[i];
      resultsq := resultsq + [batch];
      pending := pending[..i] + pending[i + 1..];
      sent := true;
    }

    /**
     * One pass of the orchestrator's loop over `resultsq`.  Pops the head
     * batch and walks it in order, marking each unseen link seen and pushing
     * it onto `linkq`.  A push onto a full `linkq` blocks the orchestrator:
     * the walk stops before that link, and the links not yet examined stay at
     * the head of `resultsq` for the next pass.  `processed` is how many links
     * of the batch were examined.  With `resultsq` empty nothing happens.
     */
    method OrchestratorStep() returns (processed: nat)
      requires Valid()
      modifies this
      ensures Valid()
      ensures popped == old(popped) && pending == old(pending)
      ensures old(seen) <= seen
      ensures old(resultsq) == [] ==>
        processed == 0 && seen == old(seen) && linkq == old(linkq) && resultsq == [] && pushed == old(pushed)
      ensures old(resultsq) != [] ==>
        var batch := old(resultsq)[0];
        && processed <= |batch|
        && seen == old(seen) + Elems(batch[..processed])
        && linkq == old(linkq) + Fresh(old(seen), batch[..processed])
        && pushed == old(pushed) + Fresh(old(seen), batch[..processed])
        && (processed == |batch| || (batch[processed] !in seen && |linkq| == LinkQueueCapacity))
        && resultsq == (if processed == |batch| then [] else [batch[processed..]]) + old(resultsq)[1..]
      ensures old(resultsq) != [] && |old(linkq)| + |old(resultsq)[0]| <= LinkQueueCapacity ==>
        processed == |old(resultsq)[0]|
    {
      if resultsq == [] {
        return 0;
      }
      var batch := resultsq[0];
      var s, q;
      processed, s, q := WalkBatch(seen, linkq, batch);
      ghost var added := Fresh(seen, batch[..processed]);
      DedupPreservesDistinct(pushed, batch[..processed]);
      SuffixAppend([seed] + pushed, added, popped);
      Requeue(resultsq, processed);
      seen, linkq, pushed := s, q, pushed + added;
      resultsq := (if processed == |batch| then [] else [batch[processed..]]) + resultsq[1..];
    }

    /**
     * A quiet round with nothing in flight: a worker fetches the head
     * address, its batch is sent, and the orchestrator walks the batch.
     */
    method Round(fetch: Fetcher) returns (link: string)
      requires Valid() && linkq != [] && resultsq == [] && pending == []
      requires fetch(linkq[0]).Some? && fetch(linkq[0]).value != []
      requires |linkq| - 1 + |fetch(linkq[0]).value| <= LinkQueueCapacity
      modifies this
      ensures Valid() && resultsq == [] && pending == []
      ensures link == old(linkq)[0]
      ensures seen == old(seen) + Elems(fetch(link).value)
      ensures linkq == old(linkq)[1..] + Fresh(old(seen), fetch(link).value)
    {
      var l, _ := WorkerStep(fetch);
      link := l.value;
      var sent := Deliver(0);
      var batch := fetch(link).value;
      var n := OrchestratorStep();
      assert batch[..n] == batch;
    }
  }

  /**
   * A page that links back to the seed: the seed is fetched a second time,
   * after which it is in `seen` and never enqueued again.
   */
  method SeedRevisited() returns (fetched: seq<string>, seen: set<string>, linkq: seq<string>)
    ensures fetched == ["a", "a"]
    ensures seen == {"a"} && linkq == []
  {
    var fetch: Fetcher := x => Some(["a"]);
    var c := new Crawler("a");
    assert Fresh({}, ["a"]) == ["a"] && Fresh({"a"}, ["a"]) == [];
    assert Elems(["a"]) == {"a"};
    var l1 := c.Round(fetch);
    assert c.linkq == ["a"] && c.seen == {"a"};
    var l2 := c.Round(fetch);
    fetched := [l1, l2];
    seen, linkq := c.seen, c.linkq;
  }

  /** The pages of the overtaking scenario: s links to a and b, a to x, and b to y. */
  function OvertakeLinks(address: string): Option<seq<string>> {
    if address == "s" then Some(["a", "b"]) else if address == "a" then Some(["x"]) else Some(["y"])
  }

  /** The crawl from seed "s" after its first round: a and b are queued and nothing is in flight. */
  method OvertakeStart() returns (c: Crawler, first: string)
    ensures fresh(c) && c.Valid() && c.seed == "s" && first == "s"
    ensures c.linkq == ["a", "b"] && c.resultsq == [] && c.pending == []
  {
    c := new Crawler("s");
    assert Fresh({}, ["a", "b"]) == ["a", "b"];
    first := c.Round(OvertakeLinks);
  }

  /**
   * Two workers fetch "a" and then "b", but the publish goroutine holding
   * b's links sends first, so the orchestrator sees b's batch before a's.
   */
  method BatchesOvertake() returns (fetched: seq<string>, arrived: seq<seq<string>>)
    ensures fetched == ["s", "a", "b"]
    ensures arrived == [["y"]]
  {
    var c, l1 := OvertakeStart();
    var l2, _ := c.WorkerStep(OvertakeLinks);
    var l3, _ := c.WorkerStep(OvertakeLinks);
    assert c.pending == [["x"], ["y"]] && c.resultsq == [];
    var sent := c.Deliver(1);
    fetched := [l1, l2.value, l3.value];
    arrived := c.resultsq;
  }
}
