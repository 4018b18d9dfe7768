/**
 * The concurrent word search: each file's lines are filtered for those
 * containing the query, the per-file results are gathered in whatever order
 * the goroutines deliver them, and the total is sorted and joined.
 */
module WordSearch {

  /** `sub` occurs in `s` starting at index i. */
  predicate OccursAt(s: string, sub: string, i: int) {
    0 <= i <= |s| - |sub| && s[i..i + |sub|] == sub
  }

  /** Go's strings.Contains: `sub` occurs somewhere in `s` (the empty string occurs everywhere). */
  predicate Contains(s: string, sub: string) {
    exists i | 0 <= i <= |s| - |sub| :: OccursAt(s, sub, i)
  }

  lemma ContainsEmpty(s: string)
    ensures Contains(s, "")
  {
    assert OccursAt(s, "", 0);
  }

  // ---------------------------------------------------------------------
  // processFile

  /** The tokens that contain q, in file order. */
  function Matches(tokens: seq<string>, q: string): seq<string> {
    if tokens == [] then []
    else
      var init, word := tokens[..|tokens| - 1], tokens[|tokens| - 1];
      Matches(init, q) + (if Contains(word, q) then [word] else [])
  }

  /**
   * processFile's scan loop over the tokens of one file (lines, under the
   * default bufio.Scanner), keeping those that contain q.
   */
  method ProcessFile(tokens: seq<string>, q: string) returns (matches: seq<string>)
    ensures matches == Matches(tokens, q)
  {
    matches := [];
    for k := 0 to |tokens|
      invariant matches == Matches(tokens[..k], q)
    {
      var word := tokens[k];
      assert tokens[..k + 1][..k] == tokens[..k];
      if Contains(word, q) {
        matches := matches + [word];
      }
    }
    assert tokens[..|tokens|] == tokens;
  }

  /** Each token is kept exactly as often as it occurs, when it contains q, and dropped otherwise. */
  lemma {:induction false} MatchesCount(tokens: seq<string>, q: string, w: string)
    ensures multiset(Matches(tokens, q))[w] == if Contains(w, q) then multiset(tokens)[w] else 0
  {
    if tokens != [] {
      var init, word := tokens[..|tokens| - 1], tokens[|tokens| - 1];
      MatchesCount(init, q, w);
      assert tokens == init + [word];
    }
  }

  /** Matches keeps file order: filtering a concatenation concatenates the filtered parts. */
  lemma {:induction false} MatchesAppend(a: seq<string>, b: seq<string>, q: string)
    ensures Matches(a + b, q) == Matches(a, q) + Matches(b, q)
    decreases |b|
  {
    if b == [] {
      assert a + b == a;
    } else {
      var init, word := b[..|b| - 1], b[|b| - 1];
      MatchesAppend(a, init, q);
      assert (a + b)[..|a + b| - 1] == a + init;
    }
  }

  /** With an empty query every token matches. */
  lemma {:induction false} MatchesEmptyQuery(tokens: seq<string>)
    ensures Matches(tokens, "") == tokens
  {
    if tokens != [] {
      var init := tokens[..|tokens| - 1];
      MatchesEmptyQuery(init);
      ContainsEmpty(tokens[|tokens| - 1]);
      assert tokens == init + [tokens[|tokens| - 1]];
    }
  }

  // ---------------------------------------------------------------------
  // String order (Go's sort.Strings compares strings byte-wise; on Unicode
  // scalar values lexicographic order is the order of their UTF-8 bytes)

  predicate LessEq(a: string, b: string)
    decreases |a|
  {
    if a == [] then true
    else if b == [] then false
    else if a[0] != b[0] then a[0] < b[0]
    else LessEq(a[1..], b[1..])
  }

  lemma {:induction false} LessEqReflexive(a: string)
    ensures LessEq(a, a)
    decreases |a|
  {
    if a != [] {
      LessEqReflexive(a[1..]);
    }
  }

  lemma {:induction false} LessEqTotal(a: string, b: string)
    ensures LessEq(a, b) || LessEq(b, a)
    decreases |a|
  {
    if a != [] && b != [] && a[0] == b[0] {
      LessEqTotal(a[1..], b[1..]);
    }
  }

  lemma {:induction false} LessEqAntisymmetric(a: string, b: string)
    requires LessEq(a, b) && LessEq(b, a)
    ensures a == b
    decreases |a|
  {
    if a != [] && b != [] {
      LessEqAntisymmetric(a[1..], b[1..]);
      assert a == [a[0]] + a[1..] && b == [b[0]] + b[1..];
    }
  }

  lemma {:induction false} LessEqTransitive(a: string, b: string, c: string)
    requires LessEq(a, b) && LessEq(b, c)
    ensures LessEq(a, c)
    decreases |a|
  {
    if a != [] && b != [] && c != [] && a[0] == b[0] && b[0] == c[0] {
      LessEqTransitive(a[1..], b[1..], c[1..]);
    }
  }

  ghost predicate Sorted(s: seq<string>) {
    forall i, j :: 0 <= i < j < |s| ==> LessEq(s[i], s[j])
  }

  /** Removing one occurrence of an element from a sequence removes it from its multiset. */
  lemma RemoveAt<T>(s: seq<T>, j: nat)
    requires j < |s|
    ensures multiset(s[..j] + s[j + 1..]) == multiset(s) - multiset{s[j]}
  {
    assert s == s[..j] + [s[j]] + s[j + 1..];
  }

  /** The least elements of two sorted sequences with the same elements agree. */
  lemma SortedHeads(a: seq<string>, b: seq<string>)
    requires a != [] && Sorted(a) && Sorted(b) && multiset(a) == multiset(b)
    ensures b != [] && a[0] == b[0]
  {
    assert a[0] in multiset(b) && a[0] in b;
    assert b[0] in multiset(a);
    var j :| 0 <= j < |b| && b[j] == a[0];
    var i :| 0 <= i < |a| && a[i] == b[0];
    assert LessEq(a[0], b[0]) by {
      if i > 0 { assert LessEq(a[0], a[i]); } else { LessEqReflexive(a[0]); }
    }
    assert LessEq(b[0], a[0]) by {
      if j > 0 { assert LessEq(b[0], b[j]); } else { LessEqReflexive(b[0]); }
    }
    LessEqAntisymmetric(a[0], b[0]);
  }

  lemma SortedTail(a: seq<string>)
    requires a != [] && Sorted(a)
    ensures Sorted(a[1..])
  {
    forall i, j | 0 <= i < j < |a| - 1 ensures LessEq(a[1..][i], a[1..][j]) {
      assert a[1..][i] == a[i + 1] && a[1..][j] == a[j + 1];
    }
  }

  lemma TailMultiset<T>(a: seq<T>)
    requires a != []
    ensures multiset(a[1..]) == multiset(a) - multiset{a[0]}
  {
    assert a == [a[0]] + a[1..];
  }

  /** Two sorted sequences with the same elements are equal: sorting leaves nothing to chance. */
  lemma {:induction false} SortedUnique(a: seq<string>, b: seq<string>)
    requires Sorted(a) && Sorted(b) && multiset(a) == multiset(b)
    ensures a == b
    decreases |a|
  {
    if a != [] {
      SortedHeads(a, b);
      SortedTail(a);
      SortedTail(b);
      TailMultiset(a);
      TailMultiset(b);
      SortedUnique(a[1..], b[1..]);
      assert a == [a[0]] + a[1..] && b == [b[0]] + b[1..];
    } else {
      assert |b| == |multiset(b)| == |multiset(a)| == 0;
    }
  }

  /** Exchanges two neighbouring elements. */
  method SwapDown(a: array<string>, j: nat)
    requires 0 < j < a.Length
    modifies a
    ensures a[..] == old(a[..])[j - 1 := old(a[j])][j := old(a[j - 1])]
    ensures multiset(a[..]) == old(multiset(a[..]))
  {
    ghost var s := a[..];
    a[j - 1], a[j] := a[j], a[j - 1];
    assert s == s[..j - 1] + [s[j - 1], s[j]] + s[j + 1..];
    assert a[..] == s[..j - 1] + [s[j], s[j - 1]] + s[j + 1..];
  }

  /** sort.Strings, as an in-place insertion sort by adjacent swaps. */
  method SortStrings(a: array<string>)
    modifies a
    ensures Sorted(a[..])
    ensures multiset(a[..]) == old(multiset(a[..]))
  {
    var i := 0;
    while i < a.Length
      invariant 0 <= i <= a.Length
      invariant forall k, l :: 0 <= k < l < i ==> LessEq(a[k], a[l])
      invariant multiset(a[..]) == old(multiset(a[..]))
    {
      InsertLast(a, i);
      i := i + 1;
    }
  }

  /** Moves a[i] down into the sorted prefix a[..i]. */
  method InsertLast(a: array<string>, i: nat)
    requires i < a.Length
    requires forall k, l :: 0 <= k < l < i ==> LessEq(a[k], a[l])
    modifies a
    ensures forall k, l :: 0 <= k < l <= i ==> LessEq(a[k], a[l])
    ensures multiset(a[..]) == old(multiset(a[..]))
  {
    var j := i;
    while j > 0 && !LessEq(a[j - 1], a[j])
      invariant 0 <= j <= i
      invariant forall k, l :: 0 <= k < l <= i && k != j && l != j ==> LessEq(a[k], a[l])
      invariant forall l :: j < l <= i ==> LessEq(a[j], a[l])
      invariant multiset(a[..]) == old(multiset(a[..]))
    {
      LessEqTotal(a[j - 1], a[j]);
      SwapDown(a, j);
      j := j - 1;
    }
    forall k | 0 <= k < j ensures LessEq(a[k], a[j]) {
      if k < j - 1 {
        LessEqTransitive(a[k], a[j - 1], a[j]);
      }
    }
  }

  // ---------------------------------------------------------------------
  // processDir

  /** 0, 1, ..., n - 1: the files in directory order. */
  function Indices(n: nat): (r: seq<nat>)
    ensures |r| == n && forall i :: 0 <= i < n ==> r[i] == i
  {
    seq(n, i => i)
  }

  predicate InRange(order: seq<nat>, n: nat) {
    forall i :: 0 <= i < |order| ==> order[i] < n
  }

  /** The per-file results concatenated in the order `order` delivers them. */
  function Gather(results: seq<seq<string>>, order: seq<nat>): seq<string>
    requires InRange(order, |results|)
  {
    if order == [] then []
    else Gather(results, order[..|order| - 1]) + results[order[|order| - 1]]
  }

  lemma InRangeAppend(a: seq<nat>, b: seq<nat>, n: nat)
    requires InRange(a, n) && InRange(b, n)
    ensures InRange(a + b, n)
  {
    forall i | 0 <= i < |a + b| ensures (a + b)[i] < n {
      if i >= |a| {
        assert (a + b)[i] == b[i - |a|];
      }
    }
  }

  lemma {:induction false} GatherAppend(results: seq<seq<string>>, a: seq<nat>, b: seq<nat>)
    requires InRange(a, |results|) && InRange(b, |results|)
    ensures InRange(a + b, |results|)
    ensures Gather(results, a + b) == Gather(results, a) + Gather(results, b)
    decreases |b|
  {
    InRangeAppend(a, b, |results|);
    if b == [] {
      assert a + b == a;
    } else {
      var init, last := b[..|b| - 1], b[|b| - 1];
      assert InRange(init, |results|);
      GatherAppend(results, a, init);
      assert (a + b)[..|a + b| - 1] == a + init;
      assert (a + b)[|a + b| - 1] == last;
    }
  }

  /** How often w occurs among the results gathered in `order`. */
  ghost function Occurrences(results: seq<seq<string>>, order: seq<nat>, w: string): nat
    requires InRange(order, |results|)
  {
    if order == [] then 0
    else Occurrences(results, order[..|order| - 1], w) + multiset(results[order[|order| - 1]])[w]
  }

  lemma {:induction false} GatherOccurrences(results: seq<seq<string>>, o: seq<nat>, w: string)
    requires InRange(o, |results|)
    ensures multiset(Gather(results, o))[w] == Occurrences(results, o, w)
  {
    if o != [] {
      GatherOccurrences(results, o[..|o| - 1], w);
    }
  }

  lemma {:induction false} OccurrencesAppend(results: seq<seq<string>>, a: seq<nat>, b: seq<nat>, w: string)
    requires InRange(a, |results|) && InRange(b, |results|)
    ensures InRange(a + b, |results|)
    ensures Occurrences(results, a + b, w) == Occurrences(results, a, w) + Occurrences(results, b, w)
    decreases |b|
  {
    InRangeAppend(a, b, |results|);
    if b == [] {
      assert a + b == a;
    } else {
      var init := b[..|b| - 1];
      OccurrencesAppend(results, a, init, w);
      assert (a + b)[..|a + b| - 1] == a + init;
    }
  }

  /** Taking out one position of the order takes out the words of that file. */
  lemma OccurrencesAround(results: seq<seq<string>>, o: seq<nat>, j: nat, w: string)
    requires InRange(o, |results|) && j < |o|
    ensures InRange(o[..j] + o[j + 1..], |results|)
    ensures Occurrences(results, o, w) ==
      Occurrences(results, o[..j] + o[j + 1..], w) + multiset(results[o[j]])[w]
  {
    var left, h, right := o[..j], o[j], o[j + 1..];
    assert InRange(left, |results|) && InRange(right, |results|) && InRange([h], |results|);
    assert o == left + ([h] + right);
    assert Occurrences(results, [h], w) == multiset(results[h])[w] by {
      assert [h][..0] == [];
    }
    OccurrencesAppend(results, [h], right, w);
    OccurrencesAppend(results, left, [h] + right, w);
    OccurrencesAppend(results, left, right, w);
  }

  lemma {:induction false} OccurrencesPermutation(results: seq<seq<string>>, o1: seq<nat>, o2: seq<nat>, w: string)
    requires InRange(o1, |results|) && InRange(o2, |results|)
    requires multiset(o1) == multiset(o2)
    ensures Occurrences(results, o1, w) == Occurrences(results, o2, w)
    decreases |o1|
  {
    if o1 == [] {
      assert |o2| == |multiset(o2)| == 0;
    } else {
      var n := |o1| - 1;
      var h := o1[n];
      assert h in multiset(o2);
      var j :| 0 <= j < |o2| && o2[j] == h;
      var rest1, rest2 := o1[..n], o2[..j] + o2[j + 1..];
      assert multiset(rest1) == multiset(rest2) by {
        RemoveAt(o1, n);
        RemoveAt(o2, j);
        assert o1[..n] + o1[n + 1..] == rest1;
      }
      assert InRange(rest1, |results|);
      assert Occurrences(results, o1, w) == Occurrences(results, rest1, w) + multiset(results[h])[w];
      OccurrencesAround(results, o2, j, w);
      OccurrencesPermutation(results, rest1, rest2, w);
    }
  }

  /** Two delivery orders of the same files gather the same words, counted with multiplicity. */
  lemma GatherPermutation(results: seq<seq<string>>, o1: seq<nat>, o2: seq<nat>)
    requires InRange(o1, |results|) && InRange(o2, |results|)
    requires multiset(o1) == multiset(o2)
    ensures multiset(Gather(results, o1)) == multiset(Gather(results, o2))
  {
    forall w ensures multiset(Gather(results, o1))[w] == multiset(Gather(results, o2))[w] {
      GatherOccurrences(results, o1, w);
      GatherOccurrences(results, o2, w);
      OccurrencesPermutation(results, o1, o2, w);
    }
  }

  /** The summed lengths of the parts. */
  function TotalLength(parts: seq<string>): nat {
    if parts == [] then 0 else TotalLength(parts[..|parts| - 1]) + |parts[|parts| - 1]|
  }

  /** Go's strings.Join: the parts with one separator between neighbours. */
  function Join(parts: seq<string>, sep: string): (r: string)
    ensures |r| == TotalLength(parts) + (if parts == [] then 0 else (|parts| - 1) * |sep|)
  {
    if parts == [] then ""
    else if |parts| == 1 then
      assert parts[..0] == [];
      parts[0]
    else Join(parts[..|parts| - 1], sep) + sep + parts[|parts| - 1]
  }

  /** Joining two non-empty lists joins their joins with one more separator. */
  lemma {:induction false} JoinAppend(a: seq<string>, b: seq<string>, sep: string)
    requires a != [] && b != []
    ensures Join(a + b, sep) == Join(a, sep) + sep + Join(b, sep)
    decreases |b|
  {
    var init, last := b[..|b| - 1], b[|b| - 1];
    assert (a + b)[..|a + b| - 1] == a + init;
    if init == [] {
      assert b == [last];
    } else {
      JoinAppend(a, init, sep);
    }
  }

  /** An arrival order of n files names each of them once: it has n entries, all below n. */
  lemma ArrivalOrder(arrival: seq<nat>, n: nat)
    requires multiset(arrival) == multiset(Indices(n))
    ensures InRange(arrival, n) && |arrival| == n
  {
    forall k | 0 <= k < |arrival| ensures arrival[k] < n {
      assert arrival[k] in multiset(Indices(n));
    }
    assert |multiset(arrival)| == |multiset(Indices(n))|;
  }

  /**
   * processDir: one result per file is received, in the order `arrival`
   * delivers them, appended to the total, which is then sorted in place;
   * `line` is what is printed.
   */
  method ProcessDir(files: seq<seq<string>>, q: string, arrival: seq<nat>)
    returns (received: seq<string>, sorted: seq<string>, line: string)
    requires multiset(arrival) == multiset(Indices(|files|))
    ensures InRange(arrival, |files|) && |arrival| == |files|
    ensures received == Gather(seq(|files|, i requires 0 <= i < |files| => Matches(files[i], q)), arrival)
    ensures Sorted(sorted)
    ensures multiset(sorted) == multiset(received)
    ensures multiset(sorted) ==
      multiset(Gather(seq(|files|, i requires 0 <= i < |files| => Matches(files[i], q)), Indices(|files|)))
    ensures line == Join(sorted, ", ")
  {
    var results := seq(|files|, i requires 0 <= i < |files| => Matches(files[i], q));
    ArrivalOrder(arrival, |files|);
    var totalMatches := [];
    for i := 0 to |arrival|
      invariant totalMatches == Gather(results, arrival[..i])
    {
      var matches := ProcessFile(files[arrival[i]], q);
      assert Gather(results, arrival[..i + 1]) == Gather(results, arrival[..i]) + results[arrival[i]] by {
        assert arrival[..i + 1][..i] == arrival[..i];
      }
      totalMatches := totalMatches + matches;
    }
    assert arrival[..|arrival|] == arrival;
    received := totalMatches;
    var a := new string[|received|](k requires 0 <= k < |received| => received[k]);
    assert a[..] == received;
    SortStrings(a);
    sorted := a[..];
    GatherPermutation(results, arrival, Indices(|files|));
    line := Join(sorted, ", ");
  }

  /** The printed result does not depend on the order in which the goroutines finish. */
  lemma ArrivalOrderIrrelevant(results: seq<seq<string>>, o1: seq<nat>, o2: seq<nat>, s1: seq<string>, s2: seq<string>)
    requires InRange(o1, |results|) && InRange(o2, |results|)
    requires multiset(o1) == multiset(Indices(|results|)) && multiset(o2) == multiset(Indices(|results|))
    requires Sorted(s1) && multiset(s1) == multiset(Gather(results, o1))
    requires Sorted(s2) && multiset(s2) == multiset(Gather(results, o2))
    ensures s1 == s2
  {
    GatherPermutation(results, o1, o2);
    SortedUnique(s1, s2);
  }
}
