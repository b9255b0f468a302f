/**
 * The top-CPU ranker of the monitor (`getTopProcess`): keep the processes
 * with a CPU share above zero, sort them by CPU share, highest first, and
 * return at most the first five. The operating system's process table is
 * an input sequence here.
 */
module Ranker {
  import opened Processes

  /** How many processes the ranker returns at most. */
  const TopCount: nat := 5

  /**
   * The processes the ranker keeps, in input order: those whose CPU share is
   * above zero. Defined from the end, the way the collecting loop appends.
   */
  function Positive(procs: seq<ProcessInfo>): seq<ProcessInfo>
  {
    if procs == [] then []
    else
      var last := procs[|procs| - 1];
      Positive(procs[..|procs| - 1]) + (if last.cpu > 0.0 then [last] else [])
  }

  /** Non-increasing by CPU share; nothing is said about the order of ties. */
  ghost predicate SortedByCpu(s: seq<ProcessInfo>)
  {
    forall i, j :: 0 <= i < j < |s| ==> s[i].cpu >= s[j].cpu
  }

  /**
   * What the ranker promises of its result `top` for the process table
   * `procs`: as many entries as there are busy processes, but no more than
   * `TopCount`; only busy processes; highest CPU share first; each entry an
   * input record, taken no more often than the input holds it; and no busy
   * process left out has a higher CPU share than any entry kept.
   */
  ghost predicate IsTopByCpu(procs: seq<ProcessInfo>, top: seq<ProcessInfo>)
  {
    var busy := Positive(procs);
    && |top| == (if |busy| > TopCount then TopCount else |busy|)
    && (forall p :: p in top ==> p.cpu > 0.0)
    && SortedByCpu(top)
    && multiset(top) <= multiset(busy)
    && (forall p, q :: p in multiset(busy) - multiset(top) && q in top ==> p.cpu <= q.cpu)
  }

  /**
   * The filter keeps every record with a positive CPU share as often as the
   * input holds it, and nothing else.
   */
  lemma {:induction false} PositiveKeepsExactlyTheBusy(procs: seq<ProcessInfo>)
    ensures forall p :: multiset(Positive(procs))[p] == if p.cpu > 0.0 then multiset(procs)[p] else 0
  {
    if procs != [] {
      var init, last := procs[..|procs| - 1], procs[|procs| - 1];
      PositiveKeepsExactlyTheBusy(init);
      assert procs == init + [last];
    }
  }

  /** Consequences of the lemma above in the terms the ranker's contract uses. */
  lemma PositiveIsBusySubmultiset(procs: seq<ProcessInfo>)
    ensures forall p :: p in Positive(procs) ==> p.cpu > 0.0
    ensures multiset(Positive(procs)) <= multiset(procs)
    ensures forall p :: p in procs && p.cpu > 0.0 ==> p in Positive(procs)
  {
    PositiveKeepsExactlyTheBusy(procs);
    forall p | p in Positive(procs)
      ensures p.cpu > 0.0
    {
      assert multiset(Positive(procs))[p] > 0;
    }
    forall p | p in procs && p.cpu > 0.0
      ensures p in Positive(procs)
    {
      assert multiset(procs)[p] > 0;
    }
  }

  /**
   * The collecting loop of the ranker: appends, in input order, every
   * process whose CPU share is above zero.
   */
  method CollectBusy(procs: seq<ProcessInfo>) returns (list: seq<ProcessInfo>)
    ensures list == Positive(procs)
  {
    list := [];
    var i := 0;
    while i < |procs|
      invariant 0 <= i <= |procs|
      invariant list == Positive(procs[..i])
    {
      var p := procs[i];
      if p.cpu > 0.0 {
        list := list + [p];
      }
      assert procs[..i + 1][..i] == procs[..i];
      i := i + 1;
    }
    assert procs[..i] == procs;
  }

  /** The index of a record with the largest CPU share in `a[lo..]`. */
  method IndexOfMaxCpu(a: array<ProcessInfo>, lo: nat) returns (k: nat)
    requires lo < a.Length
    ensures lo <= k < a.Length
    ensures forall j :: lo <= j < a.Length ==> a[j].cpu <= a[k].cpu
  {
    k := lo;
    var j := lo + 1;
    while j < a.Length
      invariant lo <= k < j <= a.Length
      invariant forall m :: lo <= m < j ==> a[m].cpu <= a[k].cpu
    {
      if a[k].cpu < a[j].cpu {
        k := j;
      }
      j := j + 1;
    }
  }

  /** Exchanges two entries of `a`. */
  method Swap(a: array<ProcessInfo>, i: nat, j: nat)
    requires i < a.Length && j < a.Length
    modifies a
    ensures a[i] == old(a[j]) && a[j] == old(a[i])
    ensures forall m :: 0 <= m < a.Length && m != i && m != j ==> a[m] == old(a[m])
    ensures multiset(a[..]) == old(multiset(a[..]))
  {
    a[i], a[j] := a[j], a[i];
  }

  /**
   * Sorts `a` in place, highest CPU share first, comparing CPU shares only
   * (the library sort the source calls; it is not stable, so ties may come
   * out in any order).
   */
  method SortByCpu(a: array<ProcessInfo>)
    modifies a
    ensures SortedByCpu(a[..])
    ensures multiset(a[..]) == old(multiset(a[..]))
  {
    var i := 0;
    while i < a.Length
      invariant 0 <= i <= a.Length
      invariant forall m, n :: 0 <= m < n < i ==> a[m].cpu >= a[n].cpu
      invariant forall m, n :: 0 <= m < i <= n < a.Length ==> a[m].cpu >= a[n].cpu
      invariant multiset(a[..]) == old(multiset(a[..]))
    {
      var k := IndexOfMaxCpu(a, i);
      Swap(a, i, k);
      i := i + 1;
    }
  }

  /**
   * Cutting a sorted sequence after `k` entries leaves out nothing with a
   * higher CPU share than anything kept.
   */
  lemma TruncatedSortedIsTop(sorted: seq<ProcessInfo>, k: nat)
    requires SortedByCpu(sorted) && k <= |sorted|
    ensures multiset(sorted[..k]) + multiset(sorted[k..]) == multiset(sorted)
    ensures forall p, q :: p in multiset(sorted) - multiset(sorted[..k]) && q in sorted[..k] ==> p.cpu <= q.cpu
  {
    assert sorted == sorted[..k] + sorted[k..];
    forall p, q | p in multiset(sorted) - multiset(sorted[..k]) && q in sorted[..k]
      ensures p.cpu <= q.cpu
    {
      assert p in sorted[k..];
      var m :| k <= m < |sorted| && sorted[m] == p;
      var n :| 0 <= n < k && sorted[n] == q;
    }
  }

  /**
   * A prefix of at most `TopCount` entries of any sorted arrangement of a
   * pool of busy processes is a top selection from that pool.
   */
  lemma PrefixOfSortedPoolIsTop(pool: seq<ProcessInfo>, sorted: seq<ProcessInfo>, k: nat)
    requires forall p :: p in pool ==> p.cpu > 0.0
    requires SortedByCpu(sorted) && multiset(sorted) == multiset(pool)
    requires k == if |sorted| > TopCount then TopCount else |sorted|
    ensures |sorted| == |pool|
    ensures forall p :: p in sorted[..k] ==> p.cpu > 0.0
    ensures SortedByCpu(sorted[..k])
    ensures multiset(sorted[..k]) <= multiset(pool)
    ensures forall p, q :: p in multiset(pool) - multiset(sorted[..k]) && q in sorted[..k] ==> p.cpu <= q.cpu
  {
    assert |sorted| == |multiset(sorted)| == |pool|;
    TruncatedSortedIsTop(sorted, k);
    forall p | p in sorted[..k]
      ensures p.cpu > 0.0
    {
      assert p in multiset(sorted);
    }
  }

  /**
   * The ranker: the processes with a positive CPU share, highest CPU share
   * first, at most `TopCount` of them, each an input record unchanged.
   */
  method GetTopProcess(procs: seq<ProcessInfo>) returns (top: seq<ProcessInfo>)
    ensures IsTopByCpu(procs, top)
  {
    var list := CollectBusy(procs);
    var a := new ProcessInfo[|list|](j requires 0 <= j < |list| => list[j]);
    assert a[..] == list;
    SortByCpu(a);
    var sorted := a[..];

    if |sorted| > TopCount {
      top := sorted[..TopCount];
    } else {
      top := sorted;
    }

    assert top == sorted[..|top|];
    PositiveIsBusySubmultiset(procs);
    PrefixOfSortedPoolIsTop(list, sorted, |top|);
    assert IsTopByCpu(procs, top);
  }
}
