/**
 * What follows from the ranker's contract (`Ranker.IsTopByCpu`): its
 * promises restated in terms of the raw process table, the fact that the
 * contract fixes the CPU share at every position of the result (only the
 * order among equal CPU shares is left open, as with an unstable sort),
 * and a worked example.
 */
module RankerProperties {
  import opened Processes
  import opened Ranker

  /**
   * The ranker's promises about the raw table: at most `TopCount` entries,
   * a sub-multiset of the input, all busy processes when there are at most
   * `TopCount` of them, and no busy input record left out outranks a kept one.
   */
  lemma TopByCpuOnInput(procs: seq<ProcessInfo>, top: seq<ProcessInfo>)
    requires IsTopByCpu(procs, top)
    ensures |top| <= TopCount
    ensures multiset(top) <= multiset(procs)
    ensures |Positive(procs)| <= TopCount ==> multiset(top) == multiset(Positive(procs))
    ensures forall p, q :: p in multiset(procs) - multiset(top) && p.cpu > 0.0 && q in top ==> p.cpu <= q.cpu
  {
    var busy := Positive(procs);
    PositiveKeepsExactlyTheBusy(procs);
    PositiveIsBusySubmultiset(procs);
    if |busy| <= TopCount {
      var rest := multiset(busy) - multiset(top);
      assert multiset(busy) == multiset(top) + rest;
      assert |rest| == 0 by {
        assert |multiset(busy)| == |busy| == |top| == |multiset(top)|;
      }
    }
    forall p, q | p in multiset(procs) - multiset(top) && p.cpu > 0.0 && q in top
      ensures p.cpu <= q.cpu
    {
      assert multiset(busy)[p] == multiset(procs)[p];
      assert p in multiset(busy) - multiset(top);
    }
  }

  /** The entries of `s` whose CPU share is at least `t`, in order. */
  function AtLeast(s: seq<ProcessInfo>, t: real): seq<ProcessInfo>
  {
    if s == [] then []
    else
      var last := s[|s| - 1];
      AtLeast(s[..|s| - 1], t) + (if last.cpu >= t then [last] else [])
  }

  /** Filtering by a CPU threshold never lengthens a sequence. */
  lemma {:induction false} AtLeastNoLonger(s: seq<ProcessInfo>, t: real)
    ensures |AtLeast(s, t)| <= |s|
  {
    if s != [] {
      AtLeastNoLonger(s[..|s| - 1], t);
    }
  }

  /** The threshold filter keeps every entry of at least `t` as often as `s` holds it, and nothing else. */
  lemma {:induction false} AtLeastExact(s: seq<ProcessInfo>, t: real)
    ensures forall p :: multiset(AtLeast(s, t))[p] == if p.cpu >= t then multiset(s)[p] else 0
  {
    if s != [] {
      var init, last := s[..|s| - 1], s[|s| - 1];
      AtLeastExact(init, t);
      assert s == init + [last];
    }
  }

  /**
   * In a sequence sorted by CPU share, position `i` holds at least `t`
   * exactly when more than `i` entries do.
   */
  lemma {:induction false} AtLeastOfSorted(s: seq<ProcessInfo>, t: real, i: nat)
    requires SortedByCpu(s) && i < |s|
    ensures s[i].cpu >= t <==> |AtLeast(s, t)| > i
  {
    var init, last := s[..|s| - 1], s[|s| - 1];
    var kept := AtLeast(init, t);
    assert AtLeast(s, t) == kept + (if last.cpu >= t then [last] else []);
    AtLeastNoLonger(init, t);
    if init != [] {
      assert SortedByCpu(init);
      // The last entry of `init` reaches `t` exactly when all of `init` is kept.
      AtLeastOfSorted(init, t, |init| - 1);
      assert init[|init| - 1].cpu >= last.cpu;
      if i < |init| {
        AtLeastOfSorted(init, t, i);
        assert s[i] == init[i] && s[i].cpu >= last.cpu;
      }
    }
  }

  /**
   * When `top` keeps an entry below `t`, it keeps every busy process of at
   * least `t` as often as the table holds it.
   */
  lemma TopKeepsAllAbove(procs: seq<ProcessInfo>, top: seq<ProcessInfo>, q: ProcessInfo, t: real)
    requires IsTopByCpu(procs, top) && q in top && q.cpu < t
    ensures forall p: ProcessInfo :: p.cpu >= t ==> multiset(Positive(procs))[p] <= multiset(top)[p]
  {
  }

  /** A sub-multiset is no larger. */
  lemma SubMultisetNoLarger(m: multiset<ProcessInfo>, n: multiset<ProcessInfo>)
    requires m <= n
    ensures |m| <= |n|
  {
    assert n == m + (n - m);
  }

  /**
   * Unless every entry of `b` reaches `t`, a top selection `a` holds no more
   * entries of at least `t` than another top selection `b` of the same table:
   * every busy process of at least `t` is then kept in `b`.
   */
  lemma TopCountsDominate(procs: seq<ProcessInfo>, a: seq<ProcessInfo>, b: seq<ProcessInfo>, t: real)
    requires IsTopByCpu(procs, a) && IsTopByCpu(procs, b)
    ensures (forall q :: q in b ==> q.cpu >= t) || |AtLeast(a, t)| <= |AtLeast(b, t)|
  {
    if q :| q in b && q.cpu < t {
      TopKeepsAllAbove(procs, b, q, t);
      AtLeastExact(a, t);
      AtLeastExact(b, t);
      var ma, mb := multiset(AtLeast(a, t)), multiset(AtLeast(b, t));
      forall p
        ensures ma[p] <= mb[p]
      {
        if p.cpu >= t {
          assert multiset(a)[p] <= multiset(Positive(procs))[p];
        }
      }
      SubMultisetNoLarger(ma, mb);
    }
  }

  /** Position `i` of one top selection holds no more CPU than position `i` of another. */
  lemma KeyAtMost(procs: seq<ProcessInfo>, a: seq<ProcessInfo>, b: seq<ProcessInfo>, i: nat)
    requires IsTopByCpu(procs, a) && IsTopByCpu(procs, b) && i < |a|
    ensures i < |b| && a[i].cpu <= b[i].cpu
  {
    var t := a[i].cpu;
    TopCountsDominate(procs, a, b, t);
    AtLeastOfSorted(a, t, i);
    AtLeastOfSorted(b, t, i);
  }

  /**
   * The contract fixes the result up to the order of equal CPU shares: any
   * two results for the same table have the same length and the same CPU
   * share at every position.
   */
  lemma TopKeysDetermined(procs: seq<ProcessInfo>, a: seq<ProcessInfo>, b: seq<ProcessInfo>)
    requires IsTopByCpu(procs, a) && IsTopByCpu(procs, b)
    ensures |a| == |b|
    ensures forall i :: 0 <= i < |a| ==> a[i].cpu == b[i].cpu
  {
    forall i | 0 <= i < |a|
      ensures a[i].cpu == b[i].cpu
    {
      KeyAtMost(procs, a, b, i);
      KeyAtMost(procs, b, a, i);
    }
  }

  /**
   * When no two busy processes share a CPU value, the contract fixes the
   * result completely: there are no ties for the sort to order.
   */
  lemma TopUniqueWhenSharesDistinct(procs: seq<ProcessInfo>, a: seq<ProcessInfo>, b: seq<ProcessInfo>)
    requires IsTopByCpu(procs, a) && IsTopByCpu(procs, b)
    requires forall p, q :: p in Positive(procs) && q in Positive(procs) && p.cpu == q.cpu ==> p == q
    ensures a == b
  {
    TopKeysDetermined(procs, a, b);
    forall i | 0 <= i < |a|
      ensures a[i] == b[i]
    {
      assert a[i] in multiset(a) && b[i] in multiset(b);
      assert a[i] in Positive(procs) && b[i] in Positive(procs);
    }
  }

  /** The table of the worked example: PIDs 1, 2, 3, 4 with CPU shares 50, 0, 90, 10. */
  function ExampleTable(): seq<ProcessInfo>
  {
    [Proc(1, 50.0), Proc(2, 0.0), Proc(3, 90.0), Proc(4, 10.0)]
  }

  /** The expected result for the example table: PIDs 3, 1, 4, highest CPU share first. */
  function ExampleTop(): seq<ProcessInfo>
  {
    [Proc(3, 90.0), Proc(1, 50.0), Proc(4, 10.0)]
  }

  /** The busy processes of the example table: all but PID 2, in table order. */
  lemma ExampleBusy()
    ensures Positive(ExampleTable()) == [Proc(1, 50.0), Proc(3, 90.0), Proc(4, 10.0)]
  {
    var procs := ExampleTable();
    assert procs[..1][..0] == [];
    assert procs[..2][..1] == procs[..1];
    assert procs[..3][..2] == procs[..2];
    assert procs[..3] == procs[..|procs| - 1];
    assert Positive(procs[..1]) == [Proc(1, 50.0)];
    assert Positive(procs[..2]) == [Proc(1, 50.0)];
    assert Positive(procs[..3]) == [Proc(1, 50.0), Proc(3, 90.0)];
  }

  /** The example's expected result meets the ranker's contract. */
  lemma ExampleTopIsTop()
    ensures IsTopByCpu(ExampleTable(), ExampleTop())
  {
    ExampleBusy();
    var top := ExampleTop();
    var busy := [Proc(1, 50.0), Proc(3, 90.0), Proc(4, 10.0)];
    assert multiset(top) == multiset(busy);
    assert multiset(busy) - multiset(top) == multiset{};
    assert SortedByCpu(top);
    assert forall p :: p in top ==> p.cpu > 0.0;
  }

  /** The busy processes of the example have distinct CPU shares. */
  lemma ExampleSharesDistinct()
    ensures forall p, q :: p in Positive(ExampleTable()) && q in Positive(ExampleTable()) && p.cpu == q.cpu ==> p == q
  {
    ExampleBusy();
  }

  /**
   * The worked example: the ranker returns PIDs 3, 1, 4 in that order for
   * the example table (2 is idle, and fewer than five remain so nothing is
   * cut). The CPU shares are distinct, so no tie leaves the order open.
   */
  lemma RankerExample(top: seq<ProcessInfo>)
    requires IsTopByCpu(ExampleTable(), top)
    ensures top == ExampleTop()
  {
    ExampleTopIsTop();
    ExampleSharesDistinct();
    TopUniqueWhenSharesDistinct(ExampleTable(), top, ExampleTop());
  }

  /** A process record of the example, with an empty name and no memory. */
  function Proc(pid: Int32, cpu: real): ProcessInfo
  {
    ProcessInfo(pid, "", cpu, 0)
  }
}
