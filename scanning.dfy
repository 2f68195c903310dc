/**
 * The range scanner (scanner.go): it splits the inclusive address range
 * [MinIP, MaxIP] into one partition per worker and broadcasts control
 * signals to all workers.
 *
 * Addresses are the integer form of the scanner's address strings (the
 * big-endian decode of their four bytes, Addresses.Uint32); parsing the
 * strings is not part of this model.
 */
module Scanning {
  import opened Addresses
  import opened Workers

  /** The bounds [lo, hi] addWorker gives one worker. */
  datatype Range = Range(lo: nat, hi: nat)

  function Min(a: int, b: int): int
  {
    if a <= b then a else b
  }

  /** math.Ceil(float64(a) / float64(b)); exact for the spans of 32-bit addresses. */
  function CeilDiv(a: nat, b: nat): (r: nat)
    requires b >= 1
    ensures b * r >= a && b * r < a + b
  {
    (a + b - 1) / b
  }

  /**
   * The ranges addWorkers creates, in order, when its loop variable
   * starts at `lo`: one per step while below `el`, each ending `step`
   * further on but clipped to `el`.
   */
  function Partitions(lo: nat, el: nat, step: nat): seq<Range>
    requires lo >= el || step >= 1
    decreases if lo < el then el - lo else 0
  {
    if lo >= el then []
    else [Range(lo, Min(lo + step, el))] + Partitions(lo + step, el, step)
  }

  /** The partition of [sl, el] among `threads` workers. */
  function Layout(sl: nat, el: nat, threads: nat): seq<Range>
    requires sl <= el && threads >= 1
  {
    Partitions(sl, el, CeilDiv(el - sl, threads))
  }

  /** Some partition contains the address `a` (bounds included). */
  ghost predicate Covered(P: seq<Range>, a: int)
  {
    exists i :: 0 <= i < |P| && P[i].lo <= a <= P[i].hi
  }

  /** The step is at least one address and at most the whole span when the
      range is not empty, and zero when it is. */
  lemma StepBounds(span: nat, threads: nat)
    requires threads >= 1
    ensures span == 0 ==> CeilDiv(span, threads) == 0
    ensures span > 0 ==> 1 <= CeilDiv(span, threads) <= span
  {
    var r := CeilDiv(span, threads);
    if span > 0 {
      assert r != 0;
      MulMonotone(1, threads, span);
      assert r * threads < (span + 1) * threads;
      MulCancel(r, span + 1, threads);
    }
  }

  lemma {:induction false} MulMonotone(a: nat, b: nat, c: nat)
    requires a <= b
    ensures a * c <= b * c
    decreases b - a
  {
    if a < b {
      MulMonotone(a + 1, b, c);
      assert (a + 1) * c == a * c + c;
    }
  }

  lemma {:induction false} MulCancel(a: nat, b: nat, c: nat)
    requires a * c < b * c
    ensures a < b
    decreases a
  {
    assert b != 0;
    if a > 0 {
      assert (a - 1) * c == a * c - c && (b - 1) * c == b * c - c;
      MulCancel(a - 1, b - 1, c);
    }
  }

  /** Partition i starts i steps after `lo` and ends one step after its
      start, clipped to `el`; it is never empty and never passes `el`. */
  lemma {:induction false} PartitionAt(lo: nat, el: nat, step: nat, i: nat)
    requires step >= 1 && i < |Partitions(lo, el, step)|
    ensures var r := Partitions(lo, el, step)[i];
      r.lo == lo + i * step && r.hi == Min(r.lo + step, el) && r.lo < r.hi <= el
    decreases i
  {
    if i > 0 {
      PartitionAt(lo + step, el, step, i - 1);
      assert Partitions(lo, el, step)[i] == Partitions(lo + step, el, step)[i - 1];
      assert (lo + step) + (i - 1) * step == lo + i * step;
    }
  }

  /** PartitionAt for every partition at once. */
  lemma PartitionsShape(lo: nat, el: nat, step: nat)
    requires step >= 1
    ensures var P := Partitions(lo, el, step);
      forall i :: 0 <= i < |P| ==>
        P[i].lo == lo + i * step && P[i].hi == Min(P[i].lo + step, el) && P[i].lo < P[i].hi <= el
  {
    var P := Partitions(lo, el, step);
    forall i | 0 <= i < |P|
      ensures P[i].lo == lo + i * step && P[i].hi == Min(P[i].lo + step, el) && P[i].lo < P[i].hi <= el
    {
      PartitionAt(lo, el, step, i);
    }
  }

  /** There is a partition exactly when `lo < el`, and the last one starts
      less than a step before `el`. */
  lemma {:induction false} PartitionsCount(lo: nat, el: nat, step: nat)
    requires step >= 1
    ensures var P := Partitions(lo, el, step);
      (|P| == 0 <==> lo >= el) && (|P| > 0 ==> (|P| - 1) * step < el - lo)
    decreases if lo < el then el - lo else 0
  {
    if lo < el {
      PartitionsCount(lo + step, el, step);
      var n' := |Partitions(lo + step, el, step)|;
      assert (n' + 1 - 1) * step == n' * step;
      if n' > 0 {
        assert (n' - 1) * step + step == n' * step;
      }
    }
  }

  /** Neighbours share one boundary address: each partition ends where the
      next begins. The first starts at `lo` and the last ends at `el`. */
  lemma {:induction false} PartitionsChain(lo: nat, el: nat, step: nat)
    requires step >= 1 && lo < el
    ensures var P := Partitions(lo, el, step);
      |P| > 0 && P[0].lo == lo && P[|P| - 1].hi == el &&
      forall i :: 0 <= i < |P| - 1 ==> P[i].hi == P[i + 1].lo
    decreases el - lo
  {
    var P := Partitions(lo, el, step);
    var P' := Partitions(lo + step, el, step);
    if lo + step < el {
      PartitionsChain(lo + step, el, step);
      forall i | 1 <= i < |P| - 1
        ensures P[i].hi == P[i + 1].lo
      {
        assert P[i] == P'[i - 1] && P[i + 1] == P'[i];
      }
    }
  }

  /** Partitions are in increasing order: a partition ends no later than any
      later one starts, and two that are not neighbours are disjoint. */
  lemma PartitionsOrdered(lo: nat, el: nat, step: nat)
    requires step >= 1
    ensures var P := Partitions(lo, el, step);
      forall i, j :: 0 <= i < j < |P| ==> P[i].hi <= P[j].lo && (i + 1 < j ==> P[i].hi < P[j].lo)
  {
    var P := Partitions(lo, el, step);
    forall i, j | 0 <= i < j < |P|
      ensures P[i].hi <= P[j].lo && (i + 1 < j ==> P[i].hi < P[j].lo)
    {
      PartitionAt(lo, el, step, i);
      PartitionAt(lo, el, step, j);
      MulMonotone(i + 1, j, step);
      assert (i + 1) * step == i * step + step;
      if i + 1 < j {
        MulMonotone(i + 2, j, step);
        assert (i + 2) * step == i * step + step + step;
      }
    }
  }

  /** Coverage: the partitions of [lo, el] together hold exactly the
      addresses from lo to el. */
  lemma PartitionsCover(lo: nat, el: nat, step: nat)
    requires step >= 1 && lo < el
    ensures forall a :: Covered(Partitions(lo, el, step), a) <==> lo <= a <= el
  {
    NoGaps(lo, el, step);
    NothingOutside(lo, el, step);
  }

  /** Every address from lo to el lies in some partition. */
  lemma {:induction false} NoGaps(lo: nat, el: nat, step: nat)
    requires step >= 1 && lo < el
    ensures forall a :: lo <= a <= el ==> Covered(Partitions(lo, el, step), a)
    decreases el - lo
  {
    var P := Partitions(lo, el, step);
    var P' := Partitions(lo + step, el, step);
    assert P == [Range(lo, Min(lo + step, el))] + P';
    if lo + step < el {
      NoGaps(lo + step, el, step);
    }
    forall a | lo <= a <= el
      ensures Covered(P, a)
    {
      if a <= Min(lo + step, el) {
        assert P[0].lo <= a <= P[0].hi;
      } else {
        assert Covered(P', a);
        var i :| 0 <= i < |P'| && P'[i].lo <= a <= P'[i].hi;
        assert P[i + 1] == P'[i];
      }
    }
  }

  /** No partition holds an address outside [lo, el]. */
  lemma {:induction false} NothingOutside(lo: nat, el: nat, step: nat)
    requires step >= 1
    ensures forall a :: Covered(Partitions(lo, el, step), a) ==> lo <= a <= el
    decreases if lo < el then el - lo else 0
  {
    if lo < el {
      var P := Partitions(lo, el, step);
      var P' := Partitions(lo + step, el, step);
      assert P == [Range(lo, Min(lo + step, el))] + P';
      NothingOutside(lo + step, el, step);
      forall a | Covered(P, a)
        ensures lo <= a <= el
      {
        var i :| 0 <= i < |P| && P[i].lo <= a <= P[i].hi;
        if i > 0 {
          assert P'[i - 1] == P[i];
          assert Covered(P', a);
        }
      }
    }
  }

  /** addWorkers makes at most one worker per thread. */
  lemma LayoutSize(sl: nat, el: nat, threads: nat)
    requires sl <= el && threads >= 1
    ensures |Layout(sl, el, threads)| <= threads
  {
    var step := CeilDiv(el - sl, threads);
    var n := |Layout(sl, el, threads)|;
    if n > 0 {
      StepBounds(el - sl, threads);
      PartitionsCount(sl, el, step);
      assert (n - 1) * step < threads * step;
      MulCancel(n - 1, threads, step);
    }
  }

  /** With one thread the single worker spans the whole range. */
  lemma LayoutSingleThread(sl: nat, el: nat)
    requires sl < el
    ensures Layout(sl, el, 1) == [Range(sl, el)]
  {
    assert CeilDiv(el - sl, 1) == el - sl;
    assert Partitions(el, el, el - sl) == [];
  }

  /** Ten addresses, two threads: the step is ceil(9 / 2) = 5, so the two
      workers get [sl, sl + 5] and [sl + 5, sl + 9], sharing sl + 5. */
  lemma LayoutTenAddresses(sl: nat)
    ensures Layout(sl, sl + 9, 2) == [Range(sl, sl + 5), Range(sl + 5, sl + 9)]
  {
    assert CeilDiv(9, 2) == 5;
    assert Partitions(sl + 10, sl + 9, 5) == [];
    assert Partitions(sl + 5, sl + 9, 5) == [Range(sl + 5, sl + 9)];
  }

  class Scanner {
    /** Integer forms of the scanner's start and end addresses. */
    var MinIP: uint32
    var MaxIP: uint32
    var Threads: nat
    /** Metric.Count and Metric.Done. */
    var Count: nat
    var Done: nat
    var Workers: seq<Worker>

    /** The workers from index `from` on were built by addWorker for `rs`,
        in order, and none of them has been touched since. */
    ghost predicate BuiltFrom(from: nat, rs: seq<Range>)
      reads this, Workers
    {
      from + |rs| == |Workers| &&
      forall i :: from <= i < |Workers| ==> Workers[i].Fresh(rs[i - from].lo, rs[i - from].hi)
    }

    ghost predicate DistinctFrom(from: nat)
      reads this
    {
      forall i, j :: from <= i < j < |Workers| ==> Workers[i] != Workers[j]
    }

    /** NewScanner: record the arguments and build the workers. */
    constructor (minIP: uint32, maxIP: uint32, threads: nat)
      requires minIP <= maxIP && threads >= 1
      ensures MinIP == minIP && MaxIP == maxIP && Threads == threads
      ensures Count == maxIP - minIP && Done == 0
      ensures BuiltFrom(0, Layout(minIP, maxIP, threads)) && DistinctFrom(0)
      ensures forall i :: 0 <= i < |Workers| ==> fresh(Workers[i])
    {
      MinIP, MaxIP, Threads := minIP, maxIP, threads;
      Count, Done := 0, 0;
      Workers := [];
      new;
      AddWorkers();
    }

    /** addWorkers: set Count and append one worker per partition. */
    method AddWorkers()
      requires MinIP <= MaxIP && Threads >= 1
      modifies `Count, `Workers
      ensures Count == MaxIP - MinIP
      ensures |Workers| >= |old(Workers)| && Workers[..|old(Workers)|] == old(Workers)
      ensures BuiltFrom(|old(Workers)|, Layout(MinIP, MaxIP, Threads)) && DistinctFrom(|old(Workers)|)
      ensures forall i :: |old(Workers)| <= i < |Workers| ==> fresh(Workers[i])
    {
      var sl, el := MinIP, MaxIP;
      var step := CeilDiv(el - sl, Threads);
      Count := el - sl;
      StepBounds(el - sl, Threads);
      ghost var P := Partitions(sl, el, step);
      ghost var n0 := |Workers|;
      ghost var added: seq<Range> := [];
      var min := sl;
      while min < el
        invariant Count == el - sl
        invariant min < el ==> step >= 1
        invariant added + Partitions(min, el, step) == P
        invariant |Workers| == n0 + |added|
        invariant forall i :: 0 <= i < n0 ==> Workers[i] == old(Workers)[i]
        invariant forall i :: n0 <= i < |Workers| ==> Workers[i].Fresh(added[i - n0].lo, added[i - n0].hi)
        invariant forall i :: n0 <= i < |Workers| ==> fresh(Workers[i])
        invariant DistinctFrom(n0)
        decreases el - min
      {
        var max := min + step;
        if max > el {
          max := el;
        }
        assert Partitions(min, el, step) == [Range(min, max)] + Partitions(min + step, el, step);
        ghost var before := Workers;
        AddWorker(min, max);
        assert forall i :: 0 <= i < |before| ==> Workers[i] == before[i];
        ConcatAssoc(added, [Range(min, max)], Partitions(min + step, el, step));
        added := added + [Range(min, max)];
        min := min + step;
      }
      assert added == P && Layout(MinIP, MaxIP, Threads) == P;
      assert Workers[..n0] == old(Workers);
      assert BuiltFrom(n0, P);
    }

    /** addWorker: append a fresh worker for [min, max]. */
    method AddWorker(min: nat, max: nat)
      modifies `Workers
      ensures |Workers| == |old(Workers)| + 1 && Workers[..|old(Workers)|] == old(Workers)
      ensures fresh(Workers[|old(Workers)|]) && Workers[|old(Workers)|].Fresh(min, max)
    {
      var w := new Worker(min, max);
      Workers := Workers + [w];
    }

    /** SendSignal: store the signal in every worker; bounds, cursors, the
        worker list and the metrics stay as they were. */
    method SendSignal(signal: WorkerSignal)
      modifies set w | w in Workers
      ensures forall i :: 0 <= i < |Workers| ==> Workers[i].Signal == signal
      ensures forall i :: 0 <= i < |Workers| ==>
        Workers[i].MinLong == old(Workers[i].MinLong) && Workers[i].MaxLong == old(Workers[i].MaxLong) &&
        Workers[i].CurLong == old(Workers[i].CurLong) && Workers[i].OkLong == old(Workers[i].OkLong)
    {
      for i := 0 to |Workers|
        invariant forall j :: 0 <= j < i ==> Workers[j].Signal == signal
        invariant forall j :: 0 <= j < |Workers| ==>
          Workers[j].MinLong == old(Workers[j].MinLong) && Workers[j].MaxLong == old(Workers[j].MaxLong) &&
          Workers[j].CurLong == old(Workers[j].CurLong) && Workers[j].OkLong == old(Workers[j].OkLong)
      {
        Workers[i].Signal := signal;
      }
    }
  }
}
