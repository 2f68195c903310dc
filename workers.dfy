/**
 * One partition's scan loop (worker.go). A worker walks a cursor from
 * CurLong up to MaxLong, calls the probe callback on each address and
 * reacts to the control signal another goroutine may write at any time.
 *
 * The callback and the concurrent signal writer are the environment:
 * `writes[k]` is the signal (if any) that a SendSignal stored just before
 * iteration k reads it, and `verdicts(k)` is the callback's answer on its
 * k-th call.
 */
module Workers {
  import opened Options

  /** WorkerSignal. NoSignal is the empty string the loop stores to clear it. */
  datatype WorkerSignal = NoSignal | Restart | Stop | Pause | Resume

  /** The fields of a worker that Each updates. */
  datatype Progress = Progress(cur: nat, ok: nat, signal: WorkerSignal)

  /** One call of the probe callback: the address probed and the verdict it returned. */
  datatype Probe = Probe(addr: nat, reachable: bool)

  /** The signal the switch reads: the last one stored in the field. */
  function Observe(signal: WorkerSignal, write: Option<WorkerSignal>): WorkerSignal
  {
    if write.Some? then write.value else signal
  }

  /** No write is pending once the environment's writes are used up. */
  function WriteAt(writes: seq<Option<WorkerSignal>>, k: nat): Option<WorkerSignal>
  {
    if k < |writes| then writes[k] else None
  }

  /**
   * The switch on the signal: the loop variable and the signal after it.
   * Restart rewinds to MinLong and clears the signal. Stop's `break`
   * leaves only the switch, and the Pause wait loop runs only while the
   * signal is not Pause, so with writes landing only before the switch
   * neither changes anything.
   */
  function Dispatch(min: nat, l: nat, signal: WorkerSignal): (nat, WorkerSignal)
  {
    match signal
    case Restart => (min, NoSignal)
    case _ => (l, signal)
  }

  function RestartPending(p: Progress): nat
  {
    if p.signal == Restart then 1 else 0
  }

  function WritesLeft(writes: seq<Option<WorkerSignal>>, k: nat): nat
  {
    if k < |writes| then |writes| - k else 0
  }

  /**
   * One iteration of Each's loop at loop variable `l` (not past MaxLong):
   * the address probed and the worker's fields afterwards.
   */
  function Step(min: nat, l: nat, p: Progress, write: Option<WorkerSignal>, verdict: bool): (nat, Progress)
  {
    var (l', sig') := Dispatch(min, l, Observe(p.signal, write));
    (l', Progress(l', if verdict then l' else p.ok, sig'))
  }

  /**
   * The loop of Each from loop variable `l`, worker fields `p` and call
   * count `k`: the fields when the loop ends and the calls made on the way.
   */
  function Run(min: nat, max: nat, l: nat, p: Progress, k: nat,
               writes: seq<Option<WorkerSignal>>, verdicts: nat -> bool): (Progress, seq<Probe>)
    decreases WritesLeft(writes, k), RestartPending(p), max + 1 - l
  {
    if l > max then (p, [])
    else
      var s := Step(min, l, p, WriteAt(writes, k), verdicts(k));
      var rest := Run(min, max, s.0 + 1, s.1, k + 1, writes, verdicts);
      (rest.0, [Probe(s.0, verdicts(k))] + rest.1)
  }

  /** The addresses of the calls in `t`, in call order. */
  function ProbedAddrs(t: seq<Probe>): seq<nat>
  {
    seq(|t|, i requires 0 <= i < |t| => t[i].addr)
  }

  lemma ProbedAddrsCons(x: Probe, t: seq<Probe>)
    ensures ProbedAddrs([x] + t) == [x.addr] + ProbedAddrs(t)
  {
  }

  /** lo, lo + 1, ..., hi - 1. */
  function Interval(lo: nat, hi: nat): (r: seq<nat>)
    ensures |r| == if lo <= hi then hi - lo else 0
    ensures forall i :: 0 <= i < |r| ==> r[i] == lo + i
    decreases hi - lo
  {
    if lo >= hi then [] else [lo] + Interval(lo + 1, hi)
  }

  predicate NoRestartFrom(writes: seq<Option<WorkerSignal>>, k: nat)
  {
    forall j :: k <= j < |writes| ==> writes[j] != Some(Restart)
  }

  predicate NoWriteFrom(writes: seq<Option<WorkerSignal>>, k: nat)
  {
    forall j :: k <= j < |writes| ==> writes[j].None?
  }

  /** Each call passes on the callback's answer of that call, and the
      cursor ends at the last address probed (untouched if nothing was). */
  lemma {:induction false} RunCursor(min: nat, max: nat, l: nat, p: Progress, k: nat,
                                     writes: seq<Option<WorkerSignal>>, verdicts: nat -> bool)
    ensures var (f, t) := Run(min, max, l, p, k, writes, verdicts);
      (forall i :: 0 <= i < |t| ==> t[i].reachable == verdicts(k + i)) &&
      (|t| == 0 <==> l > max) &&
      (|t| == 0 ==> f == p) &&
      (|t| > 0 ==> f.cur == t[|t| - 1].addr)
    decreases WritesLeft(writes, k), RestartPending(p), max + 1 - l
  {
    if l <= max {
      var (a, p') := Step(min, l, p, WriteAt(writes, k), verdicts(k));
      RunCursor(min, max, a + 1, p', k + 1, writes, verdicts);
    }
  }

  /** Whatever signals arrive, a loop entered at or below `max` ends with
      the cursor on `max` (when the partition is not inverted). */
  lemma {:induction false} CurEndsOnMax(min: nat, max: nat, l: nat, p: Progress, k: nat,
                                        writes: seq<Option<WorkerSignal>>, verdicts: nat -> bool)
    requires min <= max && l <= max
    ensures Run(min, max, l, p, k, writes, verdicts).0.cur == max
    decreases WritesLeft(writes, k), RestartPending(p), max + 1 - l
  {
    var (a, p') := Step(min, l, p, WriteAt(writes, k), verdicts(k));
    if a + 1 <= max {
      CurEndsOnMax(min, max, a + 1, p', k + 1, writes, verdicts);
    }
  }

  /** Every call in `t` probes an address in [.., max], or `min` itself. */
  predicate ProbesWithin(t: seq<Probe>, min: nat, max: nat)
  {
    forall i :: 0 <= i < |t| ==> t[i].addr <= max || t[i].addr == min
  }

  /** No call probes an address past `max`, except the `min` a Restart
      rewinds to (which is past `max` only in an inverted partition). */
  lemma {:induction false} RunWithinBounds(min: nat, max: nat, l: nat, p: Progress, k: nat,
                                           writes: seq<Option<WorkerSignal>>, verdicts: nat -> bool)
    ensures ProbesWithin(Run(min, max, l, p, k, writes, verdicts).1, min, max)
    decreases WritesLeft(writes, k), RestartPending(p), max + 1 - l
  {
    if l <= max {
      var (a, p') := Step(min, l, p, WriteAt(writes, k), verdicts(k));
      RunWithinBounds(min, max, a + 1, p', k + 1, writes, verdicts);
      var t' := Run(min, max, a + 1, p', k + 1, writes, verdicts).1;
      var t := Run(min, max, l, p, k, writes, verdicts).1;
      assert t == [Probe(a, verdicts(k))] + t';
      assert a <= max || a == min;
      forall i | 1 <= i < |t| ensures t[i].addr <= max || t[i].addr == min {
        assert t[i] == t'[i - 1];
      }
    }
  }

  /** OkLong moves only on a true verdict: at the end it is the address of
      the last call that answered true, or unchanged if none did. */
  lemma {:induction false} RunOk(min: nat, max: nat, l: nat, p: Progress, k: nat,
                                 writes: seq<Option<WorkerSignal>>, verdicts: nat -> bool)
    ensures var (f, t) := Run(min, max, l, p, k, writes, verdicts);
      ((forall i :: 0 <= i < |t| ==> !t[i].reachable) ==> f.ok == p.ok) &&
      (forall i :: 0 <= i < |t| && t[i].reachable && (forall j :: i < j < |t| ==> !t[j].reachable) ==>
         f.ok == t[i].addr)
    decreases WritesLeft(writes, k), RestartPending(p), max + 1 - l
  {
    if l <= max {
      var (a, p') := Step(min, l, p, WriteAt(writes, k), verdicts(k));
      RunOk(min, max, a + 1, p', k + 1, writes, verdicts);
      var (f, t) := Run(min, max, l, p, k, writes, verdicts);
      var t' := Run(min, max, a + 1, p', k + 1, writes, verdicts).1;
      assert t == [Probe(a, verdicts(k))] + t';
      forall i | 0 <= i < |t| && t[i].reachable && (forall j :: i < j < |t| ==> !t[j].reachable)
        ensures f.ok == t[i].addr
      {
        if i > 0 {
          assert t'[i - 1] == t[i];
          forall j | i - 1 < j < |t'| ensures !t'[j].reachable {
            assert t'[j] == t[j + 1];
          }
        } else {
          forall j | 0 <= j < |t'| ensures !t'[j].reachable {
            assert t'[j] == t[j + 1];
          }
        }
      }
      if forall i :: 0 <= i < |t| ==> !t[i].reachable {
        assert !t[0].reachable;
        forall j | 0 <= j < |t'| ensures !t'[j].reachable {
          assert t'[j] == t[j + 1];
        }
      }
    }
  }

  /**
   * Without a Restart the loop probes every address from `l` up to `max`
   * once, in increasing order, and the cursor ends on `max`; if nothing is
   * written to the signal meanwhile, the signal it started with is still
   * there at the end (a Stop or a Pause does not end or block the loop).
   */
  lemma {:induction false} NoRestartScansInOrder(min: nat, max: nat, l: nat, p: Progress, k: nat,
                                                 writes: seq<Option<WorkerSignal>>, verdicts: nat -> bool)
    requires p.signal != Restart && NoRestartFrom(writes, k)
    ensures var (f, t) := Run(min, max, l, p, k, writes, verdicts);
      ProbedAddrs(t) == Interval(l, max + 1) &&
      (l <= max ==> f.cur == max) &&
      (NoWriteFrom(writes, k) ==> f.signal == p.signal)
    decreases max + 1 - l
  {
    if l <= max {
      var (a, p') := Step(min, l, p, WriteAt(writes, k), verdicts(k));
      assert a == l && p'.signal != Restart;
      NoRestartScansInOrder(min, max, a + 1, p', k + 1, writes, verdicts);
      var t' := Run(min, max, a + 1, p', k + 1, writes, verdicts).1;
      ProbedAddrsCons(Probe(a, verdicts(k)), t');
    }
  }

  /** A Restart seen at the top of an iteration rewinds to `min` and clears
      the signal: that iteration probes `min`, and with no later Restart the
      loop then probes the whole partition in order and ends with the cursor
      on `max`; with nothing written afterwards the signal stays cleared. */
  lemma {:induction false} RestartRescans(min: nat, max: nat, l: nat, p: Progress, k: nat,
                                          writes: seq<Option<WorkerSignal>>, verdicts: nat -> bool)
    requires min <= max && l <= max
    requires WriteAt(writes, k) == Some(Restart) && NoRestartFrom(writes, k + 1)
    ensures var (f, t) := Run(min, max, l, p, k, writes, verdicts);
      ProbedAddrs(t) == Interval(min, max + 1) && f.cur == max &&
      (NoWriteFrom(writes, k + 1) ==> f.signal == NoSignal)
  {
    var (a, p') := Step(min, l, p, WriteAt(writes, k), verdicts(k));
    assert a == min && p'.signal == NoSignal;
    NoRestartScansInOrder(min, max, a + 1, p', k + 1, writes, verdicts);
    var t' := Run(min, max, a + 1, p', k + 1, writes, verdicts).1;
    ProbedAddrsCons(Probe(a, verdicts(k)), t');
  }

  /** Each's loop with a Stop written before its first iteration still
      probes every address up to MaxLong, and the signal stays Stop. */
  lemma StopDoesNotEndLoop(min: nat, max: nat, cur: nat, ok: nat, verdicts: nat -> bool)
    requires cur <= max
    ensures var (f, t) := Run(min, max, cur, Progress(cur, ok, NoSignal), 0, [Some(Stop)], verdicts);
      ProbedAddrs(t) == Interval(cur, max + 1) && f.cur == max && f.signal == Stop
  {
    var p' := Step(min, cur, Progress(cur, ok, NoSignal), Some(Stop), verdicts(0)).1;
    NoRestartScansInOrder(min, max, cur + 1, p', 1, [Some(Stop)], verdicts);
    var t' := Run(min, max, cur + 1, p', 1, [Some(Stop)], verdicts).1;
    ProbedAddrsCons(Probe(cur, verdicts(0)), t');
  }

  /** Each's loop with a Pause written before its first iteration never
      waits: it probes every address up to MaxLong, the signal stays Pause. */
  lemma PauseNeverBlocks(min: nat, max: nat, cur: nat, ok: nat, verdicts: nat -> bool)
    requires cur <= max
    ensures var (f, t) := Run(min, max, cur, Progress(cur, ok, NoSignal), 0, [Some(Pause)], verdicts);
      ProbedAddrs(t) == Interval(cur, max + 1) && f.cur == max && f.signal == Pause
  {
    var p' := Step(min, cur, Progress(cur, ok, NoSignal), Some(Pause), verdicts(0)).1;
    NoRestartScansInOrder(min, max, cur + 1, p', 1, [Some(Pause)], verdicts);
    var t' := Run(min, max, cur + 1, p', 1, [Some(Pause)], verdicts).1;
    ProbedAddrsCons(Probe(cur, verdicts(0)), t');
  }

  /** The outcome of a run that follows the calls already made in `done`. */
  function After(done: seq<Probe>, r: (Progress, seq<Probe>)): (Progress, seq<Probe>)
  {
    (r.0, done + r.1)
  }

  lemma ConcatAssoc<T>(a: seq<T>, b: seq<T>, c: seq<T>)
    ensures a + (b + c) == (a + b) + c
  {
  }

  /** The loop after the calls in `done`, unrolled by one iteration. */
  lemma RunStep(done: seq<Probe>, min: nat, max: nat, l: nat, p: Progress, k: nat,
                writes: seq<Option<WorkerSignal>>, verdicts: nat -> bool)
    requires l <= max
    ensures var s := Step(min, l, p, WriteAt(writes, k), verdicts(k));
      After(done, Run(min, max, l, p, k, writes, verdicts)) ==
      After(done + [Probe(s.0, verdicts(k))], Run(min, max, s.0 + 1, s.1, k + 1, writes, verdicts))
  {
    var s := Step(min, l, p, WriteAt(writes, k), verdicts(k));
    ConcatAssoc(done, [Probe(s.0, verdicts(k))], Run(min, max, s.0 + 1, s.1, k + 1, writes, verdicts).1);
  }

  class Worker {
    var MinLong: nat
    var MaxLong: nat
    var CurLong: nat
    var OkLong: nat
    var Signal: WorkerSignal

    /** A worker as addWorker builds it: both cursors at `min`, no signal. */
    constructor (min: nat, max: nat)
      ensures MinLong == min && MaxLong == max
      ensures CurLong == min && OkLong == min && Signal == NoSignal
    {
      MinLong, MaxLong := min, max;
      CurLong, OkLong := min, min;
      Signal := NoSignal;
    }

    /** The state addWorker gives a worker for [lo, hi]: both cursors at
        `lo` and no signal. */
    ghost predicate Fresh(lo: nat, hi: nat)
      reads this
    {
      MinLong == lo && MaxLong == hi && CurLong == lo && OkLong == lo && Signal == NoSignal
    }

    /** Each: clear the signal, then probe from CurLong to MaxLong. */
    method Each(writes: seq<Option<WorkerSignal>>, verdicts: nat -> bool) returns (probes: seq<Probe>)
      modifies `CurLong, `OkLong, `Signal
      ensures MinLong == old(MinLong) && MaxLong == old(MaxLong)
      ensures (Progress(CurLong, OkLong, Signal), probes) ==
        Run(MinLong, MaxLong, old(CurLong), Progress(old(CurLong), old(OkLong), NoSignal), 0, writes, verdicts)
    {
      Signal := NoSignal;
      ghost var goal := Run(MinLong, MaxLong, CurLong, Progress(CurLong, OkLong, Signal), 0, writes, verdicts);
      var l: nat := CurLong;
      var k := 0;
      probes := [];
      assert probes + goal.1 == goal.1;
      while l <= MaxLong
        invariant goal == After(probes, Run(MinLong, MaxLong, l, Progress(CurLong, OkLong, Signal), k, writes, verdicts))
        decreases WritesLeft(writes, k), if Signal == Restart then 1 else 0, MaxLong + 1 - l
      {
        RunStep(probes, MinLong, MaxLong, l, Progress(CurLong, OkLong, Signal), k, writes, verdicts);
        var reachable := verdicts(k);
        var at := Visit(l, WriteAt(writes, k), reachable);
        probes := probes + [Probe(at, reachable)];
        l, k := at + 1, k + 1;
      }
      assert probes + [] == probes;
    }

    /**
     * One pass of Each's loop body at loop variable `l`, after a concurrent
     * `write` (if any) landed in the signal: the switch, the cursor update
     * and the callback's `reachable` verdict. Returns the address probed.
     */
    method Visit(l: nat, write: Option<WorkerSignal>, reachable: bool) returns (at: nat)
      modifies `CurLong, `OkLong, `Signal
      ensures (at, Progress(CurLong, OkLong, Signal)) ==
        Step(MinLong, l, old(Progress(CurLong, OkLong, Signal)), write, reachable)
    {
      if write.Some? {
        Signal := write.value;
      }
      at := l;
      match Signal {
        case Restart =>
          at := MinLong;
          Signal := NoSignal;
        case _ =>
          // Stop: `break` leaves the switch, not the loop.
          // Pause: the wait loop runs while Signal != Pause, so not at all
          // when no write lands between the switch and its guard.
      }
      CurLong := at;
      if reachable {
        OkLong := at;
      }
    }

    /** Worker.SendSignal: store the signal, nothing else. */
    method SendSignal(signal: WorkerSignal)
      modifies `Signal
      ensures Signal == signal
    {
      Signal := signal;
    }
  }
}
