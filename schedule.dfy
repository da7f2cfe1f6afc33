/** The order of operations of the driver loop Waves::evolve (evolve.cpp):
    what happens at each step, as a trace of events, and what that order
    guarantees over a whole run. The Engine's driver is proved to produce
    exactly this trace. */
module Schedule {

  /** The waves feed back on the CRs only after this many steps. */
  const WarmUpSteps: nat := 10000

  /** What the driver does, in the order it does it. */
  datatype Event =
    | Announce(maxCounter: nat)           // the run's length is reported
    | ZSolve(counter: nat, time: real)     // evolve_f_in_z(1, counter·dt)
    | GradientUpdate(counter: nat)         // compute_dfdz
    | WaveUpdate(counter: nat)             // evolve_waves(1)
    | DiffusionUpdate(counter: nat)        // compute_D_zz
    | Dump(counter: nat, time: real)       // status, energy and border tests, dump(counter·dt)
    | Status(counter: nat)                 // the closing status report

  /** The time of step `counter`: counter·dt. */
  function StepTime(counter: nat, dt: real): real
  {
    counter as real * dt
  }

  /** Whether step `counter` runs the self-generated-wave feedback. */
  predicate FeedbackActive(counter: nat, selfGeneration: bool)
  {
    counter > WarmUpSteps && selfGeneration
  }

  /** The events of step `counter` (counting from 1). */
  function StepEvents(counter: nat, dt: real, selfGeneration: bool, dumpCounter: nat): (r: seq<Event>)
    requires dumpCounter > 0
    ensures |r| >= 1 && r[0] == ZSolve(counter, StepTime(counter, dt))
  {
    [ZSolve(counter, StepTime(counter, dt))]
    + (if FeedbackActive(counter, selfGeneration)
       then [GradientUpdate(counter), WaveUpdate(counter), DiffusionUpdate(counter)]
       else [])
    + (if counter % dumpCounter == 0 then [Dump(counter, StepTime(counter, dt))] else [])
  }

  /** The events of steps 1 .. n. */
  function RunEvents(n: nat, dt: real, selfGeneration: bool, dumpCounter: nat): seq<Event>
    requires dumpCounter > 0
  {
    if n == 0 then [] else RunEvents(n - 1, dt, selfGeneration, dumpCounter) + StepEvents(n, dt, selfGeneration, dumpCounter)
  }

  /** The whole trace of evolve(dt, maxCounter, dumpCounter). */
  function Trace(maxCounter: nat, dt: real, selfGeneration: bool, dumpCounter: nat): seq<Event>
    requires dumpCounter > 0
  {
    [Announce(maxCounter)] + RunEvents(maxCounter, dt, selfGeneration, dumpCounter) + [Status(maxCounter)]
  }

  // ---------------------------------------------------------------------------
  // Counting events

  function DumpCount(events: seq<Event>): nat
  {
    if events == [] then 0
    else DumpCount(events[..|events| - 1]) + (if events[|events| - 1].Dump? then 1 else 0)
  }

  function ZSolveCounters(events: seq<Event>): seq<nat>
  {
    if events == [] then []
    else
      var last := events[|events| - 1];
      ZSolveCounters(events[..|events| - 1]) + (if last.ZSolve? then [last.counter] else [])
  }

  lemma {:induction false} DumpCountAppend(a: seq<Event>, b: seq<Event>)
    ensures DumpCount(a + b) == DumpCount(a) + DumpCount(b)
    decreases |b|
  {
    if b != [] {
      var b' := b[..|b| - 1];
      assert (a + b)[..|a + b| - 1] == a + b';
      DumpCountAppend(a, b');
    } else {
      assert a + b == a;
    }
  }

  lemma {:induction false} ZSolveCountersAppend(a: seq<Event>, b: seq<Event>)
    ensures ZSolveCounters(a + b) == ZSolveCounters(a) + ZSolveCounters(b)
    decreases |b|
  {
    if b != [] {
      var b' := b[..|b| - 1];
      assert (a + b)[..|a + b| - 1] == a + b';
      ZSolveCountersAppend(a, b');
    } else {
      assert a + b == a;
    }
  }

  /** A multiple of a positive d strictly between -d and d is 0·d. */
  lemma MultipleBound(k: int, d: int)
    requires d > 0 && -d < k * d < d
    ensures k == 0
  {
  }

  lemma {:induction false} NoDumps(events: seq<Event>)
    requires forall i | 0 <= i < |events| :: !events[i].Dump?
    ensures DumpCount(events) == 0
  {
    if events != [] {
      NoDumps(events[..|events| - 1]);
    }
  }

  lemma {:induction false} NoZSolves(events: seq<Event>)
    requires forall i | 0 <= i < |events| :: !events[i].ZSolve?
    ensures ZSolveCounters(events) == []
  {
    if events != [] {
      NoZSolves(events[..|events| - 1]);
    }
  }

  /** Euclidean division is determined by its defining equation. */
  lemma DivModUnique(n: int, d: int, q: int, r: int)
    requires d > 0 && 0 <= r < d && n == q * d + r
    ensures n / d == q && n % d == r
  {
    var q', r' := n / d, n % d;
    assert n == q' * d + r' && 0 <= r' < d;
    assert (q - q') * d == q * d - q' * d;
    MultipleBound(q - q', d);
  }

  /** Stepping the counter from n-1 to n adds one to n/d exactly when n is a
      multiple of d. */
  lemma DivStep(n: nat, d: nat)
    requires n >= 1 && d >= 1
    ensures n / d == (n - 1) / d + (if n % d == 0 then 1 else 0)
  {
    var q, r := (n - 1) / d, (n - 1) % d;
    if r == d - 1 {
      DivModUnique(n, d, q + 1, 0);
    } else {
      DivModUnique(n, d, q, r + 1);
    }
  }

  lemma StepDumpCount(counter: nat, dt: real, selfGeneration: bool, dumpCounter: nat)
    requires dumpCounter > 0
    ensures DumpCount(StepEvents(counter, dt, selfGeneration, dumpCounter)) == if counter % dumpCounter == 0 then 1 else 0
  {
    var head := [ZSolve(counter, StepTime(counter, dt))];
    var feedback := if FeedbackActive(counter, selfGeneration)
      then [GradientUpdate(counter), WaveUpdate(counter), DiffusionUpdate(counter)] else [];
    var dump := if counter % dumpCounter == 0 then [Dump(counter, StepTime(counter, dt))] else [];
    DumpCountAppend(head + feedback, dump);
    DumpCountAppend(head, feedback);
    assert DumpCount(head) == 0 by {
      assert head[..0] == [];
    }
    NoDumps(feedback);
    assert DumpCount(dump) == |dump| by {
      if dump != [] {
        assert dump[..0] == [];
      }
    }
  }

  /** A run of n steps dumps n / dump_counter times. */
  lemma {:induction false} RunDumpCount(n: nat, dt: real, selfGeneration: bool, dumpCounter: nat)
    requires dumpCounter > 0
    ensures DumpCount(RunEvents(n, dt, selfGeneration, dumpCounter)) == n / dumpCounter
  {
    if n > 0 {
      var before, step := RunEvents(n - 1, dt, selfGeneration, dumpCounter), StepEvents(n, dt, selfGeneration, dumpCounter);
      assert RunEvents(n, dt, selfGeneration, dumpCounter) == before + step;
      RunDumpCount(n - 1, dt, selfGeneration, dumpCounter);
      DumpCountAppend(before, step);
      StepDumpCount(n, dt, selfGeneration, dumpCounter);
      DivStep(n, dumpCounter);
    }
  }

  lemma StepZSolveCounters(counter: nat, dt: real, selfGeneration: bool, dumpCounter: nat)
    requires dumpCounter > 0
    ensures ZSolveCounters(StepEvents(counter, dt, selfGeneration, dumpCounter)) == [counter]
  {
    var head := [ZSolve(counter, StepTime(counter, dt))];
    var feedback := if FeedbackActive(counter, selfGeneration)
      then [GradientUpdate(counter), WaveUpdate(counter), DiffusionUpdate(counter)] else [];
    var dump := if counter % dumpCounter == 0 then [Dump(counter, StepTime(counter, dt))] else [];
    ZSolveCountersAppend(head + feedback, dump);
    ZSolveCountersAppend(head, feedback);
    assert ZSolveCounters(head) == [counter] by {
      assert head[..0] == [];
    }
    NoZSolves(feedback);
    assert ZSolveCounters(dump) == [] by {
      if dump != [] {
        assert dump[..0] == [];
      }
    }
  }

  /** Every step solves the height transport exactly once, in counter order:
      the z-solves of a run of n steps are those of steps 1, 2, …, n. */
  lemma {:induction false} RunZSolveCounters(n: nat, dt: real, selfGeneration: bool, dumpCounter: nat)
    requires dumpCounter > 0
    ensures var c := ZSolveCounters(RunEvents(n, dt, selfGeneration, dumpCounter));
      |c| == n && forall i | 0 <= i < n :: c[i] == i + 1
  {
    if n > 0 {
      RunZSolveCounters(n - 1, dt, selfGeneration, dumpCounter);
      ZSolveCountersAppend(RunEvents(n - 1, dt, selfGeneration, dumpCounter), StepEvents(n, dt, selfGeneration, dumpCounter));
      StepZSolveCounters(n, dt, selfGeneration, dumpCounter);
    }
  }

  // ---------------------------------------------------------------------------
  // Which steps do what

  /** The wave update runs at step k of a run of n steps exactly when
      k > 10000 and self-generation is on. */
  lemma {:induction false} WaveUpdateSteps(n: nat, k: nat, dt: real, selfGeneration: bool, dumpCounter: nat)
    requires dumpCounter > 0
    ensures WaveUpdate(k) in RunEvents(n, dt, selfGeneration, dumpCounter)
      <==> 1 <= k <= n && FeedbackActive(k, selfGeneration)
  {
    if n > 0 {
      WaveUpdateSteps(n - 1, k, dt, selfGeneration, dumpCounter);
      var prefix, step := RunEvents(n - 1, dt, selfGeneration, dumpCounter), StepEvents(n, dt, selfGeneration, dumpCounter);
      assert WaveUpdate(k) in prefix + step <==> WaveUpdate(k) in prefix || WaveUpdate(k) in step;
      if FeedbackActive(n, selfGeneration) {
        assert step[2] == WaveUpdate(n);
      }
    }
  }

  /** A dump happens at step k of a run of n steps exactly when k is a
      multiple of dump_counter, and it is stamped with time k·dt. */
  lemma {:induction false} DumpSteps(n: nat, k: nat, t: real, dt: real, selfGeneration: bool, dumpCounter: nat)
    requires dumpCounter > 0
    ensures Dump(k, t) in RunEvents(n, dt, selfGeneration, dumpCounter)
      <==> 1 <= k <= n && k % dumpCounter == 0 && t == StepTime(k, dt)
  {
    if n > 0 {
      DumpSteps(n - 1, k, t, dt, selfGeneration, dumpCounter);
      var prefix, step := RunEvents(n - 1, dt, selfGeneration, dumpCounter), StepEvents(n, dt, selfGeneration, dumpCounter);
      assert Dump(k, t) in prefix + step <==> Dump(k, t) in prefix || Dump(k, t) in step;
      if n % dumpCounter == 0 {
        assert step[|step| - 1] == Dump(n, StepTime(n, dt));
      }
    }
  }

  /** Within a run the feedback is bracketed: every wave update is preceded
      by the z-solve and the gradient update of its own step and followed by
      the diffusion update of its own step. */
  predicate FeedbackBracketed(e: seq<Event>, dt: real)
  {
    forall j | 0 <= j < |e| && e[j].WaveUpdate? ::
      2 <= j < |e| - 1 &&
      e[j - 2] == ZSolve(e[j].counter, StepTime(e[j].counter, dt)) &&
      e[j - 1] == GradientUpdate(e[j].counter) &&
      e[j + 1] == DiffusionUpdate(e[j].counter)
  }

  /** Where the feedback events sit within one step. */
  lemma StepShape(n: nat, dt: real, selfGeneration: bool, dumpCounter: nat)
    requires dumpCounter > 0
    ensures var step := StepEvents(n, dt, selfGeneration, dumpCounter);
      if FeedbackActive(n, selfGeneration) then
        |step| >= 4 && step[0] == ZSolve(n, StepTime(n, dt)) && step[1] == GradientUpdate(n)
        && step[3] == DiffusionUpdate(n) && (forall i | 0 <= i < |step| :: step[i].WaveUpdate? <==> i == 2)
      else
        forall i | 0 <= i < |step| :: !step[i].WaveUpdate?
  {
  }

  lemma BracketedAppend(prefix: seq<Event>, n: nat, dt: real, selfGeneration: bool, dumpCounter: nat)
    requires dumpCounter > 0 && FeedbackBracketed(prefix, dt)
    ensures FeedbackBracketed(prefix + StepEvents(n, dt, selfGeneration, dumpCounter), dt)
  {
    var step := StepEvents(n, dt, selfGeneration, dumpCounter);
    var e := prefix + step;
    StepShape(n, dt, selfGeneration, dumpCounter);
    forall j | 0 <= j < |e| && e[j].WaveUpdate?
      ensures 2 <= j < |e| - 1
      ensures e[j - 2] == ZSolve(e[j].counter, StepTime(e[j].counter, dt))
      ensures e[j - 1] == GradientUpdate(e[j].counter)
      ensures e[j + 1] == DiffusionUpdate(e[j].counter)
    {
      if j < |prefix| {
        assert e[j] == prefix[j] && prefix[j].WaveUpdate?;
        assert e[j - 2] == prefix[j - 2] && e[j - 1] == prefix[j - 1] && e[j + 1] == prefix[j + 1];
      } else {
        assert step[j - |prefix|] == e[j];
        assert j - |prefix| == 2;
        assert e[j - 2] == step[0] && e[j - 1] == step[1] && e[j] == step[2] && e[j + 1] == step[3];
      }
    }
  }

  lemma {:induction false} FeedbackOrder(n: nat, dt: real, selfGeneration: bool, dumpCounter: nat)
    requires dumpCounter > 0
    ensures FeedbackBracketed(RunEvents(n, dt, selfGeneration, dumpCounter), dt)
  {
    if n > 0 {
      FeedbackOrder(n - 1, dt, selfGeneration, dumpCounter);
      BracketedAppend(RunEvents(n - 1, dt, selfGeneration, dumpCounter), n, dt, selfGeneration, dumpCounter);
    }
  }
}
