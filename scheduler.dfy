/**
 * The scheduling loop of the loader's `main`.
 *
 * Each cycle reads the clock once (the cycle's start time), asks the source
 * control file for the next control file to process, runs a batch on it when
 * there is one (`start`, then `clean`), and waits for the next cycle measured
 * from the start time. What a cycle does to the outside world is recorded as
 * a trace of events. The endless loop is run for as long as the given poll
 * results and clock readings last.
 */
module Scheduler {
  import opened Refs
  import opened BatchWait

  /** A control file handed over by the source control file. */
  datatype ControlFile = ControlFile(name: string)

  /** The side effects of a cycle, in the order they happen. */
  datatype Event =
    | Poll                                     // getControlFileToProcess()
    | Start(file: ControlFile)                 // batch.start() on a batch for file
    | Clean(file: ControlFile)                 // batch.clean() on that batch
    | Wait(startTime: int, outcome: Outcome)   // waitForNextBatch(startTime, ...)

  /** What one cycle did: its start time, what the poll returned, how the wait ended. */
  datatype Cycle = Cycle(startTime: int, polled: Nullable<ControlFile>, outcome: Outcome)

  /** The events of one cycle whose wait ended with `outcome`. */
  function IterationTrace(startTime: int, polled: Nullable<ControlFile>, outcome: Outcome): seq<Event>
  {
    [Poll] +
    (match polled
     case Null => []
     case Ref(file) => [Start(file), Clean(file)]) +
    [Wait(startTime, outcome)]
  }

  /**
   * One pass of the `while(true)` body. `startTime` is the reading taken at
   * the top of the pass, `polled` what the poll returns, `readings` the clock
   * readings available to the wait.
   */
  method RunIteration(startTime: int, polled: Nullable<ControlFile>, msBetweenBatches: int, readings: seq<int>)
    returns (events: seq<Event>, used: nat)
    ensures var w := WaitSpec(startTime, msBetweenBatches, readings);
      events == IterationTrace(startTime, polled, w.outcome) && used == w.used
  {
    events := [Poll];
    if polled.Ref? {
      var file := polled.value;
      events := events + [Start(file)];
      events := events + [Clean(file)];
    }
    var outcome;
    outcome, used := WaitForNextBatch(startTime, msBetweenBatches, readings);
    events := events + [Wait(startTime, outcome)];
  }

  /**
   * The cycles of the loop from cycle `i` on, when that cycle takes its start
   * time from reading `c`. A cycle starts while poll results and readings
   * last; its wait consumes the readings after its start reading, and a cycle
   * whose wait ran out of readings is the last.
   */
  function CyclesFrom(polls: seq<Nullable<ControlFile>>, clock: seq<int>, msBetweenBatches: int, i: nat, c: nat): seq<Cycle>
    requires i <= |polls| && c <= |clock|
    decreases |polls| - i
  {
    if i == |polls| || c == |clock| then []
    else
      var w := WaitSpec(clock[c], msBetweenBatches, clock[c + 1..]);
      [Cycle(clock[c], polls[i], w.outcome)] + CyclesFrom(polls, clock, msBetweenBatches, i + 1, c + 1 + w.used)
  }

  /** The events of a sequence of cycles, one after the other. */
  function Trace(cycles: seq<Cycle>): seq<Event>
  {
    if cycles == [] then []
    else
      IterationTrace(cycles[0].startTime, cycles[0].polled, cycles[0].outcome) + Trace(cycles[1..])
  }

  /**
   * The events of the loop when the poll results `polls` and the clock
   * readings `clock` are consumed in order.
   */
  function RunSpec(polls: seq<Nullable<ControlFile>>, clock: seq<int>, msBetweenBatches: int): seq<Event>
  {
    Trace(CyclesFrom(polls, clock, msBetweenBatches, 0, 0))
  }

  /** The loop of `main`, bounded by the poll results and clock readings given. */
  method Run(polls: seq<Nullable<ControlFile>>, clock: seq<int>, msBetweenBatches: int)
    returns (trace: seq<Event>)
    ensures trace == RunSpec(polls, clock, msBetweenBatches)
  {
    trace := [];
    var i, c := 0, 0;
    ghost var done: seq<Cycle> := [];
    while i < |polls| && c < |clock|
      invariant 0 <= i <= |polls| && 0 <= c <= |clock|
      invariant done + CyclesFrom(polls, clock, msBetweenBatches, i, c) == CyclesFrom(polls, clock, msBetweenBatches, 0, 0)
      invariant trace == Trace(done)
      decreases |polls| - i
    {
      var startTime := clock[c];
      var events, used := RunIteration(startTime, polls[i], msBetweenBatches, clock[c + 1..]);
      ghost var cycle := Cycle(startTime, polls[i], WaitSpec(startTime, msBetweenBatches, clock[c + 1..]).outcome);
      ghost var rest := CyclesFrom(polls, clock, msBetweenBatches, i + 1, c + 1 + used);
      assert CyclesFrom(polls, clock, msBetweenBatches, i, c) == [cycle] + rest;
      assert done + ([cycle] + rest) == (done + [cycle]) + rest;
      TraceAppend(done, [cycle]);
      assert Trace([cycle]) == events by {
        assert [cycle][1..] == [];
      }
      trace := trace + events;
      done := done + [cycle];
      i, c := i + 1, c + 1 + used;
    }
    assert CyclesFrom(polls, clock, msBetweenBatches, i, c) == [];
    assert done + [] == done;
  }

  lemma {:induction false} TraceAppend(a: seq<Cycle>, b: seq<Cycle>)
    ensures Trace(a + b) == Trace(a) + Trace(b)
    decreases |a|
  {
    if a == [] {
      assert a + b == b;
    } else {
      assert (a + b)[1..] == a[1..] + b;
      TraceAppend(a[1..], b);
    }
  }

  // ---------------------------------------------------------------------------
  // Properties of the traces
  // ---------------------------------------------------------------------------

  datatype Kind = PollKind | StartKind | CleanKind | WaitKind

  function KindOf(e: Event): Kind
  {
    match e
    case Poll => PollKind
    case Start(_) => StartKind
    case Clean(_) => CleanKind
    case Wait(_, _) => WaitKind
  }

  /** How many events of kind `k` the trace holds. */
  function Count(trace: seq<Event>, k: Kind): nat
  {
    if trace == [] then 0
    else (if KindOf(trace[0]) == k then 1 else 0) + Count(trace[1..], k)
  }

  /** How many of the poll results hand over a control file. */
  function Arrivals(polls: seq<Nullable<ControlFile>>): nat
  {
    if polls == [] then 0
    else (if polls[0].Ref? then 1 else 0) + Arrivals(polls[1..])
  }

  /** Every `start` is followed at once by `clean` of the same control file. */
  predicate StartsCleaned(trace: seq<Event>)
  {
    forall j :: 0 <= j < |trace| && trace[j].Start? ==> j + 1 < |trace| && trace[j + 1] == Clean(trace[j].file)
  }

  /** Every `clean` comes right after `start` of the same control file. */
  predicate CleansStarted(trace: seq<Event>)
  {
    forall j :: 0 <= j < |trace| && trace[j].Clean? ==> 0 < j && trace[j - 1] == Start(trace[j].file)
  }

  lemma {:induction false} CountAppend(a: seq<Event>, b: seq<Event>, k: Kind)
    ensures Count(a + b, k) == Count(a, k) + Count(b, k)
    decreases |a|
  {
    if a == [] {
      assert a + b == b;
    } else {
      assert (a + b)[1..] == a[1..] + b;
      CountAppend(a[1..], b, k);
    }
  }

  lemma PairedAppend(a: seq<Event>, b: seq<Event>)
    requires StartsCleaned(a) && CleansStarted(a)
    requires StartsCleaned(b) && CleansStarted(b)
    ensures StartsCleaned(a + b) && CleansStarted(a + b)
  {
  }


  /** How many events of each kind one cycle emits. */
  lemma IterationCount(startTime: int, polled: Nullable<ControlFile>, outcome: Outcome, k: Kind)
    ensures Count(IterationTrace(startTime, polled, outcome), k) ==
      if k == PollKind || k == WaitKind then 1 else if polled.Ref? then 1 else 0
  {
    var mid := match polled case Null => [] case Ref(file) => [Start(file), Clean(file)];
    CountAppend([Poll] + mid, [Wait(startTime, outcome)], k);
    CountAppend([Poll], mid, k);
    if polled.Ref? {
      CountAppend([Start(polled.value)], [Clean(polled.value)], k);
    }
  }

  /**
   * One cycle polls once and waits once, last, measuring from its own start
   * time; it starts and cleans a batch exactly once each, in that order and on
   * the polled control file, when the poll handed one over, and never otherwise.
   */
  lemma IterationShape(startTime: int, polled: Nullable<ControlFile>, outcome: Outcome)
    ensures var t := IterationTrace(startTime, polled, outcome);
      t[0] == Poll && t[|t| - 1] == Wait(startTime, outcome) &&
      Count(t, PollKind) == 1 && Count(t, WaitKind) == 1 &&
      Count(t, StartKind) == Count(t, CleanKind) == (if polled.Ref? then 1 else 0) &&
      (polled.Ref? ==> t[1] == Start(polled.value) && t[2] == Clean(polled.value)) &&
      StartsCleaned(t) && CleansStarted(t)
  {
    IterationCount(startTime, polled, outcome, PollKind);
    IterationCount(startTime, polled, outcome, WaitKind);
    IterationCount(startTime, polled, outcome, StartKind);
    IterationCount(startTime, polled, outcome, CleanKind);
  }

  /** What the polls of a sequence of cycles returned. */
  function Polled(cycles: seq<Cycle>): seq<Nullable<ControlFile>>
  {
    if cycles == [] then [] else [cycles[0].polled] + Polled(cycles[1..])
  }

  /**
   * The cycles of a run take the poll results in order, one each, and never
   * more cycles than poll results.
   */
  lemma {:induction false} CyclesPolled(polls: seq<Nullable<ControlFile>>, clock: seq<int>, msBetweenBatches: int, i: nat, c: nat)
    requires i <= |polls| && c <= |clock|
    ensures var cs := CyclesFrom(polls, clock, msBetweenBatches, i, c);
      i + |cs| <= |polls| && Polled(cs) == polls[i..i + |cs|]
    decreases |polls| - i
  {
    if i < |polls| && c < |clock| {
      var w := WaitSpec(clock[c], msBetweenBatches, clock[c + 1..]);
      var cs := CyclesFrom(polls, clock, msBetweenBatches, i, c);
      var rest := CyclesFrom(polls, clock, msBetweenBatches, i + 1, c + 1 + w.used);
      CyclesPolled(polls, clock, msBetweenBatches, i + 1, c + 1 + w.used);
      assert cs[1..] == rest;
      assert polls[i..i + |cs|] == [polls[i]] + polls[i + 1..i + 1 + |rest|];
    }
  }

  /**
   * A sequence of cycles polls once and waits once per cycle, and starts and
   * cleans a batch once per cycle whose poll handed over a control file.
   */
  lemma {:induction false} TraceCounts(cycles: seq<Cycle>)
    ensures var t := Trace(cycles);
      Count(t, PollKind) == Count(t, WaitKind) == |cycles| &&
      Count(t, StartKind) == Count(t, CleanKind) == Arrivals(Polled(cycles))
    decreases |cycles|
  {
    if cycles != [] {
      var cy := cycles[0];
      var head := IterationTrace(cy.startTime, cy.polled, cy.outcome);
      var rest := Trace(cycles[1..]);
      TraceCounts(cycles[1..]);
      forall k: Kind
        ensures Count(head + rest, k) == Count(rest, k) +
          if k == PollKind || k == WaitKind then 1 else if cy.polled.Ref? then 1 else 0
      {
        CountAppend(head, rest, k);
        IterationCount(cy.startTime, cy.polled, cy.outcome, k);
      }
      assert Trace(cycles) == head + rest;
      var ps := Polled(cycles);
      assert ps[0] == cy.polled && ps[1..] == Polled(cycles[1..]);
      assert Arrivals(ps) == (if cy.polled.Ref? then 1 else 0) + Arrivals(Polled(cycles[1..]));
    }
  }

  /** In the events of any sequence of cycles each `start` is directly followed by its `clean`. */
  lemma {:induction false} TracePaired(cycles: seq<Cycle>)
    ensures StartsCleaned(Trace(cycles)) && CleansStarted(Trace(cycles))
    decreases |cycles|
  {
    if cycles != [] {
      var cy := cycles[0];
      IterationShape(cy.startTime, cy.polled, cy.outcome);
      TracePaired(cycles[1..]);
      PairedAppend(IterationTrace(cy.startTime, cy.polled, cy.outcome), Trace(cycles[1..]));
    }
  }

  /**
   * Over any bounded run: every cycle ends with exactly one wait, and there
   * are as many `start`s and as many `clean`s as cycles whose poll handed
   * over a control file, each `start` paired with the `clean` right after it.
   */
  lemma RunShape(polls: seq<Nullable<ControlFile>>, clock: seq<int>, msBetweenBatches: int)
    ensures var t := RunSpec(polls, clock, msBetweenBatches);
      var n := Count(t, PollKind);
      n <= |polls| &&
      Count(t, WaitKind) == n &&
      Count(t, StartKind) == Count(t, CleanKind) == Arrivals(polls[..n]) &&
      StartsCleaned(t) && CleansStarted(t)
  {
    var cs := CyclesFrom(polls, clock, msBetweenBatches, 0, 0);
    CyclesPolled(polls, clock, msBetweenBatches, 0, 0);
    TraceCounts(cs);
    TracePaired(cs);
  }
}
