/** The pre-push gate's stage machine (`tools/gate.py`): the files it keeps, each command one step over them.
    What a step reads from outside -- free space, the clock, a container listing -- is given to it. */
module Gate {
  import opened Wrappers

  /** Free KB on Docker's filesystem, and when it was read. */
  datatype Sample = Sample(when: real, kb: int)

  /** `run.json`, its budgets in KB. */
  datatype Run = Run(budgets: map<string, real>, startFreeKb: int, sharedKb: int)

  datatype Current = Current(stage: string, began: real)

  /** What `mark` keeps of a stage: its services, and the containers they had. */
  datatype Mark = Mark(services: seq<string>, before: set<string>)

  datatype Verdict = Good | Over | Failed

  /** A line of `stages`, with the window it was measured over, the baseline it was charged above, and how
      many samples there were to measure it by. */
  datatype Row = Row(
    stage: string, began: real, ended: real, budget: Option<real>, lowest: int, peakKb: int, sharedKb: int,
    after: int, verdict: Verdict, seen: nat)

  /** The files under `.gate`, and the containers of the compose project, each with its service. */
  datatype State = State(
    run: Option<Run>, current: Option<Current>, dropping: Option<seq<string>>, marked: map<string, Mark>,
    samples: seq<Sample>, rows: seq<Row>, containers: map<string, string>)

  const SHARED_STAGES: set<string> := {"images", "compile"}

  // ---- measuring a stage ----

  function Max(a: int, b: int): int {
    if a >= b then a else b
  }

  predicate InWindow(s: Sample, since: real, until: real) {
    since <= s.when <= until
  }

  /** `samples(since, until)` */
  function Window(samples: seq<Sample>, since: real, until: real): seq<int> {
    if |samples| == 0 then []
    else
      var last := samples[|samples| - 1];
      Window(samples[..|samples| - 1], since, until) + if InWindow(last, since, until) then [last.kb] else []
  }

  /** Python's `min`. */
  function Least(s: seq<int>): (m: int)
    requires |s| > 0
    ensures m in s && forall x :: x in s ==> m <= x
  {
    if |s| == 1 then s[0]
    else
      var m := Least(s[1..]);
      assert forall x :: x in s ==> x == s[0] || x in s[1..];
      if s[0] <= m then s[0] else m
  }

  /** The readings `close` takes, the clock it reads between them, and those `free_marked` takes. */
  datatype Closing = Closing(now: Sample, ended: real, after: Sample)
  datatype Freeing = Freeing(before: Sample, listed: bool, after: Sample)

  predicate IsOver(peakKb: int, budget: Option<real>) {
    budget.Some? && peakKb as real > budget.value
  }

  function BudgetOf(run: Run, stage: string): Option<real> {
    if stage in run.budgets then Some(run.budgets[stage]) else None
  }

  /** The row `close` keeps, `samples` ending with the reading it took. */
  function RowFor(run: Run, current: Current, samples: seq<Sample>, closing: Closing, failed: bool): Row {
    var lowest := Least(Window(samples, current.began, closing.ended) + [closing.now.kb]);
    var peak := Max(0, Max(0, run.startFreeKb - lowest) - run.sharedKb);
    var budget := BudgetOf(run, current.stage);
    Row(current.stage, current.began, closing.ended, budget, lowest, peak, run.sharedKb, closing.after.kb,
        if failed then Failed else if IsOver(peak, budget) then Over else Good, |samples|)
  }

  /** What a shared stage leaves is charged to it alone. */
  function RunAfter(run: Run, stage: string, after: int): Run {
    if stage in SHARED_STAGES then run.(sharedKb := Max(0, run.startFreeKb - after)) else run
  }

  /** `close` */
  function Closed(s: State, run: Run, current: Current, closing: Closing, failed: bool): State {
    var samples := s.samples + [closing.now];
    s.(run := Some(RunAfter(run, current.stage, closing.after.kb)), current := None, dropping := None,
       samples := samples + [closing.after], rows := s.rows + [RowFor(run, current, samples, closing, failed)])
  }

  // ---- containers ----

  /** `service_containers`: none where the listing fails. */
  function Listing(containers: map<string, string>, services: seq<string>, listed: bool): set<string> {
    if listed then set c | c in containers && containers[c] in services else {}
  }

  /** `free_marked` */
  function Freed(s: State, stage: string, freeing: Freeing): State
    requires stage in s.marked
  {
    var mark := s.marked[stage];
    var created := Listing(s.containers, mark.services, freeing.listed) - mark.before;
    s.(marked := s.marked - {stage}, containers := s.containers - created,
       samples := s.samples + [freeing.before, freeing.after])
  }

  // ---- the commands ----

  datatype Step =
    | Begin(stage: string, drops: seq<string>, freeing: Freeing, closing: Closing, reading: Sample, began: real)
    | Drop(before: Sample, after: Sample)
    | Marking(stage: string, services: seq<string>, listed: bool)
    | Release(stage: string, freeing: Freeing)
    | End(stage: string, closing: Closing)
    // Not commands of the gate: its daemon's sample, and what the stage's targets do to containers.
    | Watch(sample: Sample)
    | Targets(containers: map<string, string>)

  /** `abandon`: a stage begun and never ended. */
  function Abandoned(s: State, run: Run, current: Current, freeing: Freeing, closing: Closing): State {
    var released := if current.stage in s.marked then Freed(s, current.stage, freeing) else s;
    Closed(released, run, current, closing, true)
  }

  /** What a command leaves while a run is started: nothing changed where it stops with a message. */
  function Commanded(s: State, run: Run, step: Step): State {
    match step
    case Begin(stage, drops, freeing, closing, reading, began) =>
      var cleared := if s.current.Some? then Abandoned(s, run, s.current.value, freeing, closing) else s;
      cleared.(samples := cleared.samples + [reading], current := Some(Current(stage, began)), dropping := Some(drops))
    case Drop(before, after) => s.(samples := s.samples + [before, after])
    case Marking(stage, services, listed) =>
      s.(marked := s.marked[stage := Mark(services, Listing(s.containers, services, listed))])
    case Release(stage, freeing) => if stage in s.marked then Freed(s, stage, freeing) else s
    case End(stage, closing) =>
      if s.current.Some? && s.current.value.stage == stage
      then Closed(s, run, s.current.value, closing, false) else s
    case Watch(sample) => s.(samples := s.samples + [sample])
    case Targets(containers) => s.(containers := containers)
  }

  /** What a step leaves: a command does nothing where no run is started. */
  function Next(s: State, step: Step): State {
    if s.run.Some? then Commanded(s, s.run.value, step)
    else if step.Watch? then s.(samples := s.samples + [step.sample])
    else if step.Targets? then s.(containers := step.containers)
    else s
  }

  /** What `start` leaves, its run started and the first sample recorded. */
  function Started(budgets: map<string, real>, sample: Sample, containers: map<string, string>): State {
    State(Some(Run(budgets, sample.kb, 0)), None, None, map[], [sample], [], containers)
  }

  /** The gate's files, each command rewriting them in place. */
  class Gate {
    var run: Option<Run>
    var current: Option<Current>
    var dropping: Option<seq<string>>
    var marked: map<string, Mark>
    var samples: seq<Sample>
    var rows: seq<Row>
    var containers: map<string, string>

    constructor (budgets: map<string, real>, sample: Sample, containers: map<string, string>)
      ensures Now() == Started(budgets, sample, containers)
    {
      run, current, dropping, marked := Some(Run(budgets, sample.kb, 0)), None, None, map[];
      samples, rows, this.containers := [sample], [], containers;
    }

    function Now(): State
      reads this
    {
      State(run, current, dropping, marked, samples, rows, containers)
    }

    method SamplesIn(since: real, until: real) returns (out: seq<int>)
      ensures out == Window(samples, since, until)
    {
      out := [];
      for i := 0 to |samples|
        invariant out == Window(samples[..i], since, until)
      {
        assert samples[..i + 1][..i] == samples[..i];
        if since <= samples[i].when <= until {
          out := out + [samples[i].kb];
        }
      }
      assert samples[..|samples|] == samples;
    }

    method Close(closing: Closing, failed: bool) returns (code: int)
      requires run.Some? && current.Some?
      modifies this
      ensures Now() == Closed(old(Now()), old(run).value, old(current).value, closing, failed)
      ensures |rows| > 0 && (code == 0 || code == 1)
      ensures code == 0 <==> rows[|rows| - 1].verdict == Good && old(current).value.stage in old(run).value.budgets
    {
      hide Window, Least;
      var held, stage, began := run.value, current.value.stage, current.value.began;
      samples := samples + [closing.now];
      var seen := |samples|;
      var window := SamplesIn(began, closing.ended);
      var lowest := Least(window + [closing.now.kb]);
      var above := Max(0, held.startFreeKb - lowest);
      var peak := Max(0, above - held.sharedKb);
      var budget := BudgetOf(held, stage);
      var over := budget.Some? && peak as real > budget.value;
      samples := samples + [closing.after];
      var charged := held.sharedKb;
      if stage in SHARED_STAGES {
        run := Some(held.(sharedKb := Max(0, held.startFreeKb - closing.after.kb)));
      }
      var verdict := if failed then Failed else if over then Over else Good;
      rows := rows + [Row(stage, began, closing.ended, budget, lowest, peak, charged, closing.after.kb, verdict, seen)];
      current, dropping := None, None;
      code := if failed || budget.None? || over then 1 else 0;
    }

    method FreeMarked(stage: string, freeing: Freeing)
      requires stage in marked
      modifies this
      ensures Now() == Freed(old(Now()), stage, freeing)
    {
      var entry := marked[stage];
      marked := marked - {stage};
      samples := samples + [freeing.before];
      var created := Listing(containers, entry.services, freeing.listed) - entry.before;
      containers := containers - created;
      samples := samples + [freeing.after];
      assert samples == old(samples) + [freeing.before, freeing.after];
    }

    method BeginStage(stage: string, drops: seq<string>, freeing: Freeing, closing: Closing, reading: Sample,
                      began: real)
      modifies this
      ensures Now() == Next(old(Now()), Begin(stage, drops, freeing, closing, reading, began))
    {
      if run.None? {
        return;
      }
      if current.Some? {
        if current.value.stage in marked {
          FreeMarked(current.value.stage, freeing);
        }
        var _ := Close(closing, true);
      }
      samples := samples + [reading];
      current := Some(Current(stage, began));
      dropping := Some(drops);
    }

    method DropWithin(before: Sample, after: Sample)
      modifies this
      ensures Now() == Next(old(Now()), Drop(before, after))
    {
      if run.None? {
        return;
      }
      samples := samples + [before];
      samples := samples + [after];
      assert samples == old(samples) + [before, after];
    }

    method MarkServices(stage: string, services: seq<string>, listed: bool)
      modifies this
      ensures Now() == Next(old(Now()), Marking(stage, services, listed))
    {
      if run.Some? {
        marked := marked[stage := Mark(services, Listing(containers, services, listed))];
      }
    }

    /** `release`: it stops with a message where the stage marked nothing. */
    method ReleaseStage(stage: string, freeing: Freeing) returns (code: int)
      modifies this
      ensures Now() == Next(old(Now()), Release(stage, freeing))
      ensures code == if old(run).None? || stage in old(marked) then 0 else 1
    {
      if run.None? {
        return 0;
      }
      if stage !in marked {
        return 1;
      }
      FreeMarked(stage, freeing);
      return 0;
    }

    /** `end`: it stops with a message where the stage is not the one open. */
    method EndStage(stage: string, closing: Closing) returns (code: int)
      modifies this
      ensures Now() == Next(old(Now()), End(stage, closing))
      ensures code == 0 || code == 1
      ensures code == 0 <==>
              || old(run).None?
              || (&& old(current).Some? && old(current).value.stage == stage
                  && rows[|rows| - 1].verdict == Good && stage in old(run).value.budgets)
    {
      if run.None? {
        return 0;
      }
      if current.None? || current.value.stage != stage {
        return 1;
      }
      code := Close(closing, false);
    }
  }
}
