/** What the gate keeps over every sequence of its commands. */
module GateRuns {
  import opened Gate
  import opened Wrappers

  /** The state after some steps, one after another. */
  function After(s: State, steps: seq<Step>): State {
    if |steps| == 0 then s else Next(After(s, steps[..|steps| - 1]), steps[|steps| - 1])
  }

  // ---- what closing and freeing leave, field by field ----

  /** A row closed: its stage's window, the least sample in it or the reading taken, how far that is below the
      start past what the shared stages left, and a verdict by the stage's own budget. */
  lemma ClosedRowSays(s: State, run: Run, current: Current, closing: Closing, failed: bool)
    ensures var t := Closed(s, run, current, closing, failed);
            && |t.rows| == |s.rows| + 1 && t.rows[..|s.rows|] == s.rows
            && var row := t.rows[|s.rows|];
               && row.stage == current.stage && row.began == current.began && row.ended == closing.ended
               && row.budget == (if current.stage in run.budgets then Some(run.budgets[current.stage]) else None)
               && row.sharedKb == run.sharedKb && row.after == closing.after.kb
               && row.lowest <= closing.now.kb
               && (row.lowest == closing.now.kb
                   || exists k :: 0 <= k < |s.samples| && s.samples[k].kb == row.lowest
                               && current.began <= s.samples[k].when <= closing.ended)
               && (forall k :: 0 <= k < |s.samples| && current.began <= s.samples[k].when <= closing.ended ==>
                     row.lowest <= s.samples[k].kb)
               && (run.sharedKb >= 0 ==>
                     row.peakKb == if run.startFreeKb - row.lowest >= run.sharedKb
                                   then run.startFreeKb - row.lowest - run.sharedKb else 0)
               && (failed <==> row.verdict == Failed)
               && (!failed && current.stage in run.budgets ==>
                     (row.verdict == Over <==> row.peakKb as real > run.budgets[current.stage]))
               && (!failed && current.stage !in run.budgets ==> row.verdict == Good)
  {
    var samples := s.samples + [closing.now];
    var row := RowFor(run, current, samples, closing, failed);
    LowestSays(s.samples, closing.now, current.began, closing.ended);
    hide Window, Least;
  }

  lemma LowestSays(samples: seq<Sample>, now: Sample, since: real, until: real)
    ensures var lowest := Least(Window(samples + [now], since, until) + [now.kb]);
            && lowest <= now.kb
            && (lowest == now.kb
                || exists k :: 0 <= k < |samples| && samples[k].kb == lowest && since <= samples[k].when <= until)
            && (forall k :: 0 <= k < |samples| && since <= samples[k].when <= until ==> lowest <= samples[k].kb)
  {
    var window := Window(samples + [now], since, until);
    var all := window + [now.kb];
    assert (samples + [now])[..|samples|] == samples;
    assert all[|window|] == now.kb && now.kb in all;
    hide Least;
    var lowest := Least(all);
    InWindowExactly(samples + [now], since, until, lowest);
    forall k | 0 <= k < |samples| && since <= samples[k].when <= until
      ensures lowest <= samples[k].kb
    {
      InWindowExactly(samples + [now], since, until, samples[k].kb);
      assert (samples + [now])[k] == samples[k];
      assert samples[k].kb in all;
    }
  }

  /** And the files besides: no stage open, both readings recorded, the baseline moved by an images or compile
      stage only, and nothing else changed. */
  lemma ClosedFilesSay(s: State, run: Run, current: Current, closing: Closing, failed: bool)
    ensures var t := Closed(s, run, current, closing, failed);
            && t.current == None && t.dropping == None && t.marked == s.marked && t.containers == s.containers
            && t.samples == s.samples + [closing.now, closing.after]
            && t.run.Some? && t.run.value.budgets == run.budgets && t.run.value.startFreeKb == run.startFreeKb
            && t.run.value.sharedKb ==
               if current.stage != "images" && current.stage != "compile" then run.sharedKb
               else if run.startFreeKb >= closing.after.kb then run.startFreeKb - closing.after.kb
               else 0
  {
    hide RowFor;
    assert s.samples + [closing.now] + [closing.after] == s.samples + [closing.now, closing.after];
  }

  /** What a stage marked freed: a container goes exactly where its service was marked, it was not there at the
      mark, and the listing succeeds; the mark goes, and both readings are recorded. */
  lemma FreedSays(s: State, stage: string, freeing: Freeing, c: string)
    requires stage in s.marked
    ensures var t, mark := Freed(s, stage, freeing), s.marked[stage];
            && (c in t.containers <==>
                  c in s.containers && !(freeing.listed && s.containers[c] in mark.services && c !in mark.before))
            && (c in t.containers ==> t.containers[c] == s.containers[c])
            && t.marked == map k | k in s.marked && k != stage :: s.marked[k]
    ensures var t := Freed(s, stage, freeing);
            && t.samples == s.samples + [freeing.before, freeing.after]
            && t.run == s.run && t.current == s.current && t.dropping == s.dropping && t.rows == s.rows
  {
  }

  /** A stage marked keeps its services and the containers they have, none where the listing fails, in place of
      any mark before; nothing else changes. */
  lemma MarkedSays(s: State, stage: string, services: seq<string>, listed: bool)
    requires s.run.Some?
    ensures var t := Next(s, Marking(stage, services, listed));
            && stage in t.marked && t.marked[stage].services == services
            && (forall c :: c in t.marked[stage].before <==> listed && c in s.containers && s.containers[c] in services)
            && t == s.(marked := s.marked[stage := t.marked[stage]])
  {
  }

  /** A stage begun: the one open abandoned, closed as failed once what it marked is freed; then a reading
      recorded, and the stage open with what its end would drop. */
  lemma BegunSays(s: State, stage: string, drops: seq<string>, freeing: Freeing, closing: Closing,
                  reading: Sample, began: real)
    requires s.run.Some?
    ensures var t := Next(s, Begin(stage, drops, freeing, closing, reading, began));
            var freed := if s.current.Some? && s.current.value.stage in s.marked
                         then Freed(s, s.current.value.stage, freeing) else s;
            var cleared := if s.current.Some? then Closed(freed, s.run.value, s.current.value, closing, true) else s;
            && t.current == Some(Current(stage, began)) && t.dropping == Some(drops)
            && t.samples == cleared.samples + [reading] && t.rows == cleared.rows && t.run == cleared.run
            && t.marked == cleared.marked && t.containers == cleared.containers
  {
    hide Closed, Freed;
  }

  /** The other steps: two readings recorded within a stage; what a stage marked freed, if it marked anything;
      the open stage closed, if it is the one named, and not as failed; a sample recorded; containers changed. */
  lemma OtherStepsSay(s: State, step: Step)
    requires s.run.Some? && !step.Begin? && !step.Marking?
    ensures var t := Next(s, step);
            match step
            case Drop(before, after) => t == s.(samples := s.samples + [before, after])
            case Release(stage, freeing) => if stage in s.marked then t == Freed(s, stage, freeing) else t == s
            case End(stage, closing) =>
              if Open(s) == [stage] then t == Closed(s, s.run.value, s.current.value, closing, false) else t == s
            case Watch(sample) => t == s.(samples := s.samples + [sample])
            case Targets(containers) => t == s.(containers := containers)
            case _ => true
  {
    hide Closed, Freed;
  }

  /** Without a run started, a command does nothing. */
  lemma UnstartedSays(s: State, step: Step)
    requires s.run.None? && !step.Watch? && !step.Targets?
    ensures Next(s, step) == s
  {
  }

  // ---- stages begun and rows kept ----

  function Stages(rows: seq<Row>): (stages: seq<string>)
    ensures |stages| == |rows|
  {
    seq(|rows|, i requires 0 <= i < |rows| => rows[i].stage)
  }

  /** The stages begun, in order. */
  function Begun(steps: seq<Step>): seq<string> {
    if |steps| == 0 then []
    else
      var last := steps[|steps| - 1];
      Begun(steps[..|steps| - 1]) + if last.Begin? then [last.stage] else []
  }

  function Open(s: State): seq<string> {
    if s.current.Some? then [s.current.value.stage] else []
  }

  predicate Closes(s: State, step: Step) {
    s.current.Some? && (step.Begin? || (step.End? && step.stage == s.current.value.stage))
  }

  /** For each row kept, whether a `begin` closed it. */
  function ClosedByBegin(s: State, steps: seq<Step>): seq<bool> {
    if |steps| == 0 then []
    else
      var before, last := steps[..|steps| - 1], steps[|steps| - 1];
      ClosedByBegin(s, before) + if Closes(After(s, before), last) then [last.Begin?] else []
  }

  /** One step: a row is kept exactly when the open stage is closed, and begun stages open. */
  lemma StepRows(s: State, step: Step)
    requires s.run.Some?
    ensures var t := Next(s, step);
            && t.run.Some? && t.run.value.startFreeKb == s.run.value.startFreeKb
            && t.run.value.budgets == s.run.value.budgets
            && (if Closes(s, step) then
                  |t.rows| == |s.rows| + 1 && t.rows[..|s.rows|] == s.rows
                  && t.rows[|s.rows|].stage == s.current.value.stage
                  && (t.rows[|s.rows|].verdict == Failed <==> step.Begin?)
                else t.rows == s.rows)
            && (step.Begin? ==> t.current.Some? && t.current.value.stage == step.stage)
            && (!step.Begin? ==> t.current == if Closes(s, step) then None else s.current)
  {
    hide Window, Listing, IsOver, Least;
  }

  /** Over every sequence of steps: the stages of the rows kept, then the one open, are the stages begun in
      the order they began; so the rows are as many as the stages begun less the one open. */
  lemma {:induction false} RowsAreStagesBegun(s: State, steps: seq<Step>)
    requires s.run.Some? && s.current.None? && s.rows == []
    ensures After(s, steps).run.Some?
    ensures After(s, steps).run.value.startFreeKb == s.run.value.startFreeKb
    ensures After(s, steps).run.value.budgets == s.run.value.budgets
    ensures Stages(After(s, steps).rows) + Open(After(s, steps)) == Begun(steps)
  {
    hide Next;
    if |steps| > 0 {
      var before, last := After(s, steps[..|steps| - 1]), steps[|steps| - 1];
      RowsAreStagesBegun(s, steps[..|steps| - 1]);
      StepRows(before, last);
      var t := Next(before, last);
      if Closes(before, last) {
        assert Stages(t.rows) == Stages(before.rows) + Open(before);
      }
    }
  }

  /** A row is failed exactly when the next stage's `begin` closed it. */
  lemma {:induction false} FailedExactlyWhenBegun(s: State, steps: seq<Step>)
    requires s.run.Some? && s.current.None? && s.rows == []
    ensures |After(s, steps).rows| == |ClosedByBegin(s, steps)|
    ensures forall i :: 0 <= i < |After(s, steps).rows| ==>
              (After(s, steps).rows[i].verdict == Failed <==> ClosedByBegin(s, steps)[i])
  {
    hide Next;
    if |steps| > 0 {
      var before, last := After(s, steps[..|steps| - 1]), steps[|steps| - 1];
      FailedExactlyWhenBegun(s, steps[..|steps| - 1]);
      RowsAreStagesBegun(s, steps[..|steps| - 1]);
      StepRows(before, last);
      var rows := Next(before, last).rows;
      assert forall i :: 0 <= i < |before.rows| ==> rows[i] == rows[..|before.rows|][i];
    }
  }

  lemma StepDropping(s: State, step: Step)
    requires s.current.Some? <==> s.dropping.Some?
    ensures Next(s, step).current.Some? <==> Next(s, step).dropping.Some?
  {
    hide Window, Listing, IsOver, Least, RowFor;
  }

  /** The open stage's record and its drops' are there together or not at all. */
  lemma {:induction false} OpenWithItsDrops(s: State, steps: seq<Step>)
    requires s.current.Some? <==> s.dropping.Some?
    ensures After(s, steps).current.Some? <==> After(s, steps).dropping.Some?
  {
    hide Next;
    if |steps| > 0 {
      OpenWithItsDrops(s, steps[..|steps| - 1]);
      StepDropping(After(s, steps[..|steps| - 1]), steps[|steps| - 1]);
    }
  }

  // ---- the containers a release removes ----

  /** A step that neither marks a stage nor frees what it marked. */
  predicate LeavesMark(s: State, step: Step, stage: string) {
    && !(step.Marking? && step.stage == stage)
    && !(step.Release? && step.stage == stage)
    && !(step.Begin? && Open(s) == [stage])
  }

  predicate LeaveMark(s: State, steps: seq<Step>, stage: string) {
    |steps| == 0 ||
    (LeaveMark(s, steps[..|steps| - 1], stage) && LeavesMark(After(s, steps[..|steps| - 1]), steps[|steps| - 1], stage))
  }

  lemma StepLeavesMark(s: State, step: Step, stage: string)
    requires LeavesMark(s, step, stage) && stage in s.marked
    ensures stage in Next(s, step).marked && Next(s, step).marked[stage] == s.marked[stage]
    ensures s.run.Some? ==> Next(s, step).run.Some?
  {
    hide Window, Listing, IsOver, Least, RowFor;
  }

  lemma {:induction false} MarkStays(s: State, steps: seq<Step>, stage: string)
    requires LeaveMark(s, steps, stage) && stage in s.marked && s.run.Some?
    ensures stage in After(s, steps).marked && After(s, steps).marked[stage] == s.marked[stage]
    ensures After(s, steps).run.Some?
  {
    hide Next, LeavesMark;
    if |steps| > 0 {
      MarkStays(s, steps[..|steps| - 1], stage);
      StepLeavesMark(After(s, steps[..|steps| - 1]), steps[|steps| - 1], stage);
    }
  }

  /** The step that frees what `stage` marked: its release, or the next `begin` where it is left open. */
  predicate FreesMark(s: State, step: Step, stage: string) {
    (step.Release? && step.stage == stage) || (step.Begin? && Open(s) == [stage])
  }

  function FreeingOf(step: Step): Freeing
    requires step.Release? || step.Begin?
  {
    step.freeing
  }

  /** Containers of some services. */
  function OfServices(containers: map<string, string>, services: seq<string>): set<string> {
    set c | c in containers && containers[c] in services
  }

  lemma FreedContainers(s: State, step: Step, stage: string)
    requires s.run.Some? && stage in s.marked && FreesMark(s, step, stage)
    ensures var listed := Listing(s.containers, s.marked[stage].services, FreeingOf(step).listed);
            Next(s, step).containers == s.containers - (listed - s.marked[stage].before)
  {
    hide Window, IsOver, Least, RowFor, Listing;
  }

  /** Where both listings succeed, a release or an abandonment removes exactly the marked services'
      containers that were not there at the stage's latest mark. */
  lemma FreesExactlyTheStagesOwn(s: State, stage: string, services: seq<string>, between: seq<Step>, frees: Step)
    requires s.run.Some?
    requires var marked := Next(s, Marking(stage, services, true));
             LeaveMark(marked, between, stage) && FreesMark(After(marked, between), frees, stage)
    requires FreeingOf(frees).listed
    ensures var at := After(Next(s, Marking(stage, services, true)), between);
            Next(at, frees).containers ==
            at.containers - (OfServices(at.containers, services) - OfServices(s.containers, services))
  {
    hide Next, After, LeaveMark;
    MarkedAs(s, stage, services, true);
    var marked := Next(s, Marking(stage, services, true));
    MarkStays(marked, between, stage);
    FreedContainers(After(marked, between), frees, stage);
  }

  lemma MarkedAs(s: State, stage: string, services: seq<string>, listed: bool)
    requires s.run.Some?
    ensures var t := Next(s, Marking(stage, services, listed));
            && t.run.Some? && stage in t.marked
            && t.marked[stage] == Mark(services, Listing(s.containers, services, listed))
  {
    hide Listing;
  }

  /** A container of a marked service that was there at the mark, and is there still, is removed exactly
      when the mark's listing failed and the release's did not: a failed listing is kept as none. */
  lemma OlderRemovedExactly(s: State, stage: string, services: seq<string>, listed: bool, between: seq<Step>,
                            frees: Step, c: string)
    requires s.run.Some?
    requires var marked := Next(s, Marking(stage, services, listed));
             LeaveMark(marked, between, stage) && FreesMark(After(marked, between), frees, stage)
    requires c in OfServices(s.containers, services)
    requires c in OfServices(After(Next(s, Marking(stage, services, listed)), between).containers, services)
    ensures c !in Next(After(Next(s, Marking(stage, services, listed)), between), frees).containers
       <==> !listed && FreeingOf(frees).listed
  {
    hide Next, After, LeaveMark;
    MarkedAs(s, stage, services, listed);
    var marked := Next(s, Marking(stage, services, listed));
    MarkStays(marked, between, stage);
    FreedContainers(After(marked, between), frees, stage);
  }

  /** A database that was up before the stage, its listing at the mark failed: removed with the stage's own. */
  lemma FailedListingLosesOlder()
    ensures var s := Started(map[], Sample(0.0, 100), map["c" := "database"]);
            var marked := Next(s, Marking("a", ["database"], false));
            var released := Next(marked, Release("a", Freeing(Sample(1.0, 100), true, Sample(2.0, 100))));
            marked.containers == map["c" := "database"] && released.containers == map[]
  {
    var s := Started(map[], Sample(0.0, 100), map["c" := "database"]);
    MarkedAs(s, "a", ["database"], false);
    var marked := Next(s, Marking("a", ["database"], false));
    assert "database" in ["database"];
    assert Listing(marked.containers, ["database"], true) == {"c"};
  }

  // ---- the disk bound ----

  /** The times a step reads, in the order it reads them. */
  function Times(step: Step): seq<real> {
    match step
    case Begin(_, _, freeing, closing, reading, began) =>
      [freeing.before.when, freeing.after.when] + [closing.now.when, closing.ended, closing.after.when]
      + [reading.when, began]
    case Drop(before, after) => [before.when, after.when]
    case Marking(_, _, _) => []
    case Release(_, freeing) => [freeing.before.when, freeing.after.when]
    case End(_, closing) => [closing.now.when, closing.ended, closing.after.when]
    case Watch(sample) => [sample.when]
    case Targets(_) => []
  }

  predicate Later(clock: real, times: seq<real>) {
    (forall i :: 0 <= i < |times| ==> clock < times[i]) && forall i, j :: 0 <= i < j < |times| ==> times[i] < times[j]
  }

  function ClockAfter(clock: real, times: seq<real>): real {
    if |times| == 0 then clock else times[|times| - 1]
  }

  function Clock(start: real, steps: seq<Step>): real {
    if |steps| == 0 then start else ClockAfter(Clock(start, steps[..|steps| - 1]), Times(steps[|steps| - 1]))
  }

  /** Every time read is later than the one read before it. */
  predicate Timely(start: real, steps: seq<Step>) {
    |steps| == 0 ||
    (Timely(start, steps[..|steps| - 1]) && Later(Clock(start, steps[..|steps| - 1]), Times(steps[|steps| - 1])))
  }

  lemma {:induction false} InWindowExactly(samples: seq<Sample>, since: real, until: real, kb: int)
    ensures kb in Window(samples, since, until)
       <==> exists i :: 0 <= i < |samples| && since <= samples[i].when <= until && samples[i].kb == kb
  {
    if |samples| > 0 {
      var before := samples[..|samples| - 1];
      InWindowExactly(before, since, until, kb);
      assert forall i :: 0 <= i < |before| ==> before[i] == samples[i];
    }
  }

  /** What a row charges its stage: the most it fell below the start, above what the shared stages left. */
  function Charged(startKb: int, row: Row): int {
    Max(0, Max(0, startKb - row.lowest) - row.sharedKb)
  }

  /** A row measured by the first `seen` samples. */
  ghost predicate Measured(startKb: int, samples: seq<Sample>, row: Row) {
    && row.seen <= |samples|
    && row.peakKb == Charged(startKb, row)
    && (row.verdict == Failed || row.verdict == if IsOver(row.peakKb, row.budget) then Over else Good)
    && row.lowest in Window(samples[..row.seen], row.began, row.ended)
    && (forall kb :: kb in Window(samples[..row.seen], row.began, row.ended) ==> row.lowest <= kb)
    && forall i :: row.seen <= i < |samples| ==> row.ended < samples[i].when
  }

  ghost predicate Sound(startKb: int, s: State, clock: real) {
    && s.run.Some? && s.run.value.startFreeKb == startKb
    && (forall i :: 0 <= i < |s.samples| ==> s.samples[i].when <= clock)
    && (s.current.Some? ==> s.current.value.began <= clock)
    && (forall r :: r in s.rows ==> r.ended <= clock && Measured(startKb, s.samples, r))
  }

  /** Samples recorded later than a row's window leave it measured. */
  lemma MeasuredOn(startKb: int, samples: seq<Sample>, more: seq<Sample>, row: Row)
    requires Measured(startKb, samples, row)
    requires forall i :: 0 <= i < |more| ==> row.ended < more[i].when
    ensures Measured(startKb, samples + more, row)
  {
    assert (samples + more)[..row.seen] == samples[..row.seen];
  }

  /** Recording later samples, whatever else a step does to the files it keeps, leaves the rows measured. */
  lemma SoundOn(startKb: int, s: State, clock: real, more: seq<Sample>, t: State, later: real)
    requires Sound(startKb, s, clock) && t.samples == s.samples + more && t.rows == s.rows
    requires forall i :: 0 <= i < |more| ==> clock < more[i].when <= later
    requires clock <= later && t.run.Some? && t.run.value.startFreeKb == startKb
    requires t.current.Some? ==> t.current.value.began <= later
    ensures Sound(startKb, t, later)
  {
    hide Measured;
    forall r | r in t.rows
      ensures r.ended <= later && Measured(startKb, t.samples, r)
    {
      MeasuredOn(startKb, s.samples, more, r);
    }
  }

  lemma NewRowMeasured(run: Run, current: Current, samples: seq<Sample>, closing: Closing, failed: bool)
    requires |samples| > 0 && samples[|samples| - 1] == closing.now
    requires current.began <= closing.now.when <= closing.ended < closing.after.when
    ensures Measured(run.startFreeKb, samples + [closing.after], RowFor(run, current, samples, closing, failed))
  {
    var all := samples + [closing.after];
    assert all[..|samples|] == samples;
    var window := Window(samples, current.began, closing.ended);
    InWindowExactly(samples, current.began, closing.ended, closing.now.kb);
    assert samples[|samples| - 1].kb == closing.now.kb;
    hide Window, Least;
    var lowest := Least(window + [closing.now.kb]);
    assert lowest in window + [closing.now.kb];
    forall kb | kb in window
      ensures lowest <= kb
    {
      assert kb in window + [closing.now.kb];
    }
  }

  lemma ClosedSound(startKb: int, s: State, clock: real, closing: Closing, failed: bool)
    requires Sound(startKb, s, clock) && s.current.Some?
    requires clock < closing.now.when < closing.ended < closing.after.when
    ensures Sound(startKb, Closed(s, s.run.value, s.current.value, closing, failed), closing.after.when)
  {
    hide Measured, Window, Least;
    var run, current := s.run.value, s.current.value;
    var t := Closed(s, run, current, closing, failed);
    var samples := s.samples + [closing.now];
    var row := RowFor(run, current, samples, closing, failed);
    NewRowMeasured(run, current, samples, closing, failed);
    assert t.samples == s.samples + [closing.now, closing.after];
    forall r | r in t.rows
      ensures r.ended <= closing.after.when && Measured(startKb, t.samples, r)
    {
      if r in s.rows {
        MeasuredOn(startKb, s.samples, [closing.now, closing.after], r);
      } else {
        assert r == row;
      }
    }
  }

  lemma AbandonedSound(startKb: int, s: State, clock: real, freeing: Freeing, closing: Closing)
    requires Sound(startKb, s, clock) && s.current.Some?
    requires Later(clock, [freeing.before.when, freeing.after.when,
                           closing.now.when, closing.ended, closing.after.when])
    ensures Sound(startKb, Abandoned(s, s.run.value, s.current.value, freeing, closing), closing.after.when)
  {
    hide Measured, Sound, Closed;
    var times := [freeing.before.when, freeing.after.when, closing.now.when, closing.ended, closing.after.when];
    assert times[0] < times[1] < times[2] < times[3] < times[4];
    if s.current.value.stage in s.marked {
      var freed := Freed(s, s.current.value.stage, freeing);
      FreedSound(startKb, s, clock, s.current.value.stage, freeing);
      ClosedSound(startKb, freed, freeing.after.when, closing, true);
    } else {
      ClosedSound(startKb, s, clock, closing, true);
    }
  }

  lemma FreedSound(startKb: int, s: State, clock: real, stage: string, freeing: Freeing)
    requires Sound(startKb, s, clock) && stage in s.marked
    requires clock < freeing.before.when < freeing.after.when
    ensures Sound(startKb, Freed(s, stage, freeing), freeing.after.when)
    ensures Freed(s, stage, freeing).run == s.run && Freed(s, stage, freeing).current == s.current
  {
    hide Measured, Listing;
    SoundOn(startKb, s, clock, [freeing.before, freeing.after], Freed(s, stage, freeing), freeing.after.when);
  }

  lemma BeginSound(startKb: int, s: State, clock: real, step: Step)
    requires Sound(startKb, s, clock) && step.Begin? && Later(clock, Times(step))
    ensures Sound(startKb, Next(s, step), step.began)
  {
    hide Measured, Abandoned;
    var times := Times(step);
    assert clock < times[0] < times[1] < times[2] < times[3] < times[4] < times[5] < times[6];
    if s.current.Some? {
      AbandonedSound(startKb, s, clock, step.freeing, step.closing);
      var cleared := Abandoned(s, s.run.value, s.current.value, step.freeing, step.closing);
      SoundOn(startKb, cleared, step.closing.after.when, [step.reading], Next(s, step), step.began);
    } else {
      SoundOn(startKb, s, clock, [step.reading], Next(s, step), step.began);
    }
  }

  lemma StepSound(startKb: int, s: State, clock: real, step: Step)
    requires Sound(startKb, s, clock) && Later(clock, Times(step))
    ensures Sound(startKb, Next(s, step), ClockAfter(clock, Times(step)))
  {
    hide Measured, Listing, Closed;
    match step
    case Begin(_, _, _, _, _, _) => BeginSound(startKb, s, clock, step);
    case Drop(before, after) =>
      assert Times(step)[0] < Times(step)[1];
      SoundOn(startKb, s, clock, [before, after], Next(s, step), after.when);
    case Release(stage, freeing) =>
      assert Times(step)[0] < Times(step)[1];
      if stage in s.marked {
        FreedSound(startKb, s, clock, stage, freeing);
      } else {
        NothingRecorded(startKb, s, clock, s, freeing.after.when);
      }
    case End(stage, closing) =>
      assert Times(step)[0] < Times(step)[1] < Times(step)[2];
      if Closes(s, step) {
        ClosedSound(startKb, s, clock, closing, false);
      } else {
        NothingRecorded(startKb, s, clock, s, closing.after.when);
      }
    case Watch(sample) =>
      assert clock < Times(step)[0];
      SoundOn(startKb, s, clock, [sample], Next(s, step), sample.when);
    case Marking(_, _, _) => NothingRecorded(startKb, s, clock, Next(s, step), clock);
    case Targets(_) => NothingRecorded(startKb, s, clock, Next(s, step), clock);
  }

  lemma NothingRecorded(startKb: int, s: State, clock: real, t: State, later: real)
    requires Sound(startKb, s, clock) && clock <= later
    requires t.run == s.run && t.current == s.current && t.samples == s.samples && t.rows == s.rows
    ensures Sound(startKb, t, later)
  {
    hide Measured;
    assert t.samples == s.samples + [];
    SoundOn(startKb, s, clock, [], t, later);
  }

  lemma {:induction false} RunSound(startKb: int, s: State, clock: real, steps: seq<Step>)
    requires Sound(startKb, s, clock) && Timely(clock, steps)
    ensures Sound(startKb, After(s, steps), Clock(clock, steps))
  {
    hide Next, Sound, Later;
    if |steps| > 0 {
      RunSound(startKb, s, clock, steps[..|steps| - 1]);
      StepSound(startKb, After(s, steps[..|steps| - 1]), Clock(clock, steps[..|steps| - 1]), steps[|steps| - 1]);
    }
  }

  lemma ChargeAgainstBudget(startKb: int, row: Row)
    requires row.peakKb == Charged(startKb, row) && row.budget.Some? && row.sharedKb >= 0
    ensures !IsOver(row.peakKb, row.budget)
       <==> row.budget.value >= 0.0 && row.lowest as real >= startKb as real - row.sharedKb as real - row.budget.value
  {
    assert row.peakKb as real == if row.peakKb == 0 then 0.0 else (startKb - row.lowest - row.sharedKb) as real;
  }

  /** No sample of a window below a number of KB. */
  ghost predicate WindowNeverBelow(samples: seq<Sample>, since: real, until: real, kb: real) {
    forall i :: 0 <= i < |samples| && since <= samples[i].when <= until ==> samples[i].kb as real >= kb
  }

  /** The least sample of a row's window, over the whole log. */
  lemma WindowOfWholeLog(startKb: int, samples: seq<Sample>, row: Row)
    requires Measured(startKb, samples, row)
    ensures forall i :: 0 <= i < |samples| && InWindow(samples[i], row.began, row.ended) ==> row.lowest <= samples[i].kb
    ensures exists i :: 0 <= i < |samples| && InWindow(samples[i], row.began, row.ended) && samples[i].kb == row.lowest
  {
    var seen := samples[..row.seen];
    hide Window;
    InWindowExactly(seen, row.began, row.ended, row.lowest);
    var j :| 0 <= j < |seen| && InWindow(seen[j], row.began, row.ended) && seen[j].kb == row.lowest;
    assert samples[j] == seen[j];
    forall i | 0 <= i < |samples| && InWindow(samples[i], row.began, row.ended)
      ensures row.lowest <= samples[i].kb
    {
      InWindowExactly(seen, row.began, row.ended, samples[i].kb);
      assert i < row.seen;
      assert seen[i] == samples[i];
    }
  }

  // ---- the shared baseline ----

  /** What the shared stages among `rows` left: what the last of them left on the disk, once freed. */
  function SharedLeft(startKb: int, rows: seq<Row>): int {
    if |rows| == 0 then 0
    else if rows[|rows| - 1].stage in SHARED_STAGES then Max(0, startKb - rows[|rows| - 1].after)
    else SharedLeft(startKb, rows[..|rows| - 1])
  }

  lemma {:induction false} SharedLeftNatural(startKb: int, rows: seq<Row>)
    ensures SharedLeft(startKb, rows) >= 0
  {
    if |rows| > 0 {
      SharedLeftNatural(startKb, rows[..|rows| - 1]);
    }
  }

  ghost predicate SharedByRows(startKb: int, s: State) {
    && s.run.Some? && s.run.value.startFreeKb == startKb && s.run.value.sharedKb == SharedLeft(startKb, s.rows)
    && forall i :: 0 <= i < |s.rows| ==> s.rows[i].sharedKb == SharedLeft(startKb, s.rows[..i])
  }

  lemma RowFacts(run: Run, current: Current, samples: seq<Sample>, closing: Closing, failed: bool)
    ensures var row := RowFor(run, current, samples, closing, failed);
            row.stage == current.stage && row.after == closing.after.kb && row.sharedKb == run.sharedKb
  {
  }

  lemma ClosedShared(startKb: int, s: State, current: Current, closing: Closing, failed: bool)
    requires SharedByRows(startKb, s)
    ensures SharedByRows(startKb, Closed(s, s.run.value, current, closing, failed))
  {
    var run, samples := s.run.value, s.samples + [closing.now];
    var t := Closed(s, run, current, closing, failed);
    RowFacts(run, current, samples, closing, failed);
    hide RowFor;
    assert t.rows == s.rows + [RowFor(run, current, samples, closing, failed)];
    assert t.rows[..|t.rows| - 1] == s.rows;
    forall i | 0 <= i < |t.rows|
      ensures t.rows[i].sharedKb == SharedLeft(startKb, t.rows[..i])
    {
      if i < |s.rows| {
        assert t.rows[..i] == s.rows[..i];
      } else {
        assert t.rows[..i] == s.rows;
      }
    }
  }

  lemma SharedSame(startKb: int, s: State, t: State)
    requires SharedByRows(startKb, s) && t.rows == s.rows && t.run == s.run
    ensures SharedByRows(startKb, t)
  {
  }

  lemma StepShared(startKb: int, s: State, step: Step)
    requires SharedByRows(startKb, s)
    ensures SharedByRows(startKb, Next(s, step))
  {
    hide SharedByRows, Closed, Listing;
    RunStarted(startKb, s);
    if Closes(s, step) {
      var current := s.current.value;
      match step
      case End(_, closing) => ClosedShared(startKb, s, current, closing, false);
      case Begin(_, _, freeing, closing, _, _) =>
        var released := if current.stage in s.marked then Freed(s, current.stage, freeing) else s;
        SharedSame(startKb, s, released);
        ClosedShared(startKb, released, current, closing, true);
        SharedSame(startKb, Closed(released, s.run.value, current, closing, true), Next(s, step));
    } else {
      SharedSame(startKb, s, Next(s, step));
    }
  }

  lemma RunStarted(startKb: int, s: State)
    requires SharedByRows(startKb, s)
    ensures s.run.Some?
  {
  }

  lemma {:induction false} RowsShared(s: State, steps: seq<Step>)
    requires s.run.Some? && s.run.value.sharedKb == 0 && s.rows == []
    ensures SharedByRows(s.run.value.startFreeKb, After(s, steps))
  {
    hide Next;
    if |steps| > 0 {
      RowsShared(s, steps[..|steps| - 1]);
      StepShared(s.run.value.startFreeKb, After(s, steps[..|steps| - 1]), steps[|steps| - 1]);
    }
  }

  /** Over every run, each row is charged above exactly what the shared stages before it had left. */
  lemma ChargedAboveTheSharedStages(budgets: map<string, real>, first: Sample, containers: map<string, string>,
                                    steps: seq<Step>, i: nat)
    requires i < |After(Started(budgets, first, containers), steps).rows|
    ensures var rows := After(Started(budgets, first, containers), steps).rows;
            rows[i].sharedKb == SharedLeft(first.kb, rows[..i])
  {
    RowsShared(Started(budgets, first, containers), steps);
  }

  /** That is what the last of the images and compile stages left below the start once freed, or nothing
      before the first. */
  lemma {:induction false} SharedLeftExactly(startKb: int, rows: seq<Row>, k: nat)
    ensures (forall r :: r in rows ==> r.stage != "images" && r.stage != "compile") ==> SharedLeft(startKb, rows) == 0
    ensures k < |rows| && (rows[k].stage == "images" || rows[k].stage == "compile")
            && (forall j :: k < j < |rows| ==> rows[j].stage != "images" && rows[j].stage != "compile") ==>
              SharedLeft(startKb, rows) == if startKb >= rows[k].after then startKb - rows[k].after else 0
  {
    if |rows| > 0 && k != |rows| - 1 {
      SharedLeftExactly(startKb, rows[..|rows| - 1], k);
    } else if |rows| > 0 {
      SharedLeftExactly(startKb, rows[..|rows| - 1], |rows|);
    }
  }

  // ---- each row's budget is its stage's ----

  ghost predicate BudgetedByStage(budgets: map<string, real>, s: State) {
    && s.run.Some? && s.run.value.budgets == budgets
    && forall r :: r in s.rows ==> r.budget == if r.stage in budgets then Some(budgets[r.stage]) else None
  }

  lemma ClosedBudgeted(budgets: map<string, real>, s: State, current: Current, closing: Closing, failed: bool)
    requires BudgetedByStage(budgets, s)
    ensures BudgetedByStage(budgets, Closed(s, s.run.value, current, closing, failed))
  {
    hide Window, Least, IsOver;
  }

  lemma BudgetedSame(budgets: map<string, real>, s: State, t: State)
    requires BudgetedByStage(budgets, s) && t.rows == s.rows && t.run == s.run
    ensures BudgetedByStage(budgets, t)
  {
  }

  lemma StepBudgeted(budgets: map<string, real>, s: State, step: Step)
    requires BudgetedByStage(budgets, s)
    ensures BudgetedByStage(budgets, Next(s, step))
  {
    hide Closed, Listing;
    assert s.run.Some?;
    hide BudgetedByStage;
    if Closes(s, step) {
      var current := s.current.value;
      match step
      case End(_, closing) => ClosedBudgeted(budgets, s, current, closing, false);
      case Begin(_, _, freeing, closing, _, _) =>
        var released := if current.stage in s.marked then Freed(s, current.stage, freeing) else s;
        BudgetedSame(budgets, s, released);
        ClosedBudgeted(budgets, released, current, closing, true);
        BudgetedSame(budgets, Closed(released, s.run.value, current, closing, true), Next(s, step));
    } else {
      BudgetedSame(budgets, s, Next(s, step));
    }
  }

  lemma {:induction false} RowsBudgeted(budgets: map<string, real>, s: State, steps: seq<Step>)
    requires BudgetedByStage(budgets, s)
    ensures BudgetedByStage(budgets, After(s, steps))
  {
    hide Next, BudgetedByStage;
    if |steps| > 0 {
      RowsBudgeted(budgets, s, steps[..|steps| - 1]);
      StepBudgeted(budgets, After(s, steps[..|steps| - 1]), steps[|steps| - 1]);
    }
  }

  /** Over every run, each row's budget is the one its stage was started with, or none. */
  lemma BudgetIsTheStages(budgets: map<string, real>, first: Sample, containers: map<string, string>,
                          steps: seq<Step>, row: Row)
    requires row in After(Started(budgets, first, containers), steps).rows
    ensures row.budget == if row.stage in budgets then Some(budgets[row.stage]) else None
  {
    RowsBudgeted(budgets, Started(budgets, first, containers), steps);
    hide After;
  }

  /** Over every run, on samples of its whole log: a stage that ended is found good exactly when it has no
      budget, or a budget no less than nothing and no sample taken in its window below the start less what the
      shared stages had left less its budget; otherwise it is over. */
  lemma GoodExactlyWithinBudget(budgets: map<string, real>, first: Sample, containers: map<string, string>,
                                steps: seq<Step>, i: nat)
    requires Timely(first.when, steps)
    requires var s := After(Started(budgets, first, containers), steps);
             i < |s.rows| && s.rows[i].verdict != Failed
    ensures var s := After(Started(budgets, first, containers), steps);
            var row := s.rows[i];
            && (row.verdict == Good || row.verdict == Over)
            && (row.stage !in budgets ==> row.verdict == Good)
            && (row.stage in budgets ==>
                  var least := first.kb as real - SharedLeft(first.kb, s.rows[..i]) as real - budgets[row.stage];
                  row.verdict == Good <==>
                  budgets[row.stage] >= 0.0 && WindowNeverBelow(s.samples, row.began, row.ended, least))
  {
    hide After, Window, SharedLeft, WindowNeverBelow, Measured, Timely;
    var start := Started(budgets, first, containers);
    StartSound(first.kb, start, first.when);
    RunSound(first.kb, start, first.when, steps);
    var s := After(start, steps);
    var row := s.rows[i];
    BudgetIsTheStages(budgets, first, containers, steps, row);
    ChargedAboveTheSharedStages(budgets, first, containers, steps, i);
    SharedLeftNatural(first.kb, s.rows[..i]);
    RowWithin(first.kb, s.samples, row);
  }

  lemma StartSound(startKb: int, s: State, clock: real)
    requires s.run.Some? && s.run.value.startFreeKb == startKb && s.rows == [] && s.current.None?
    requires |s.samples| == 1 && s.samples[0].when == clock
    ensures Sound(startKb, s, clock)
  {
  }

  lemma RowWithin(startKb: int, samples: seq<Sample>, row: Row)
    requires Measured(startKb, samples, row) && row.sharedKb >= 0 && row.verdict != Failed
    ensures row.verdict == Good || row.verdict == Over
    ensures row.budget.None? ==> row.verdict == Good
    ensures row.budget.Some? ==>
              var least := startKb as real - row.sharedKb as real - row.budget.value;
              row.verdict == Good <==>
              row.budget.value >= 0.0 && WindowNeverBelow(samples, row.began, row.ended, least)
  {
    WindowOfWholeLog(startKb, samples, row);
    hide Window, Charged;
    if row.budget.Some? {
      assert row.peakKb == Charged(startKb, row);
      ChargeAgainstBudget(startKb, row);
    }
  }

  // ---- the whole run ----

  predicate AllGood(budgets: map<string, real>, rows: seq<Row>) {
    forall r :: r in rows ==> r.verdict == Good && r.stage in budgets
  }

  /** No row allowed more than `most` below the start: what the shared stages had left, and its own budget. */
  predicate AllowsAtMost(budgets: map<string, real>, startKb: int, rows: seq<Row>, most: real) {
    forall i :: 0 <= i < |rows| && rows[i].stage in budgets ==>
                  SharedLeft(startKb, rows[..i]) as real + budgets[rows[i].stage] <= most
  }

  /** So a run whose rows are all good never went below the start less the most a stage was allowed, at any
      sample taken while a stage was open. */
  lemma GoodRunNeverBelow(budgets: map<string, real>, first: Sample, containers: map<string, string>,
                          steps: seq<Step>, most: real, row: Row, i: nat)
    requires Timely(first.when, steps)
    requires var s := After(Started(budgets, first, containers), steps);
             && AllGood(budgets, s.rows) && AllowsAtMost(budgets, first.kb, s.rows, most)
             && row in s.rows && i < |s.samples| && row.began <= s.samples[i].when <= row.ended
    ensures var s := After(Started(budgets, first, containers), steps);
            s.samples[i].kb as real >= first.kb as real - most
  {
    hide After, Timely, Started, SharedLeft;
    var s := After(Started(budgets, first, containers), steps);
    var k :| 0 <= k < |s.rows| && s.rows[k] == row;
    GoodExactlyWithinBudget(budgets, first, containers, steps, k);
  }

  /** A sample taken while one of the stages was open. */
  ghost predicate InSomeWindow(rows: seq<Row>, s: Sample) {
    exists r :: r in rows && r.began <= s.when <= r.ended
  }

  ghost predicate NeverBelow(samples: seq<Sample>, kb: real) {
    forall i :: 0 <= i < |samples| ==> samples[i].kb as real >= kb
  }

  ghost predicate BetweenNeverBelow(rows: seq<Row>, samples: seq<Sample>, kb: real) {
    forall i :: 0 <= i < |samples| && !InSomeWindow(rows, samples[i]) ==> samples[i].kb as real >= kb
  }

  /** And never at all, exactly when no sample taken between stages went below it. */
  lemma GoodRunNeverBelowExactly(budgets: map<string, real>, first: Sample, containers: map<string, string>,
                                 steps: seq<Step>, most: real)
    requires Timely(first.when, steps)
    requires var s := After(Started(budgets, first, containers), steps);
             AllGood(budgets, s.rows) && AllowsAtMost(budgets, first.kb, s.rows, most)
    ensures var s := After(Started(budgets, first, containers), steps);
            var bound := first.kb as real - most;
            NeverBelow(s.samples, bound) <==> BetweenNeverBelow(s.rows, s.samples, bound)
  {
    hide After, Timely, Started, AllGood, AllowsAtMost;
    var s := After(Started(budgets, first, containers), steps);
    forall i: nat | i < |s.samples| && InSomeWindow(s.rows, s.samples[i])
      ensures s.samples[i].kb as real >= first.kb as real - most
    {
      var row :| row in s.rows && row.began <= s.samples[i].when <= row.ended;
      GoodRunNeverBelow(budgets, first, containers, steps, most, row, i);
    }
  }

  /** A stage allowed none of the 100 KB a run started with, ended good, and then 5 KB free. */
  function BetweenStages(): seq<Step> {
    [Begin("a", [], Freeing(Sample(1.0, 0), true, Sample(2.0, 0)), Closing(Sample(3.0, 0), 4.0, Sample(5.0, 0)),
           Sample(6.0, 100), 7.0),
     End("a", Closing(Sample(8.0, 100), 9.0, Sample(10.0, 100))),
     Watch(Sample(11.0, 5))]
  }

  lemma BetweenStagesTimely()
    ensures Timely(0.0, BetweenStages())
  {
    var steps := BetweenStages();
    assert steps[..2][..1] == steps[..1];
    assert Timely(0.0, steps[..0]);
    assert Timely(0.0, steps[..1]) && Clock(0.0, steps[..1]) == 7.0;
    assert Timely(0.0, steps[..2]) && Clock(0.0, steps[..2]) == 10.0;
  }

  lemma WindowOfThree()
    ensures Window([Sample(0.0, 100), Sample(6.0, 100), Sample(8.0, 100)], 7.0, 9.0) == [100]
    ensures Least([100, 100]) == 100
  {
    var samples := [Sample(0.0, 100), Sample(6.0, 100), Sample(8.0, 100)];
    assert samples[..2][..1] == samples[..1] && samples[..1][..0] == [];
    assert Window(samples[..1], 7.0, 9.0) == [];
    assert Window(samples[..2], 7.0, 9.0) == [];
    assert Least([100, 100]) in [100, 100];
  }

  function RunOfOne(): Run {
    Run(map["a" := 0.0], 100, 0)
  }

  lemma EndOfOne(s: State)
    requires s.run == Some(RunOfOne()) && s.current == Some(Current("a", 7.0)) && s.rows == []
    requires s.samples == [Sample(0.0, 100), Sample(6.0, 100)]
    ensures Next(s, BetweenStages()[1]).rows == [Row("a", 7.0, 9.0, Some(0.0), 100, 0, 0, 100, Good, 3)]
    ensures Next(s, BetweenStages()[1]).run == Some(RunOfOne())
  {
    var closing := Closing(Sample(8.0, 100), 9.0, Sample(10.0, 100));
    WindowOfThree();
    hide Window, Least;
    assert s.samples + [closing.now] == [Sample(0.0, 100), Sample(6.0, 100), Sample(8.0, 100)];
    assert [100] + [100] == [100, 100];
    assert RowFor(RunOfOne(), s.current.value, s.samples + [closing.now], closing, false)
        == Row("a", 7.0, 9.0, Some(0.0), 100, 0, 0, 100, Good, 3);
  }

  lemma AfterThree(s: State, a: Step, b: Step, c: Step)
    ensures After(s, [a, b, c]) == Next(Next(Next(s, a), b), c)
  {
    hide Next;
    assert [a, b, c][..2] == [a, b] && [a, b][..1] == [a] && [a][..0] == [];
    assert After(s, [a]) == Next(s, a);
    assert After(s, [a, b]) == Next(Next(s, a), b);
  }

  /** A sample taken while no stage is open is in no stage's window, and can fall lower. */
  lemma BetweenStagesUnmeasured()
    ensures var s := After(Started(map["a" := 0.0], Sample(0.0, 100), map[]), BetweenStages());
            && Timely(0.0, BetweenStages()) && |s.rows| == 1 && AllGood(map["a" := 0.0], s.rows)
            && AllowsAtMost(map["a" := 0.0], 100, s.rows, 0.0) && Sample(11.0, 5) in s.samples
  {
    BetweenStagesTimely();
    hide Timely, After, RowFor;
    var steps := BetweenStages();
    var s0 := Started(map["a" := 0.0], Sample(0.0, 100), map[]);
    AfterThree(s0, steps[0], steps[1], steps[2]);
    var s1 := Next(s0, steps[0]);
    assert s1.samples == [Sample(0.0, 100), Sample(6.0, 100)];
    EndOfOne(s1);
    var s2 := Next(s1, steps[1]);
    var s3 := Next(s2, steps[2]);
    assert s3.samples[|s3.samples| - 1] == Sample(11.0, 5);
    assert s3.rows == s2.rows;
  }
}
