/** The check that CI and `make ci-local` run the same things (`tools/ci_mirror_check.py`): the targets
    ci-local reaches, and its stages each run by one CI job. Files are given as the parts of their lines the
    check's patterns pick out. */
module CiMirror {
  import opened Wrappers

  // ---- the targets ci-local reaches ----

  /** A rule of the Makefile: a target and its prerequisites. */
  datatype Rule = Rule(target: string, prerequisites: seq<string>)

  /** A target's prerequisites, from every rule that names it, in order. */
  function PrereqsOf(rules: seq<Rule>, target: string): seq<string> {
    if |rules| == 0 then []
    else
      var last := rules[|rules| - 1];
      PrereqsOf(rules[..|rules| - 1], target) + if last.target == target then last.prerequisites else []
  }

  /** Each target a prerequisite of the one before it. */
  predicate Chain(rules: seq<Rule>, path: seq<string>) {
    |path| > 0 && forall i :: 0 <= i < |path| - 1 ==> path[i + 1] in PrereqsOf(rules, path[i])
  }

  ghost predicate Reaches(rules: seq<Rule>, a: string, b: string) {
    exists path :: Chain(rules, path) && path[0] == a && path[|path| - 1] == b
  }

  lemma ReachesSelf(rules: seq<Rule>, a: string)
    ensures Reaches(rules, a, a)
  {
    assert Chain(rules, [a]);
  }

  lemma ReachesOn(rules: seq<Rule>, a: string, b: string, c: string)
    requires Reaches(rules, a, b) && c in PrereqsOf(rules, b)
    ensures Reaches(rules, a, c)
  {
    hide PrereqsOf;
    var path :| Chain(rules, path) && path[0] == a && path[|path| - 1] == b;
    var longer := path + [c];
    assert Chain(rules, longer) && longer[0] == a && longer[|longer| - 1] == c;
  }

  /** Every name the rules or the start give. */
  function Targets(rules: seq<Rule>, start: string): set<string> {
    {start} + set r, t | r in rules && t in r.prerequisites :: t
  }

  lemma {:induction false} PrereqsNamed(rules: seq<Rule>, target: string, start: string)
    ensures forall t :: t in PrereqsOf(rules, target) ==> t in Targets(rules, start)
  {
    if |rules| > 0 {
      PrereqsNamed(rules[..|rules| - 1], target, start);
      assert forall r :: r in rules[..|rules| - 1] ==> r in rules;
      assert rules[|rules| - 1] in rules;
    }
  }

  /** What the loop keeps: what is seen or waits is reached, and what a target seen needs is seen or waits. */
  ghost predicate Inv(rules: seq<Rule>, start: string, seen: set<string>, stack: seq<string>) {
    && (start in seen || start in stack)
    && (forall t :: t in seen || t in stack ==> Reaches(rules, start, t) && t in Targets(rules, start))
    && (forall t, p :: t in seen && p in PrereqsOf(rules, t) ==> p in seen || p in stack)
  }

  lemma PopKeepsInv(rules: seq<Rule>, start: string, seen: set<string>, stack: seq<string>)
    requires Inv(rules, start, seen, stack) && |stack| > 0
    ensures var t, rest := stack[|stack| - 1], stack[..|stack| - 1];
            if t in seen then Inv(rules, start, seen, rest)
            else Inv(rules, start, seen + {t}, rest + PrereqsOf(rules, t))
  {
    var t, rest := stack[|stack| - 1], stack[..|stack| - 1];
    hide Reaches, Targets, PrereqsOf;
    assert stack == rest + [t];
    assert forall x :: x in stack <==> x in rest || x == t;
    PrereqsNamed(rules, t, start);
    forall p | p in PrereqsOf(rules, t)
      ensures Reaches(rules, start, p)
    {
      ReachesOn(rules, start, t, p);
    }
  }

  lemma {:induction false} ChainSeen(rules: seq<Rule>, start: string, seen: set<string>, path: seq<string>)
    requires Inv(rules, start, seen, []) && Chain(rules, path) && path[0] == start
    ensures path[|path| - 1] in seen
  {
    hide Reaches, Targets, PrereqsOf;
    if |path| > 1 {
      ChainSeen(rules, start, seen, path[..|path| - 1]);
      assert path[|path| - 2 + 1] in PrereqsOf(rules, path[|path| - 2]);
    }
  }

  /** `ci_local_closure`, from any start: it ends on every prerequisite graph, cycles included, with exactly
      the targets the start reaches. */
  method Closure(rules: seq<Rule>, start: string) returns (seen: set<string>)
    ensures forall t :: t in seen <==> Reaches(rules, start, t)
  {
    hide Inv, Reaches, PrereqsOf, Targets;
    var prereqs: map<string, seq<string>> := map[];
    NoRules();
    assert rules[..0] == [];
    for i := 0 to |rules|
      invariant forall t :: (if t in prereqs then prereqs[t] else []) == PrereqsOf(rules[..i], t)
    {
      RuleAdded(rules, i);
      var rule := rules[i];
      var known := if rule.target in prereqs then prereqs[rule.target] else [];
      prereqs := prereqs[rule.target := known + rule.prerequisites];
    }
    assert rules[..|rules|] == rules;
    seen := {};
    var stack := [start];
    StartInv(rules, start);
    while |stack| > 0
      invariant Inv(rules, start, seen, stack)
      decreases Targets(rules, start) - seen, |stack|
    {
      PopKeepsInv(rules, start, seen, stack);
      TopNamed(rules, start, seen, stack);
      var target := stack[|stack| - 1];
      stack := stack[..|stack| - 1];
      if target in seen {
        continue;
      }
      seen := seen + {target};
      stack := stack + (if target in prereqs then prereqs[target] else []);
    }
    assert stack == [];
    AllSeen(rules, start, seen);
  }

  lemma NoRules()
    ensures forall t :: PrereqsOf([], t) == []
  {
  }

  lemma RuleAdded(rules: seq<Rule>, i: nat)
    requires i < |rules|
    ensures forall t :: PrereqsOf(rules[..i + 1], t)
                     == PrereqsOf(rules[..i], t) + if rules[i].target == t then rules[i].prerequisites else []
  {
    assert rules[..i + 1][..i] == rules[..i];
  }

  lemma StartInv(rules: seq<Rule>, start: string)
    ensures Inv(rules, start, {}, [start])
  {
    ReachesSelf(rules, start);
  }

  lemma TopNamed(rules: seq<Rule>, start: string, seen: set<string>, stack: seq<string>)
    requires Inv(rules, start, seen, stack) && |stack| > 0
    ensures stack[|stack| - 1] in Targets(rules, start)
  {
    hide Reaches;
    assert stack[|stack| - 1] in stack;
  }

  lemma AllSeen(rules: seq<Rule>, start: string, seen: set<string>)
    requires Inv(rules, start, seen, [])
    ensures forall t :: t in seen <==> Reaches(rules, start, t)
  {
    forall t | Reaches(rules, start, t)
      ensures t in seen
    {
      var path :| Chain(rules, path) && path[0] == start && path[|path| - 1] == t;
      ChainSeen(rules, start, seen, path);
    }
  }

  // ---- the jobs of the workflows, and the stages they run ----

  /** A line of a workflow, by what the scanners' patterns see in it: the `jobs:` key, a line not indented, a
      job's key, a stage run, and the stages a `stage:` names. */
  datatype Line = Line(jobsKey: bool, dedented: bool, job: Option<string>, runs: bool, stages: Option<seq<string>>)

  /** A workflow's name and lines. */
  datatype File = File(name: string, lines: seq<Line>)

  /** Where a scan of one file stands: in its jobs or not, and the last job's key seen there. */
  datatype Scan = Scan(inJobs: bool, job: Option<string>)

  function Moved(at: Scan, line: Line): Scan {
    if line.jobsKey then Scan(true, at.job)
    else if at.inJobs && line.dedented then Scan(false, None)
    else if at.inJobs && line.job.Some? then Scan(true, line.job)
    else at
  }

  /** Where a file's scan stands after some lines. */
  function ScanOf(lines: seq<Line>): Scan {
    if |lines| == 0 then Scan(false, None) else Moved(ScanOf(lines[..|lines| - 1]), lines[|lines| - 1])
  }

  predicate KeysJob(before: seq<Line>, line: Line): (keys: bool)
    ensures keys ==> line.job.Some?
  {
    !line.jobsKey && ScanOf(before).inJobs && !line.dedented && line.job.Some?
  }

  function JobsIn(lines: seq<Line>): set<string> {
    if |lines| == 0 then {}
    else
      var before, last := lines[..|lines| - 1], lines[|lines| - 1];
      JobsIn(before) + if KeysJob(before, last) then {last.job.value} else {}
  }

  function JobsOf(files: seq<File>): set<string> {
    if |files| == 0 then {} else JobsOf(files[..|files| - 1]) + JobsIn(files[|files| - 1].lines)
  }

  /** The file's name, once for each line of it that keys the job. */
  function KeyedIn(lines: seq<Line>, file: string, job: string): seq<string> {
    if |lines| == 0 then []
    else
      var before, last := lines[..|lines| - 1], lines[|lines| - 1];
      KeyedIn(before, file, job) + if KeysJob(before, last) && last.job.value == job then [file] else []
  }

  /** The files a job appears in, in order. */
  function KeyedOf(files: seq<File>, job: string): seq<string> {
    if |files| == 0 then []
    else
      var last := files[|files| - 1];
      KeyedOf(files[..|files| - 1], job) + KeyedIn(last.lines, last.name, job)
  }

  lemma {:induction false} KeyedInExactly(lines: seq<Line>, file: string, job: string)
    ensures job in JobsIn(lines) <==> KeyedIn(lines, file, job) != []
  {
    if |lines| > 0 {
      KeyedInExactly(lines[..|lines| - 1], file, job);
    }
  }

  /** A job is one of the jobs exactly when it appears in some file. */
  lemma {:induction false} KeyedExactly(files: seq<File>, job: string)
    ensures job in JobsOf(files) <==> KeyedOf(files, job) != []
  {
    if |files| > 0 {
      KeyedExactly(files[..|files| - 1], job);
      KeyedInExactly(files[|files| - 1].lines, files[|files| - 1].name, job);
    }
  }

  /** A dictionary of jobs after the first `f` files and the first `i` lines of the next. */
  ghost predicate Gathers(jobs: map<string, seq<string>>, files: seq<File>, f: nat, i: nat)
    requires f < |files| && i <= |files[f].lines|
  {
    forall job :: (if job in jobs then jobs[job] else []) ==
                  KeyedOf(files[..f], job) + KeyedIn(files[f].lines[..i], files[f].name, job)
  }

  /** Its keys are the jobs, each with the files it appears in. */
  ghost predicate GathersAll(jobs: map<string, seq<string>>, files: seq<File>) {
    forall job :: (if job in jobs then jobs[job] else []) == KeyedOf(files, job)
  }

  /** No job with no file. */
  predicate NoneEmpty(jobs: map<string, seq<string>>) {
    forall job :: job in jobs ==> jobs[job] != []
  }

  lemma FileStarts(jobs: map<string, seq<string>>, files: seq<File>, f: nat)
    requires f < |files| && GathersAll(jobs, files[..f])
    ensures Gathers(jobs, files, f, 0)
  {
    hide KeyedOf;
    forall job: string
      ensures KeyedOf(files[..f], job) == KeyedOf(files[..f], job) + KeyedIn([], files[f].name, job)
    {
    }
  }

  lemma FileEnds(jobs: map<string, seq<string>>, files: seq<File>, f: nat)
    requires f < |files| && Gathers(jobs, files, f, |files[f].lines|)
    ensures GathersAll(jobs, files[..f + 1])
  {
    assert files[..f + 1][..f] == files[..f];
    assert files[f].lines[..|files[f].lines|] == files[f].lines;
  }

  lemma LineGathered(jobs: map<string, seq<string>>, files: seq<File>, f: nat, i: nat)
    requires f < |files| && i < |files[f].lines| && Gathers(jobs, files, f, i)
    ensures var lines, line := files[f].lines, files[f].lines[i];
            if !KeysJob(lines[..i], line) then Gathers(jobs, files, f, i + 1)
            else
              var names := (if line.job.value in jobs then jobs[line.job.value] else []) + [files[f].name];
              Gathers(jobs[line.job.value := names], files, f, i + 1)
  {
    hide KeyedOf, KeysJob, KeyedIn, Gathers;
    var lines, line := files[f].lines, files[f].lines[i];
    var after := if KeysJob(lines[..i], line)
                 then
                   var job := line.job.value;
                   jobs[job := (if job in jobs then jobs[job] else []) + [files[f].name]]
                 else jobs;
    forall job: string
      ensures (if job in after then after[job] else []) ==
              KeyedOf(files[..f], job) + KeyedIn(lines[..i + 1], files[f].name, job)
    {
      GatheredAt(jobs, files, f, i, job);
      KeyedNext(lines, i, files[f].name, job);
    }
    GatheredEverywhere(after, files, f, i + 1);
  }

  lemma GatheredAt(jobs: map<string, seq<string>>, files: seq<File>, f: nat, i: nat, job: string)
    requires f < |files| && i <= |files[f].lines| && Gathers(jobs, files, f, i)
    ensures (if job in jobs then jobs[job] else []) ==
            KeyedOf(files[..f], job) + KeyedIn(files[f].lines[..i], files[f].name, job)
  {
  }

  lemma GatheredEverywhere(jobs: map<string, seq<string>>, files: seq<File>, f: nat, i: nat)
    requires f < |files| && i <= |files[f].lines|
    requires forall job :: (if job in jobs then jobs[job] else []) ==
                           KeyedOf(files[..f], job) + KeyedIn(files[f].lines[..i], files[f].name, job)
    ensures Gathers(jobs, files, f, i)
  {
  }

  lemma KeyedNext(lines: seq<Line>, i: nat, file: string, job: string)
    requires i < |lines|
    ensures KeyedIn(lines[..i + 1], file, job) == KeyedIn(lines[..i], file, job)
            + if KeysJob(lines[..i], lines[i]) && lines[i].job.value == job then [file] else []
  {
    assert lines[..i + 1][..i] == lines[..i];
  }

  lemma KeysAreJobs(jobs: map<string, seq<string>>, files: seq<File>)
    requires GathersAll(jobs, files) && NoneEmpty(jobs)
    ensures jobs.Keys == JobsOf(files) && forall job :: job in jobs ==> jobs[job] == KeyedOf(files, job)
  {
    hide JobsOf, KeyedOf;
    forall job: string
      ensures job in jobs <==> job in JobsOf(files)
    {
      KeyedExactly(files, job);
    }
  }

  lemma NoFiles()
    ensures GathersAll(map[], [])
  {
  }

  /** `workflow_jobs`: the job keys of every file, each with the files it appears in. */
  method Jobs(files: seq<File>) returns (jobs: map<string, seq<string>>)
    ensures jobs.Keys == JobsOf(files)
    ensures forall job :: job in jobs ==> jobs[job] == KeyedOf(files, job)
  {
    hide Gathers, GathersAll, KeyedOf, JobsOf;
    jobs := map[];
    NoFiles();
    assert files[..0] == [];
    for f := 0 to |files|
      invariant GathersAll(jobs, files[..f]) && NoneEmpty(jobs)
    {
      FileStarts(jobs, files, f);
      var lines, inJobs := files[f].lines, false;
      for i := 0 to |lines|
        invariant inJobs == ScanOf(lines[..i]).inJobs
        invariant Gathers(jobs, files, f, i) && NoneEmpty(jobs)
      {
        var line := lines[i];
        assert lines[..i + 1][..i] == lines[..i];
        LineGathered(jobs, files, f, i);
        if line.jobsKey {
          inJobs := true;
          continue;
        }
        if inJobs && line.dedented {
          inJobs := false;
        }
        if inJobs && line.job.Some? {
          var job := line.job.value;
          jobs := jobs[job := (if job in jobs then jobs[job] else []) + [files[f].name]];
        }
      }
      FileEnds(jobs, files, f);
    }
    assert files[..|files|] == files;
    KeysAreJobs(jobs, files);
  }

  /** A job and the stages its matrix names. A dictionary of them is a list, in the order of its keys. */
  datatype Job = Job(name: string, stages: seq<string>)

  /** `stages.setdefault(name, []).extend(names)` */
  function Extended(jobs: seq<Job>, name: string, names: seq<string>): seq<Job> {
    if |jobs| == 0 then [Job(name, names)]
    else if jobs[0].name == name then [Job(name, jobs[0].stages + names)] + jobs[1..]
    else [jobs[0]] + Extended(jobs[1..], name, names)
  }

  /** What `workflow_stages` gathers: the stages each job names, and the jobs that run a stage. */
  datatype Gathered = Gathered(named: seq<Job>, running: set<string>)

  function GatheredLine(before: Gathered, at: Scan, line: Line): Gathered {
    if line.jobsKey || !at.inJobs || line.dedented || line.job.Some? || at.job.None? then before
    else
      Gathered(if line.stages.Some? then Extended(before.named, at.job.value, line.stages.value) else before.named,
               if line.runs then before.running + {at.job.value} else before.running)
  }

  function GatheredIn(before: Gathered, lines: seq<Line>): Gathered {
    if |lines| == 0 then before
    else
      var earlier, last := lines[..|lines| - 1], lines[|lines| - 1];
      GatheredLine(GatheredIn(before, earlier), ScanOf(earlier), last)
  }

  function GatheredOf(files: seq<File>): Gathered {
    if |files| == 0 then Gathered([], {}) else GatheredIn(GatheredOf(files[..|files| - 1]), files[|files| - 1].lines)
  }

  function Running(named: seq<Job>, running: set<string>): (jobs: seq<Job>)
    ensures forall j :: j in jobs <==> j in named && j.name in running
  {
    if |named| == 0 then []
    else (if named[0].name in running then [named[0]] else []) + Running(named[1..], running)
  }

  /** `workflow_stages`: the jobs that run a stage, with the stages each names. */
  function StagedOf(files: seq<File>): seq<Job> {
    Running(GatheredOf(files).named, GatheredOf(files).running)
  }

  method Staged(files: seq<File>) returns (staged: seq<Job>)
    ensures staged == StagedOf(files)
  {
    var named: seq<Job>, running: set<string> := [], {};
    for f := 0 to |files|
      invariant Gathered(named, running) == GatheredOf(files[..f])
    {
      var inJobs, job: Option<string> := false, None;
      ghost var was := Gathered(named, running);
      assert files[..f + 1][..f] == files[..f];
      for i := 0 to |files[f].lines|
        invariant Scan(inJobs, job) == ScanOf(files[f].lines[..i])
        invariant Gathered(named, running) == GatheredIn(was, files[f].lines[..i])
      {
        var line := files[f].lines[i];
        assert files[f].lines[..i + 1][..i] == files[f].lines[..i];
        if line.jobsKey {
          inJobs := true;
          continue;
        }
        if inJobs && line.dedented {
          inJobs, job := false, None;
        }
        if !inJobs {
          continue;
        }
        if line.job.Some? {
          job := line.job;
          continue;
        }
        if job.Some? {
          if line.runs {
            running := running + {job.value};
          }
          if line.stages.Some? {
            named := Extended(named, job.value, line.stages.value);
          }
        }
      }
      assert files[f].lines[..|files[f].lines|] == files[f].lines;
    }
    assert files[..|files|] == files;
    return Running(named, running);
  }

  /** Every job that runs a stage is one of the jobs: both scanners see the same keys. */
  lemma StagedAreJobs(files: seq<File>)
    ensures forall j :: j in StagedOf(files) ==> j.name in JobsOf(files)
  {
    GatheredAreJobs(files);
  }

  lemma {:induction false} GatheredAreJobs(files: seq<File>)
    ensures forall j :: j in GatheredOf(files).named ==> j.name in JobsOf(files)
  {
    if |files| > 0 {
      GatheredAreJobs(files[..|files| - 1]);
      GatheredInJobs(GatheredOf(files[..|files| - 1]), files[|files| - 1].lines);
    }
  }

  lemma {:induction false} GatheredInJobs(before: Gathered, lines: seq<Line>)
    ensures ScanOf(lines).job.Some? ==> ScanOf(lines).job.value in JobsIn(lines)
    ensures forall j :: j in GatheredIn(before, lines).named ==>
              j.name in JobsIn(lines) || exists k :: k in before.named && k.name == j.name
  {
    if |lines| > 0 {
      var earlier, last := lines[..|lines| - 1], lines[|lines| - 1];
      GatheredInJobs(before, earlier);
      var gathered := GatheredIn(before, earlier);
      if ScanOf(earlier).job.Some? && last.stages.Some? {
        ExtendedNames(gathered.named, ScanOf(earlier).job.value, last.stages.value);
      }
    }
  }

  lemma {:induction false} ExtendedNames(jobs: seq<Job>, name: string, names: seq<string>)
    ensures forall j :: j in Extended(jobs, name, names) ==> j.name == name || j in jobs
  {
    if |jobs| > 0 {
      ExtendedNames(jobs[1..], name, names);
    }
  }

  // ---- the check ----

  /** Run by suites rather than by a stage job. */
  const STAGES_ELSEWHERE: set<string> := {"harness"}

  /** The jobs' stage lists joined. */
  function Joined(staged: seq<Job>): seq<string> {
    if |staged| == 0 then [] else staged[0].stages + Joined(staged[1..])
  }

  /** The jobs running a stage, once for each time they name it. */
  function RunningIn(names: seq<string>, job: string, stage: string): (jobs: seq<string>)
    ensures |jobs| == multiset(names)[stage]
  {
    if |names| == 0 then []
    else
      assert names == [names[0]] + names[1..];
      (if names[0] == stage then [job] else []) + RunningIn(names[1..], job, stage)
  }

  function JobsRunning(staged: seq<Job>, stage: string): (jobs: seq<string>)
    ensures |jobs| == multiset(Joined(staged))[stage]
  {
    if |staged| == 0 then []
    else RunningIn(staged[0].stages, staged[0].name, stage) + JobsRunning(staged[1..], stage)
  }

  /** What the check reads besides the workflows. */
  datatype Local = Local(
    targets: set<string>, reachable: set<string>, allowed: map<string, string>, stages: seq<string>)

  /** The stages of the first job of that name. */
  function StagesOf(staged: seq<Job>, name: string): Option<seq<string>> {
    if |staged| == 0 then None
    else if staged[0].name == name then Some(staged[0].stages)
    else StagesOf(staged[1..], name)
  }

  /** A CI job that can be reproduced locally, or is let off with a reason. */
  predicate Mirrored(local: Local, staged: seq<Job>, job: string) {
    match StagesOf(staged, job)
    case Some(names) => forall n :: n in names ==> n in local.stages
    case None =>
      if job in local.allowed then local.allowed[job] != ""
      else job in local.targets && job in local.reachable
  }

  predicate StageFaulty(staged: seq<Job>, stage: string) {
    if stage in STAGES_ELSEWHERE then |JobsRunning(staged, stage)| > 0 else |JobsRunning(staged, stage)| != 1
  }

  /** When the check passes: no workflow has a job, or every job is mirrored and no stage faulty. */
  ghost predicate Passes(files: seq<File>, local: Local) {
    || JobsOf(files) == {}
    || ((forall job :: job in JobsOf(files) ==> Mirrored(local, StagedOf(files), job))
        && forall stage :: stage in local.stages ==> !StageFaulty(StagedOf(files), stage))
  }

  /** What the Makefile's lines give: its rules, and the targets its `.PHONY` lines name. */
  datatype Makefile = Makefile(rules: seq<Rule>, phony: set<string>)

  function TargetsOf(makefile: Makefile): set<string> {
    makefile.phony + set r | r in makefile.rules :: r.target
  }

  const CI_LOCAL: string := "ci-local"
  const STAGE: string := "stage-"

  predicate NamesStage(target: string) {
    STAGE <= target
  }

  /** The prerequisites that are stages, their prefix off. */
  function StagesAmong(prerequisites: seq<string>): (stages: seq<string>)
    ensures forall stage :: stage in stages <==> STAGE + stage in prerequisites
  {
    if |prerequisites| == 0 then []
    else
      var first, rest := prerequisites[0], StagesAmong(prerequisites[1..]);
      assert NamesStage(first) ==> first == STAGE + first[|STAGE|..];
      assert forall stage :: first == STAGE + stage ==> NamesStage(first) && stage == first[|STAGE|..];
      (if NamesStage(first) then [first[|STAGE|..]] else []) + rest
  }

  /** The stages ci-local runs: those of its first rule. */
  function LocalStages(rules: seq<Rule>): seq<string> {
    if |rules| == 0 then []
    else if rules[0].target == CI_LOCAL then StagesAmong(rules[0].prerequisites)
    else LocalStages(rules[1..])
  }

  ghost function ReachedFrom(rules: seq<Rule>, start: string): set<string> {
    set t | t in Targets(rules, start) && Reaches(rules, start, t)
  }

  /** What a Makefile and an allowlist come to. */
  ghost function LocalOf(makefile: Makefile, allowed: map<string, string>): Local {
    Local(TargetsOf(makefile), ReachedFrom(makefile.rules, CI_LOCAL), allowed, LocalStages(makefile.rules))
  }

  /** `make_targets` */
  method MakeTargets(makefile: Makefile) returns (targets: set<string>)
    ensures targets == TargetsOf(makefile)
  {
    targets := makefile.phony;
    for i := 0 to |makefile.rules|
      invariant targets == makefile.phony + set r | r in makefile.rules[..i] :: r.target
    {
      assert makefile.rules[..i + 1] == makefile.rules[..i] + [makefile.rules[i]];
      targets := targets + {makefile.rules[i].target};
    }
    assert makefile.rules[..|makefile.rules|] == makefile.rules;
  }

  /** `ci_local_stages` */
  method CiLocalStages(rules: seq<Rule>) returns (stages: seq<string>)
    ensures stages == LocalStages(rules)
  {
    assert rules[0..] == rules;
    for i := 0 to |rules|
      invariant LocalStages(rules) == LocalStages(rules[i..])
    {
      assert rules[i..][1..] == rules[i + 1..];
      if rules[i].target == CI_LOCAL {
        return StagesAmong(rules[i].prerequisites);
      }
    }
    return [];
  }

  lemma {:induction false} ChainInTargets(rules: seq<Rule>, path: seq<string>)
    requires Chain(rules, path)
    ensures path[|path| - 1] in Targets(rules, path[0])
  {
    if |path| > 1 {
      PrereqsNamed(rules, path[|path| - 2], path[0]);
      assert path[|path| - 2 + 1] in PrereqsOf(rules, path[|path| - 2]);
    }
  }

  lemma ReachedExactly(rules: seq<Rule>, start: string, t: string)
    ensures t in ReachedFrom(rules, start) <==> Reaches(rules, start, t)
  {
    if Reaches(rules, start, t) {
      var path :| Chain(rules, path) && path[0] == start && path[|path| - 1] == t;
      ChainInTargets(rules, path);
    }
  }

  lemma ReachedAre(rules: seq<Rule>, start: string, seen: set<string>)
    requires forall t :: t in seen <==> Reaches(rules, start, t)
    ensures seen == ReachedFrom(rules, start)
  {
    hide Reaches, ReachedFrom;
    forall t
      ensures t in seen <==> t in ReachedFrom(rules, start)
    {
      ReachedExactly(rules, start, t);
    }
  }

  /** `main`, past reading its files' lines: 0 exactly when the check passes on what the Makefile comes to. */
  method MirrorCheck(files: seq<File>, makefile: Makefile, allowed: map<string, string>) returns (code: int)
    ensures code == if Passes(files, LocalOf(makefile, allowed)) then 0 else 1
  {
    hide Passes, Reaches, ReachedFrom, LocalStages, TargetsOf;
    var jobs := Jobs(files);
    if jobs == map[] {
      NothingToMirror(files, LocalOf(makefile, allowed));
      return 0;
    }
    var targets := MakeTargets(makefile);
    var reachable := Closure(makefile.rules, CI_LOCAL);
    ReachedAre(makefile.rules, CI_LOCAL, reachable);
    var stages := CiLocalStages(makefile.rules);
    code := Check(files, jobs, Local(targets, reachable, allowed, stages));
  }

  lemma NothingToMirror(files: seq<File>, local: Local)
    requires JobsOf(files) == {}
    ensures Passes(files, local)
  {
  }

  /** The faults of the jobs and of the stages gathered, and the exit code they give. */
  method Check(files: seq<File>, jobs: map<string, seq<string>>, local: Local) returns (code: int)
    requires jobs.Keys == JobsOf(files) && jobs != map[]
    ensures code == if Passes(files, local) then 0 else 1
  {
    hide StageFaulty, StagesOf, JobsOf, StagedOf;
    var staged := Staged(files);
    var unmirrored: seq<string>, unreachable: seq<string> := [], [];
    var left := jobs.Keys;
    while left != {}
      invariant left <= jobs.Keys
      invariant |unmirrored| == 0 && |unreachable| == 0 <==>
                  forall job :: job in jobs.Keys - left ==> Mirrored(local, staged, job)
      decreases left
    {
      var job :| job in left;
      left := left - {job};
      assert forall j :: j in jobs.Keys - left <==> j == job || (j in jobs && j !in left && j != job);
      var names := StagesOf(staged, job);
      if names.Some? {
        ghost var before := |unmirrored|;
        for i := 0 to |names.value|
          invariant |unmirrored| >= before
          invariant |unmirrored| == before <==> forall k :: 0 <= k < i ==> names.value[k] in local.stages
        {
          if names.value[i] !in local.stages {
            unmirrored := unmirrored + [job];
          }
        }
      } else if job in local.allowed {
        if local.allowed[job] == "" {
          unmirrored := unmirrored + [job];
        }
      } else if job !in local.targets {
        unmirrored := unmirrored + [job];
      } else if job !in local.reachable {
        unreachable := unreachable + [job];
      }
    }
    var stageFaults: seq<string> := [];
    for i := 0 to |local.stages|
      invariant |stageFaults| == 0 <==> forall k :: 0 <= k < i ==> !StageFaulty(staged, local.stages[k])
    {
      if StageFaulty(staged, local.stages[i]) {
        stageFaults := stageFaults + [local.stages[i]];
      }
    }
    assert jobs.Keys - left == jobs.Keys;
    code := if |unmirrored| > 0 || |unreachable| > 0 || |stageFaults| > 0 then 1 else 0;
  }

  // ---- the cover ----

  lemma {:induction false} JoinedHolds(staged: seq<Job>, stage: string)
    ensures stage in Joined(staged) <==> exists j :: j in staged && stage in j.stages
  {
    if |staged| > 0 {
      JoinedHolds(staged[1..], stage);
      assert forall j :: j in staged <==> j == staged[0] || j in staged[1..];
    }
  }

  predicate NamesApart(jobs: seq<Job>) {
    forall i, j :: 0 <= i < j < |jobs| ==> jobs[i].name != jobs[j].name
  }

  lemma {:induction false} ExtendedApart(jobs: seq<Job>, name: string, names: seq<string>)
    requires NamesApart(jobs)
    ensures NamesApart(Extended(jobs, name, names))
  {
    if |jobs| > 0 && jobs[0].name != name {
      ExtendedApart(jobs[1..], name, names);
      ExtendedNames(jobs[1..], name, names);
    }
  }

  lemma {:induction false} GatheredApart(before: Gathered, lines: seq<Line>)
    requires NamesApart(before.named)
    ensures NamesApart(GatheredIn(before, lines).named)
  {
    hide NamesApart;
    if |lines| > 0 {
      var earlier, last := lines[..|lines| - 1], lines[|lines| - 1];
      GatheredApart(before, earlier);
      if ScanOf(earlier).job.Some? && last.stages.Some? {
        ExtendedApart(GatheredIn(before, earlier).named, ScanOf(earlier).job.value, last.stages.value);
      }
    }
  }

  lemma {:induction false} AllApart(files: seq<File>)
    ensures NamesApart(GatheredOf(files).named)
  {
    if |files| > 0 {
      AllApart(files[..|files| - 1]);
      GatheredApart(GatheredOf(files[..|files| - 1]), files[|files| - 1].lines);
    }
  }

  lemma {:induction false} RunningApart(named: seq<Job>, running: set<string>)
    requires NamesApart(named)
    ensures NamesApart(Running(named, running))
  {
    if |named| > 0 {
      RunningApart(named[1..], running);
      assert forall j :: j in Running(named[1..], running) ==> j.name != named[0].name;
    }
  }

  lemma {:induction false} StagesAre(staged: seq<Job>, name: string)
    requires NamesApart(staged)
    ensures forall j :: j in staged && j.name == name ==> StagesOf(staged, name) == Some(j.stages)
    ensures StagesOf(staged, name).Some? ==> exists j :: j in staged && j.name == name
  {
    if |staged| > 0 {
      StagesAre(staged[1..], name);
      assert forall j :: j in staged <==> j == staged[0] || j in staged[1..];
    }
  }

  /** Every stage named by a job is a stage of ci-local. */
  predicate NoStrays(staged: seq<Job>, local: Local) {
    forall stage :: stage in Joined(staged) ==> stage in local.stages
  }

  /** The jobs' stage lists joined hold each stage of ci-local not run elsewhere once, and nothing else. */
  ghost predicate ExactCover(staged: seq<Job>, local: Local) {
    forall stage :: multiset(Joined(staged))[stage]
                 == if stage in local.stages && stage !in STAGES_ELSEWHERE then 1 else 0
  }

  lemma CoverExactly(staged: seq<Job>, local: Local)
    ensures NoStrays(staged, local) && (forall stage :: stage in local.stages ==> !StageFaulty(staged, stage))
       <==> ExactCover(staged, local)
  {
    hide Joined, JobsRunning;
    forall stage: string
      ensures |JobsRunning(staged, stage)| == multiset(Joined(staged))[stage]
      ensures stage in Joined(staged) <==> multiset(Joined(staged))[stage] > 0
    {
    }
  }

  /** A CI job that runs no stage, reproducible by its own target or let off with a reason. */
  predicate MirroredAlone(local: Local, job: string) {
    if job in local.allowed then local.allowed[job] != "" else job in local.targets && job in local.reachable
  }

  ghost predicate AllMirrored(files: seq<File>, local: Local) {
    forall job :: job in JobsOf(files) ==> Mirrored(local, StagedOf(files), job)
  }

  ghost predicate OthersMirrored(files: seq<File>, local: Local) {
    forall job :: job in JobsOf(files) && StagesOf(StagedOf(files), job).None? ==> MirroredAlone(local, job)
  }

  lemma StageHasJob(files: seq<File>, stage: string) returns (j: Job)
    requires stage in Joined(StagedOf(files))
    ensures stage in j.stages && j.name in JobsOf(files) && StagesOf(StagedOf(files), j.name) == Some(j.stages)
  {
    hide StagedOf, Joined, StagesOf;
    JoinedHolds(StagedOf(files), stage);
    j :| j in StagedOf(files) && stage in j.stages;
    StagedAreJobs(files);
    StagedApart(files);
    StagesAre(StagedOf(files), j.name);
  }

  lemma StagedApart(files: seq<File>)
    ensures NamesApart(StagedOf(files))
  {
    AllApart(files);
    RunningApart(GatheredOf(files).named, GatheredOf(files).running);
  }

  lemma JobsStagesJoined(files: seq<File>, job: string, stage: string)
    requires StagesOf(StagedOf(files), job).Some? && stage in StagesOf(StagedOf(files), job).value
    ensures stage in Joined(StagedOf(files))
  {
    hide StagedOf, Joined, StagesOf;
    StagedApart(files);
    StagesAre(StagedOf(files), job);
    JoinedHolds(StagedOf(files), stage);
  }

  lemma JobsMirrored(files: seq<File>, local: Local)
    ensures AllMirrored(files, local) <==> NoStrays(StagedOf(files), local) && OthersMirrored(files, local)
  {
    hide JobsOf, StagedOf, StagesOf, Joined, MirroredAlone;
    if AllMirrored(files, local) {
      forall stage | stage in Joined(StagedOf(files))
        ensures stage in local.stages
      {
        var j := StageHasJob(files, stage);
        assert Mirrored(local, StagedOf(files), j.name);
      }
      forall job | job in JobsOf(files) && StagesOf(StagedOf(files), job).None?
        ensures MirroredAlone(local, job)
      {
        assert Mirrored(local, StagedOf(files), job);
        AloneIsMirrored(local, StagedOf(files), job);
      }
    }
    if NoStrays(StagedOf(files), local) && OthersMirrored(files, local) {
      forall job | job in JobsOf(files)
        ensures Mirrored(local, StagedOf(files), job)
      {
        var staged := StagedOf(files);
        if StagesOf(staged, job).None? {
          AloneIsMirrored(local, staged, job);
        } else {
          forall n | n in StagesOf(staged, job).value
            ensures n in local.stages
          {
            JobsStagesJoined(files, job, n);
          }
        }
      }
    }
  }

  lemma AloneIsMirrored(local: Local, staged: seq<Job>, job: string)
    requires StagesOf(staged, job).None?
    ensures Mirrored(local, staged, job) <==> MirroredAlone(local, job)
  {
  }

  /** With a job in the workflows, the check passes exactly when every job running no stage can be
      reproduced, and the stage jobs' lists joined hold each ci-local stage not run elsewhere exactly once
      and nothing else. */
  lemma PassesExactly(files: seq<File>, local: Local)
    requires JobsOf(files) != {}
    ensures Passes(files, local) <==> ExactCover(StagedOf(files), local) && OthersMirrored(files, local)
  {
    hide JobsOf, StagedOf, StagesOf, Mirrored, StageFaulty, ExactCover, NoStrays, OthersMirrored;
    JobsMirrored(files, local);
    CoverExactly(StagedOf(files), local);
  }

  /** A job that runs no stage and can be reproduced: let off with a reason, or a target of the Makefile that
      ci-local reaches. */
  ghost predicate Reproducible(makefile: Makefile, allowed: map<string, string>, job: string) {
    if job in allowed then allowed[job] != ""
    else job in TargetsOf(makefile) && Reaches(makefile.rules, CI_LOCAL, job)
  }

  lemma CoverSays(staged: seq<Job>, local: Local)
    ensures ExactCover(staged, local) <==>
            forall stage :: multiset(Joined(staged))[stage] ==
                            if stage in local.stages && stage != "harness" then 1 else 0
  {
    hide Joined;
    assert forall stage: string :: stage in STAGES_ELSEWHERE <==> stage == "harness";
    if forall stage :: multiset(Joined(staged))[stage] == if stage in local.stages && stage != "harness" then 1 else 0 {
      forall stage: string
        ensures multiset(Joined(staged))[stage]
             == if stage in local.stages && stage !in STAGES_ELSEWHERE then 1 else 0
      {
      }
    }
  }

  /** So the check of a Makefile, an allowlist and workflows with a job gives 0 exactly when every job running
      no stage is let off with a reason or reached from ci-local, and the stage jobs' lists joined hold each
      of ci-local's stages not run elsewhere exactly once and nothing else. */
  lemma MirrorPassesExactly(files: seq<File>, makefile: Makefile, allowed: map<string, string>)
    requires JobsOf(files) != {}
    ensures Passes(files, LocalOf(makefile, allowed)) <==>
            && (forall stage :: multiset(Joined(StagedOf(files)))[stage]
                             == if stage in LocalStages(makefile.rules) && stage != "harness" then 1 else 0)
            && (forall job :: job in JobsOf(files) && StagesOf(StagedOf(files), job).None? ==>
                                Reproducible(makefile, allowed, job))
  {
    hide Passes, JobsOf, StagedOf, StagesOf, Joined, LocalStages, TargetsOf, Reaches, ReachedFrom;
    PassesExactly(files, LocalOf(makefile, allowed));
    CoverSays(StagedOf(files), LocalOf(makefile, allowed));
    hide ExactCover;
    forall job: string
      ensures MirroredAlone(LocalOf(makefile, allowed), job) <==> Reproducible(makefile, allowed, job)
    {
      ReachedExactly(makefile.rules, CI_LOCAL, job);
    }
  }
}
