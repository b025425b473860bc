/** What the scans of the workflows find (`tools/ci_mirror_check.py`), said of their lines outright. */
module CiScans {
  import opened CiMirror
  import opened Wrappers

  // ---- a Makefile's prerequisites ----

  /** A target's prerequisites are those of every rule that names it. */
  lemma {:induction false} PrereqsExactly(rules: seq<Rule>, target: string, t: string)
    ensures t in PrereqsOf(rules, target) <==> exists r :: r in rules && r.target == target && t in r.prerequisites
  {
    if |rules| > 0 {
      var before, last := rules[..|rules| - 1], rules[|rules| - 1];
      PrereqsExactly(before, target, t);
      assert forall r :: r in rules <==> r in before || r == last;
    }
  }

  /** ci-local's stages are the prerequisites of its first rule that begin with "stage-", in order, that off. */
  lemma {:induction false} LocalStagesExactly(rules: seq<Rule>, k: nat)
    ensures k < |rules| && rules[k].target == "ci-local"
            && (forall j :: 0 <= j < k ==> rules[j].target != "ci-local") ==>
              LocalStages(rules) == StagesAmong(rules[k].prerequisites)
    ensures (forall r :: r in rules ==> r.target != "ci-local") ==> LocalStages(rules) == []
  {
    hide StagesAmong;
    if |rules| > 0 {
      LocalStagesExactly(rules[1..], if k > 0 then k - 1 else 0);
    }
  }

  lemma StagesAmongInOrder(a: seq<string>, stage: string, other: string)
    requires !("stage-" <= other)
    ensures StagesAmong([]) == []
    ensures StagesAmong(["stage-" + stage] + a) == [stage] + StagesAmong(a)
    ensures StagesAmong([other] + a) == StagesAmong(a)
  {
    var named := "stage-" + stage;
    assert named[6..] == stage && "stage-" <= named;
    assert (["stage-" + stage] + a)[1..] == a && ([other] + a)[1..] == a;
  }

  /** The targets of a Makefile: its rules', and those its `.PHONY` lines name. */
  lemma TargetsExactly(makefile: Makefile, target: string)
    ensures target in TargetsOf(makefile) <==>
            target in makefile.phony || exists r :: r in makefile.rules && r.target == target
  {
  }

  /** Stage lists joined: each job's in turn. */
  lemma {:induction false} JoinedInTurn(a: seq<Job>, b: seq<Job>, job: Job)
    ensures Joined([job]) == job.stages && Joined(a + b) == Joined(a) + Joined(b)
  {
    assert [job][1..] == [] && job.stages + [] == job.stages;
    if |a| == 0 {
      assert a + b == b && [] + Joined(b) == Joined(b);
    } else {
      JoinedInTurn(a[1..], b, job);
      assert (a + b)[0] == a[0] && (a + b)[1..] == a[1..] + b;
      assert a[0].stages + (Joined(a[1..]) + Joined(b)) == a[0].stages + Joined(a[1..]) + Joined(b);
    }
  }

  // ---- where a line stands ----

  /** Within `jobs:`: behind that key, with no line since that is not indented but another such key. */
  predicate InJobs(before: seq<Line>) {
    exists j :: 0 <= j < |before| && before[j].jobsKey
             && forall k :: j < k < |before| ==> before[k].jobsKey || !before[k].dedented
  }

  /** A job's key. */
  predicate KeyLine(before: seq<Line>, line: Line): (keys: bool)
    ensures keys ==> line.job.Some?
  {
    InJobs(before) && !line.jobsKey && !line.dedented && line.job.Some?
  }

  /** The line that ends the jobs. */
  predicate LeavesJobs(before: seq<Line>, line: Line) {
    InJobs(before) && !line.jobsKey && line.dedented
  }

  /** Within the job of a name: behind its key, with no other key since, and the jobs not left. */
  predicate InJob(before: seq<Line>, name: string) {
    exists j :: 0 <= j < |before| && KeyLine(before[..j], before[j]) && before[j].job.value == name
             && forall k :: j < k < |before| ==> !KeyLine(before[..k], before[k]) && !LeavesJobs(before[..k], before[k])
  }

  lemma InJobsNext(before: seq<Line>, line: Line)
    ensures InJobs(before + [line]) <==> line.jobsKey || (InJobs(before) && !line.dedented)
  {
    var all := before + [line];
    if line.jobsKey {
      assert all[|before|].jobsKey;
    }
    if InJobs(before) && !line.dedented {
      var j :| 0 <= j < |before| && before[j].jobsKey
            && forall k :: j < k < |before| ==> before[k].jobsKey || !before[k].dedented;
      assert all[j].jobsKey;
    }
    if InJobs(all) && !line.jobsKey {
      var j :| 0 <= j < |all| && all[j].jobsKey && forall k :: j < k < |all| ==> all[k].jobsKey || !all[k].dedented;
      assert all[|before|] == line;
      assert before[j].jobsKey;
      forall k | j < k < |before|
        ensures before[k].jobsKey || !before[k].dedented
      {
        assert all[k] == before[k];
      }
    }
  }

  lemma {:induction false} InJobsExactly(lines: seq<Line>)
    ensures ScanOf(lines).inJobs <==> InJobs(lines)
  {
    if |lines| > 0 {
      var before, last := lines[..|lines| - 1], lines[|lines| - 1];
      InJobsExactly(before);
      InJobsNext(before, last);
      assert lines == before + [last];
      hide InJobs;
    }
  }

  lemma InJobNext(before: seq<Line>, line: Line, name: string)
    ensures InJob(before + [line], name) <==>
            if KeyLine(before, line) then line.job.value == name
            else InJob(before, name) && !LeavesJobs(before, line)
  {
    hide InJobs, KeyLine, LeavesJobs;
    var all := before + [line];
    assert all[..|before|] == before && all[|before|] == line;
    assert forall k :: 0 <= k < |before| ==> all[..k] == before[..k] && all[k] == before[k];
    if KeyLine(before, line) && line.job.value == name {
      assert KeyLine(all[..|before|], all[|before|]);
    }
    if !KeyLine(before, line) && InJob(before, name) && !LeavesJobs(before, line) {
      var j :| 0 <= j < |before| && KeyLine(before[..j], before[j]) && before[j].job.value == name
            && forall k :: j < k < |before| ==> !KeyLine(before[..k], before[k]) && !LeavesJobs(before[..k], before[k]);
      assert KeyLine(all[..j], all[j]);
    }
  }

  lemma {:induction false} InJobExactly(lines: seq<Line>, name: string)
    ensures ScanOf(lines).job == Some(name) <==> InJob(lines, name)
  {
    if |lines| > 0 {
      var before, last := lines[..|lines| - 1], lines[|lines| - 1];
      InJobExactly(before, name);
      InJobsExactly(before);
      InJobNext(before, last, name);
      assert lines == before + [last];
      hide InJob, InJobs, ScanOf;
      NextScan(lines);
    }
  }

  lemma NextScan(lines: seq<Line>)
    requires |lines| > 0
    ensures ScanOf(lines) == Moved(ScanOf(lines[..|lines| - 1]), lines[|lines| - 1])
  {
  }

  // ---- the jobs ----

  lemma KeysExactly(before: seq<Line>, line: Line)
    ensures KeysJob(before, line) <==> KeyLine(before, line)
  {
    InJobsExactly(before);
  }

  lemma {:induction false} JobsInExactly(lines: seq<Line>, job: string)
    ensures job in JobsIn(lines) <==>
            exists i :: 0 <= i < |lines| && KeyLine(lines[..i], lines[i]) && lines[i].job.value == job
  {
    hide KeyLine;
    if |lines| > 0 {
      var n := |lines| - 1;
      var before := lines[..n];
      JobsInExactly(before, job);
      KeysExactly(before, lines[n]);
      assert forall i :: 0 <= i < n ==> before[..i] == lines[..i] && before[i] == lines[i];
      hide KeysJob;
      if i :| 0 <= i < n && KeyLine(before[..i], before[i]) && before[i].job.value == job {
        assert KeyLine(lines[..i], lines[i]);
      }
    }
  }

  /** The jobs found are those keyed in the jobs of some file. */
  lemma {:induction false} JobsExactly(files: seq<File>, job: string)
    ensures job in JobsOf(files) <==>
            exists f, i :: 0 <= f < |files| && 0 <= i < |files[f].lines|
                        && KeyLine(files[f].lines[..i], files[f].lines[i]) && files[f].lines[i].job.value == job
  {
    hide KeyLine;
    if |files| > 0 {
      var n := |files| - 1;
      JobsExactly(files[..n], job);
      JobsInExactly(files[n].lines, job);
      assert forall f :: 0 <= f < n ==> files[..n][f] == files[f];
    }
  }

  // ---- the stages a job names, and the jobs that run one ----

  /** A line within a job that is no key. */
  predicate WithinJob(before: seq<Line>, line: Line, name: string) {
    InJobs(before) && !line.jobsKey && !line.dedented && line.job.None? && InJob(before, name)
  }

  predicate NamesStages(before: seq<Line>, line: Line, name: string) {
    WithinJob(before, line, name) && line.stages.Some?
  }

  predicate RunsStage(before: seq<Line>, line: Line, name: string) {
    WithinJob(before, line, name) && line.runs
  }

  /** The legs of the lines of a job that name stages, in order. */
  function LegsIn(lines: seq<Line>, name: string): seq<string> {
    if |lines| == 0 then []
    else
      var before, last := lines[..|lines| - 1], lines[|lines| - 1];
      LegsIn(before, name) + if NamesStages(before, last, name) then last.stages.value else []
  }

  function LegsOf(files: seq<File>, name: string): seq<string> {
    if |files| == 0 then [] else LegsOf(files[..|files| - 1], name) + LegsIn(files[|files| - 1].lines, name)
  }

  predicate NamedIn(lines: seq<Line>, name: string) {
    exists i :: 0 <= i < |lines| && NamesStages(lines[..i], lines[i], name)
  }

  predicate RunIn(lines: seq<Line>, name: string) {
    exists i :: 0 <= i < |lines| && RunsStage(lines[..i], lines[i], name)
  }

  predicate NamedOf(files: seq<File>, name: string) {
    exists f :: 0 <= f < |files| && NamedIn(files[f].lines, name)
  }

  predicate RunOf(files: seq<File>, name: string) {
    exists f :: 0 <= f < |files| && RunIn(files[f].lines, name)
  }

  lemma LongerIn(lines: seq<Line>, name: string)
    requires |lines| > 0
    ensures var before, last := lines[..|lines| - 1], lines[|lines| - 1];
            && (NamedIn(lines, name) <==> NamedIn(before, name) || NamesStages(before, last, name))
            && (RunIn(lines, name) <==> RunIn(before, name) || RunsStage(before, last, name))
  {
    hide NamesStages, RunsStage;
    var n := |lines| - 1;
    assert forall i :: 0 <= i < n ==> lines[..n][..i] == lines[..i] && lines[..n][i] == lines[i];
    if i :| 0 <= i < n && NamesStages(lines[..n][..i], lines[..n][i], name) {
      assert NamesStages(lines[..i], lines[i], name);
    }
    if i :| 0 <= i < n && RunsStage(lines[..n][..i], lines[..n][i], name) {
      assert RunsStage(lines[..i], lines[i], name);
    }
  }

  lemma LongerOf(files: seq<File>, name: string)
    requires |files| > 0
    ensures var before, last := files[..|files| - 1], files[|files| - 1].lines;
            && (NamedOf(files, name) <==> NamedOf(before, name) || NamedIn(last, name))
            && (RunOf(files, name) <==> RunOf(before, name) || RunIn(last, name))
  {
    hide NamedIn, RunIn;
    assert forall f :: 0 <= f < |files| - 1 ==> files[..|files| - 1][f] == files[f];
  }

  /** `setdefault` and `extend`, looked up. */
  lemma {:induction false} ExtendedExactly(jobs: seq<Job>, name: string, names: seq<string>, other: string)
    ensures StagesOf(Extended(jobs, name, names), other) ==
            if other != name then StagesOf(jobs, other)
            else Some((if StagesOf(jobs, name).Some? then StagesOf(jobs, name).value else []) + names)
  {
    if |jobs| == 0 {
      assert [] + names == names;
      assert [Job(name, names)][1..] == [];
    } else if jobs[0].name != name {
      ExtendedExactly(jobs[1..], name, names, other);
    }
  }

  lemma {:induction false} RunningExactly(named: seq<Job>, running: set<string>, name: string)
    ensures StagesOf(Running(named, running), name) == if name in running then StagesOf(named, name) else None
  {
    if |named| > 0 {
      RunningExactly(named[1..], running, name);
      var rest := Running(named[1..], running);
      assert ([named[0]] + rest)[1..] == rest;
      assert [] + rest == rest;
    }
  }

  /** What a list of jobs holds of a name once `legs` are put on it, if any line names stages. */
  function Held(before: Option<seq<string>>, named: bool, legs: seq<string>): Option<seq<string>> {
    if !named then before else Some((if before.Some? then before.value else []) + legs)
  }

  lemma LineExactly(before: seq<Line>, line: Line, name: string)
    ensures var at := ScanOf(before);
            WithinJob(before, line, name) <==>
            !(line.jobsKey || !at.inJobs || line.dedented || line.job.Some? || at.job.None?) && at.job == Some(name)
  {
    InJobsExactly(before);
    InJobExactly(before, name);
  }

  lemma {:induction false} NoLegs(lines: seq<Line>, name: string)
    ensures !NamedIn(lines, name) ==> LegsIn(lines, name) == []
  {
    if |lines| > 0 {
      hide NamesStages, RunsStage, NamedIn;
      NoLegs(lines[..|lines| - 1], name);
      LongerIn(lines, name);
    }
  }

  lemma {:induction false} GatheredInExactly(start: Gathered, lines: seq<Line>, name: string)
    ensures var after := GatheredIn(start, lines);
            && StagesOf(after.named, name) ==
               Held(StagesOf(start.named, name), NamedIn(lines, name), LegsIn(lines, name))
            && (name in after.running <==> name in start.running || RunIn(lines, name))
  {
    if |lines| > 0 {
      var before, last := lines[..|lines| - 1], lines[|lines| - 1];
      GatheredInExactly(start, before, name);
      LongerIn(lines, name);
      LineExactly(before, last, name);
      NoLegs(before, name);
      hide NamedIn, RunIn, ScanOf, WithinJob;
      var at, sofar := ScanOf(before), GatheredIn(start, before);
      if at.job.Some? && last.stages.Some? {
        ExtendedExactly(sofar.named, at.job.value, last.stages.value, name);
      }
      HeldOn(StagesOf(start.named, name), NamedIn(before, name), LegsIn(before, name),
             if last.stages.Some? then last.stages.value else []);
    }
  }

  lemma HeldOn(before: Option<seq<string>>, named: bool, legs: seq<string>, more: seq<string>)
    requires !named ==> legs == []
    ensures Held(before, true, legs + more)
         == Some((if Held(before, named, legs).Some? then Held(before, named, legs).value else []) + more)
    ensures legs + [] == legs
  {
    var was := if before.Some? then before.value else [];
    assert was + (legs + more) == was + legs + more;
    assert [] + more == more;
  }

  lemma {:induction false} GatheredExactly(files: seq<File>, name: string)
    ensures StagesOf(GatheredOf(files).named, name) == if NamedOf(files, name) then Some(LegsOf(files, name)) else None
    ensures !NamedOf(files, name) ==> LegsOf(files, name) == []
    ensures name in GatheredOf(files).running <==> RunOf(files, name)
  {
    if |files| > 0 {
      var n := |files| - 1;
      GatheredExactly(files[..n], name);
      GatheredInExactly(GatheredOf(files[..n]), files[n].lines, name);
      LongerOf(files, name);
      NoLegs(files[n].lines, name);
      hide NamedIn, RunIn, NamedOf, RunOf, LegsIn;
      assert forall legs: seq<string> :: legs + [] == legs;
    }
  }

  /** A job runs stages exactly where some line within it names stages and some line within it runs one; they
      are then all the stages its lines name, in order. */
  lemma StagedExactly(files: seq<File>, name: string)
    ensures StagesOf(StagedOf(files), name)
         == if NamedOf(files, name) && RunOf(files, name) then Some(LegsOf(files, name)) else None
  {
    hide NamedOf, RunOf, GatheredOf;
    GatheredExactly(files, name);
    RunningExactly(GatheredOf(files).named, GatheredOf(files).running, name);
  }
}
