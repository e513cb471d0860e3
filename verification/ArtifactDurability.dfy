/**
 How long an acknowledged upload stays. Overlapping uploads of one artifact share
 the temporary file of its metadata, and one that fails takes the data away,
 whoever's it is by then.
 */
module ArtifactDurability {
  import opened Wrappers
  import opened ArtifactLayout
  import opened ArtifactSteps
  import FsDriver

  /** The world after more steps; None when some step was not enabled in its turn. */
  function Then(shard: string, w: World, steps: seq<Step>): Option<World>
  {
    if steps == [] then Some(w)
    else
      var before, step := Then(shard, w, steps[..|steps| - 1]), steps[|steps| - 1];
      if before.Some? && Enabled(shard, before.value, step) then Some(Next(shard, before.value, step)) else None
  }

  /** The step replaces the artifact's data or is a deletion's removal of it. */
  predicate Replaces(w: World, name: string, step: Step)
  {
    (step.RenameData? || step.RemoveData?) && step.id in w.calls && w.calls[step.id].name == name
  }

  /** The steps neither replace nor delete the artifact's data. */
  predicate Quiet(shard: string, name: string, w: World, steps: seq<Step>)
    requires Then(shard, w, steps).Some?
  {
    if steps == [] then true
    else
      var before, step := steps[..|steps| - 1], steps[|steps| - 1];
      Quiet(shard, name, w, before) && !Replaces(Then(shard, w, before).value, name, step)
  }

  /** An upload to the artifact, other than `u`, has put its data in place and is not done with its metadata. */
  ghost predicate Unsettled(name: string, calls: map<nat, Call>, u: nat)
  {
    exists v :: v in calls && v != u && Pending(name, calls[v])
  }

  predicate Pending(name: string, c: Call)
  {
    c.name == name && (c.phase.RollingBack? || (c.job.Upload? && (c.phase.InPlace? || c.phase.WritingMeta?)))
  }

  // ----- Success that lasts -----

  /** The data of upload `u` is where the artifact is, and no other upload is left that could take it away. */
  ghost predicate Holds(name: string, w: World, u: nat)
  {
    var holds := u in w.calls && w.calls[u].name == name && name in w.disk.dir &&
                 Whole(name, w.disk, w.calls, w.disk.dir[name]) && w.disk.inodes[w.disk.dir[name]].kind == DataOf(u) &&
                 !Unsettled(name, w.calls, u);
    holds
  }

  lemma RenamedHolds(shard: string, name: string, w: World, u: nat)
    requires WorldOk(name, w) && Enabled(shard, w, RenameData(u)) && w.calls[u].name == name
    requires !Unsettled(name, w.calls, u)
    ensures Holds(name, Next(shard, w, RenameData(u)), u)
  {
    var w' := Next(shard, w, RenameData(u));
    assert CallOk(name, w.disk, w.calls, u);
    RenamedData(shard, name, w, RenameData(u));
    forall v | v in w'.calls && v != u ensures !Pending(name, w'.calls[v]) {
      assert w'.calls[v] == w.calls[v];
    }
  }

  lemma EntryStays(shard: string, name: string, w: World, u: nat, step: Step)
    requires !FsDriver.IsTempName(name) && WorldOk(name, w) && Clear(name, w.calls) && Enabled(shard, w, step)
    requires Holds(name, w, u) && !Replaces(w, name, step)
    requires Next(shard, w, step).calls[u].phase != Done(false)
    ensures var w' := Next(shard, w, step); name in w'.disk.dir && w'.disk.dir[name] == w.disk.dir[name]
  {
    if !step.Start? {
      var c := w.calls[step.id];
      assert CallOk(name, w.disk, w.calls, step.id);
      SidecarsAreNotTemps(c.name);
      assert step.RollBack? && c.name == name ==> Pending(name, c);
    }
  }

  lemma PendingBefore(shard: string, name: string, w: World, step: Step, v: nat)
    requires Enabled(shard, w, step) && !Replaces(w, name, step)
    requires v in Next(shard, w, step).calls && Pending(name, Next(shard, w, step).calls[v])
    ensures v in w.calls && Pending(name, w.calls[v])
  {
  }

  lemma HoldsOn(shard: string, name: string, w: World, u: nat, step: Step)
    requires !FsDriver.IsTempName(name) && WorldOk(name, w) && Clear(name, w.calls) && Enabled(shard, w, step)
    requires Holds(name, w, u) && !Replaces(w, name, step)
    requires Next(shard, w, step).calls[u].phase != Done(false)
    ensures Holds(name, Next(shard, w, step), u)
  {
    hide Next, CanMove, Whole, WorldOk, Clear;
    var w' := Next(shard, w, step);
    EntryStays(shard, name, w, u, step);
    StepIsGentle(shard, name, w, step);
    StepIsOnward(shard, w, step);
    WholeStays(name, w.disk, w.calls, step.id, w'.disk, w'.calls, w.disk.dir[name]);
    forall v | v in w'.calls && v != u ensures !Pending(name, w'.calls[v]) {
      if Pending(name, w'.calls[v]) {
        PendingBefore(shard, name, w, step, v);
      }
    }
  }

  lemma DoneStays(shard: string, w: World, step: Step, u: nat)
    requires Enabled(shard, w, step) && u in w.calls && w.calls[u].phase.Done?
    ensures Next(shard, w, step).calls[u] == w.calls[u]
  {
  }

  lemma {:induction false} RunHolds(shard: string, name: string, w: World, u: nat, steps: seq<Step>)
    requires !FsDriver.IsTempName(name) && WorldOk(name, w) && Holds(name, w, u)
    requires Then(shard, w, steps).Some? && Quiet(shard, name, w, steps)
    requires Clear(name, Then(shard, w, steps).value.calls)
    requires u in Then(shard, w, steps).value.calls && Then(shard, w, steps).value.calls[u].phase != Done(false)
    ensures WorldOk(name, Then(shard, w, steps).value) && Holds(name, Then(shard, w, steps).value, u)
  {
    if steps != [] {
      var before, step := steps[..|steps| - 1], steps[|steps| - 1];
      var last := Then(shard, w, before).value;
      ClearBefore(shard, name, last, step);
      CallsRemain(shard, w, before, u);
      if last.calls[u].phase.Done? {
        DoneStays(shard, last, step, u);
      }
      RunHolds(shard, name, w, u, before);
      HoldsOn(shard, name, last, u, step);
      StepKeepsOk(shard, name, last, step);
    }
  }

  lemma {:induction false} CallsRemain(shard: string, w: World, steps: seq<Step>, u: nat)
    requires Then(shard, w, steps).Some? && u in w.calls
    ensures u in Then(shard, w, steps).value.calls
  {
    if steps != [] {
      CallsRemain(shard, w, steps[..|steps| - 1], u);
      StepIsOnward(shard, Then(shard, w, steps[..|steps| - 1]).value, steps[|steps| - 1]);
    }
  }

  /** After whatever steps, but for replacing and deleting, an upload that has succeeded is still there. */
  ghost predicate Lasts(shard: string, name: string, w: World, u: nat)
  {
    forall steps :: Then(shard, w, steps).Some? && Quiet(shard, name, w, steps) ==>
                      StillThere(name, Then(shard, w, steps).value, u)
  }

  /** If it has succeeded, and no other call was on a name that makes trouble of itself. */
  ghost predicate StillThere(name: string, w: World, u: nat)
  {
    Clear(name, w.calls) && u in w.calls && w.calls[u].job.Upload? && w.calls[u].phase == Done(true) ==>
      At(w.disk, name) == Some(w.calls[u].job.stream)
  }

  lemma SettledLasts(shard: string, name: string, w: World, u: nat)
    requires !FsDriver.IsTempName(name) && WorldOk(name, w) && Clear(name, w.calls)
    requires Enabled(shard, w, RenameData(u)) && w.calls[u].name == name && !Unsettled(name, w.calls, u)
    ensures Lasts(shard, name, Next(shard, w, RenameData(u)), u)
  {
    var w1 := Next(shard, w, RenameData(u));
    RenamedHolds(shard, name, w, u);
    StepKeepsOk(shard, name, w, RenameData(u));
    forall steps | Then(shard, w1, steps).Some? && Quiet(shard, name, w1, steps)
      ensures StillThere(name, Then(shard, w1, steps).value, u)
    {
      var end := Then(shard, w1, steps).value;
      if Clear(name, end.calls) && u in end.calls && end.calls[u].job.Upload? && end.calls[u].phase == Done(true) {
        RunHolds(shard, name, w1, u, steps);
      }
    }
  }

  // ----- Success that is lost -----

  /** No step fails but the renaming of metadata whose temporary file is no longer there. */
  predicate Forced(shard: string, w: World, steps: seq<Step>)
    requires Then(shard, w, steps).Some?
  {
    if steps == [] then true
    else
      var before, step := steps[..|steps| - 1], steps[|steps| - 1];
      var last := Then(shard, w, before).value;
      && Forced(shard, w, before) && !step.FailCopy? && !step.GiveUp? && !step.Start?
      && (step.FailMeta? ==>
            last.calls[step.id].phase.WritingMeta? && MetaTmpName(last.calls[step.id].name) !in last.disk.dir)
  }

  /** A world that quiet, forced steps lead to. */
  ghost predicate LeadsTo(shard: string, name: string, w: World, end: World)
  {
    exists steps :: Then(shard, w, steps) == Some(end) && Quiet(shard, name, w, steps) && Forced(shard, w, steps)
  }

  lemma StaysPut(shard: string, name: string, w: World)
    ensures LeadsTo(shard, name, w, w)
  {
    assert Then(shard, w, []) == Some(w) && Quiet(shard, name, w, []) && Forced(shard, w, []);
  }

  lemma LeadsOn(shard: string, name: string, w: World, at: World, step: Step)
    requires LeadsTo(shard, name, w, at) && Enabled(shard, at, step) && !Replaces(at, name, step)
    requires !step.FailCopy? && !step.GiveUp? && !step.Start?
    requires step.FailMeta? ==>
               at.calls[step.id].phase.WritingMeta? && MetaTmpName(at.calls[step.id].name) !in at.disk.dir
    ensures LeadsTo(shard, name, w, Next(shard, at, step))
  {
    var steps :| Then(shard, w, steps) == Some(at) && Quiet(shard, name, w, steps) && Forced(shard, w, steps);
    var longer := steps + [step];
    assert longer[..|longer| - 1] == steps;
    assert Then(shard, w, longer) == Some(Next(shard, at, step));
  }

  /** An upload with its data in place opens and renames its metadata, and succeeds. */
  lemma Succeeds(shard: string, name: string, w: World, at: World, u: nat) returns (end: World)
    requires LeadsTo(shard, name, w, at) && u in at.calls && at.calls[u] == Call(name, at.calls[u].job, InPlace)
    ensures LeadsTo(shard, name, w, end) && end.calls == at.calls[u := at.calls[u].(phase := Done(true))]
    ensures MetaTmpName(name) !in end.disk.dir
  {
    SidecarsAreNotTemps(name);
    var writing := Next(shard, at, OpenMeta(u));
    LeadsOn(shard, name, w, at, OpenMeta(u));
    assert writing.calls[u].phase.WritingMeta? && MetaTmpName(name) in writing.disk.dir;
    LeadsOn(shard, name, w, writing, RenameMeta(u));
    end := Next(shard, writing, RenameMeta(u));
  }

  /** Another that is not done then finds its own metadata gone, and removes the data. */
  lemma RollsBack(shard: string, name: string, w: World, at: World, v: nat) returns (end: World)
    requires LeadsTo(shard, name, w, at) && v in at.calls && at.calls[v].name == name
    requires at.calls[v].phase.RollingBack? ||
             (at.calls[v].job.Upload? && at.calls[v].phase.WritingMeta? && MetaTmpName(name) !in at.disk.dir)
    ensures LeadsTo(shard, name, w, end) && name !in end.disk.dir
    ensures end.calls == at.calls[v := at.calls[v].(phase := Done(false))]
  {
    var failed := at;
    if at.calls[v].phase.WritingMeta? {
      LeadsOn(shard, name, w, at, FailMeta(v));
      failed := Next(shard, at, FailMeta(v));
    }
    LeadsOn(shard, name, w, failed, RollBack(v));
    end := Next(shard, failed, RollBack(v));
  }

  /** The other may have its metadata file open by then. */
  lemma OpensMeta(shard: string, name: string, w: World, v: nat) returns (at: World)
    requires v in w.calls && Pending(name, w.calls[v])
    ensures LeadsTo(shard, name, w, at) && at.calls.Keys == w.calls.Keys
    ensures forall j :: j in w.calls && j != v ==> at.calls[j] == w.calls[j]
    ensures at.calls[v].name == name && at.calls[v].job == w.calls[v].job
    ensures at.calls[v].phase.RollingBack? || (at.calls[v].job.Upload? && at.calls[v].phase.WritingMeta?)
  {
    StaysPut(shard, name, w);
    at := w;
    if w.calls[v].phase.InPlace? {
      LeadsOn(shard, name, w, w, OpenMeta(v));
      at := Next(shard, w, OpenMeta(v));
    }
  }

  /**
   With another upload to the artifact not done, the success of this one can be lost, no one having deleted or
   replaced anything and nothing having failed but for the missing file.
   */
  lemma UnsettledIsLost(shard: string, name: string, w: World, u: nat) returns (end: World)
    requires u in w.calls && w.calls[u].name == name && w.calls[u].phase.InPlace? && Unsettled(name, w.calls, u)
    ensures LeadsTo(shard, name, w, end) && end.calls.Keys == w.calls.Keys && name !in end.disk.dir
    ensures end.calls[u] == w.calls[u].(phase := Done(true))
    ensures forall j :: j in w.calls ==> end.calls[j].name == w.calls[j].name
  {
    hide LeadsTo, Next, CanMove;
    var v :| v in w.calls && v != u && Pending(name, w.calls[v]);
    var at := OpensMeta(shard, name, w, v);
    var succeeded := Succeeds(shard, name, w, at, u);
    end := RollsBack(shard, name, w, succeeded, v);
  }

  /**
   The exact condition: once acknowledged, an upload stays until it is replaced or deleted, exactly when no other
   upload to the artifact was between putting its data in place and its end as this one put its own.
   */
  lemma SuccessLastsExactly(shard: string, name: string, before: seq<Step>, u: nat)
    requires !FsDriver.IsTempName(name) && After(shard, before).Some? && Clear(name, After(shard, before).value.calls)
    requires Enabled(shard, After(shard, before).value, RenameData(u))
    requires After(shard, before).value.calls[u].name == name
    ensures var w := After(shard, before).value;
      Lasts(shard, name, Next(shard, w, RenameData(u)), u) <==> !Unsettled(name, w.calls, u)
  {
    var w := After(shard, before).value;
    var w1 := Next(shard, w, RenameData(u));
    RunsStayOk(shard, name, before);
    if Unsettled(name, w.calls, u) {
      assert CallOk(name, w.disk, w.calls, u);
      var v :| v in w.calls && v != u && Pending(name, w.calls[v]);
      assert w1.calls[v] == w.calls[v];
      var end := UnsettledIsLost(shard, name, w1, u);
      var steps :| Then(shard, w1, steps) == Some(end) && Quiet(shard, name, w1, steps) && Forced(shard, w1, steps);
      assert Clear(name, end.calls);
      assert !StillThere(name, end, u);
    } else {
      SettledLasts(shard, name, w, u);
    }
  }

  // ----- An upload that fails before its rename, over a whole run -----

  /** The steps never put the data of upload `u` in place. */
  predicate NeverRenames(steps: seq<Step>, u: nat)
  {
    forall i :: 0 <= i < |steps| ==> steps[i] != RenameData(u)
  }

  lemma {:induction false} NotPlaced(shard: string, steps: seq<Step>, u: nat)
    requires After(shard, steps).Some? && u in After(shard, steps).value.calls && NeverRenames(steps, u)
    requires After(shard, steps).value.calls[u].job.Upload?
    ensures var p := After(shard, steps).value.calls[u].phase; !Placed(p) || p == Done(false)
  {
    var before, step := steps[..|steps| - 1], steps[|steps| - 1];
    var w := After(shard, before).value;
    StepIsOnward(shard, w, step);
    if u in w.calls {
      NotPlaced(shard, before, u);
      assert step.id == u ==> step != RenameData(u);
    }
  }

  lemma {:induction false} PrefixRuns(shard: string, steps: seq<Step>, i: nat)
    requires i <= |steps| && After(shard, steps).Some?
    ensures After(shard, steps[..i]).Some?
    ensures After(shard, steps[..i]).value.calls.Keys <= After(shard, steps).value.calls.Keys
    ensures forall j :: j in After(shard, steps[..i]).value.calls ==>
              var c, c' := After(shard, steps[..i]).value.calls[j], After(shard, steps).value.calls[j];
              c'.name == c.name && c'.job == c.job
    decreases |steps|
  {
    if i == |steps| {
      assert steps[..i] == steps;
    } else {
      var before, step := steps[..|steps| - 1], steps[|steps| - 1];
      assert before[..i] == steps[..i];
      PrefixRuns(shard, before, i);
      StepIsOnward(shard, After(shard, before).value, step);
    }
  }

  predicate NoneTempNamed(calls: map<nat, Call>)
  {
    forall id :: id in calls ==> !FsDriver.IsTempName(calls[id].name)
  }

  /** No metadata file has the empty name. */
  lemma EmptyNameIsClear(calls: map<nat, Call>)
    requires NoneTempNamed(calls)
    ensures Clear("", calls) && !FsDriver.IsTempName("")
  {
  }

  /**
   Over any run, whatever else goes on: an upload that never gets to rename its data, its reader having failed or the
   disk, changes no file at any of its steps, of its artifact or another, but its temporary one.
   */
  lemma FailedUploadNeverShows(shard: string, steps: seq<Step>, u: nat, i: nat, file: string)
    requires After(shard, steps).Some? && NoneTempNamed(After(shard, steps).value.calls)
    requires u in After(shard, steps).value.calls && After(shard, steps).value.calls[u].job.Upload?
    requires NeverRenames(steps, u) && i < |steps| && steps[i].id == u && !FsDriver.IsTempName(file)
    ensures After(shard, steps[..i]).Some? && After(shard, steps[..i + 1]).Some?
    ensures At(After(shard, steps[..i + 1]).value.disk, file) == At(After(shard, steps[..i]).value.disk, file)
  {
    PrefixRuns(shard, steps, i);
    PrefixRuns(shard, steps, i + 1);
    assert steps[..i + 1][..i] == steps[..i];
    var w, step := After(shard, steps[..i]).value, steps[i];
    assert NoneTempNamed(w.calls) by {
      forall j | j in w.calls ensures !FsDriver.IsTempName(w.calls[j].name) {
        assert After(shard, steps).value.calls[j].name == w.calls[j].name;
      }
    }
    EmptyNameIsClear(w.calls);
    RunsStayOk(shard, "", steps[..i]);
    if !step.Start? {
      NotPlaced(shard, steps[..i], u);
      if BeforeRename(step) {
        FailedUploadLeavesNoTrace(shard, "", w, step, file);
      }
    }
  }
}
