/**
 Any number of concurrent uploads, metadata patches, deletions and reads of the
 artifacts of one shard directory, one system call at a time. Directory entries
 name inodes; renaming and removing move entries, writing changes the inode
 behind a descriptor. Any call may fail at any of its steps.
 */
module ArtifactSteps {
  import opened Wrappers
  import opened Strings
  import opened ArtifactLayout
  import FsDriver

  /** Whose bytes an inode was created for: an upload's stream, or metadata. */
  datatype Kind = DataOf(upload: nat) | MetaFile

  datatype Inode = Inode(kind: Kind, bytes: Bytes)

  /** A shard directory, by file name. */
  datatype Disk = Disk(dir: map<string, nat>, inodes: seq<Inode>)

  datatype Job = Upload(stream: Bytes) | Patch | Deletion | Read

  datatype Phase =
    | Idle
    | Copying(tmp: string, fd: nat)      // temporary file created, stream being written to it
    | Copied(tmp: string, fd: nat)       // stream complete, file closed
    | CleaningUp(tmp: string)            // the copy failed
    | InPlace                            // data renamed into place
    | WritingMeta(fd: nat)
    | RollingBack                        // the metadata could not be written
    | RemovingData
    | RemovingMeta
    | Reading(fd: nat, got: Bytes)
    | Finished(got: Bytes)
    | Done(ok: bool)

  /** A call on the artifact of an id. */
  datatype Call = Call(name: string, job: Job, phase: Phase)

  datatype World = World(disk: Disk, calls: map<nat, Call>)

  datatype Step =
    | Start(id: nat, name: string, job: Job)
    | CreateTemp(id: nat, name: string)
    | Write(id: nat, n: nat)
    | CloseTemp(id: nat)
    | FailCopy(id: nat)
    | RemoveTemp(id: nat)
    | RenameData(id: nat)
    | OpenMeta(id: nat)
    | WriteMeta(id: nat, bytes: Bytes)
    | RenameMeta(id: nat)
    | FailMeta(id: nat)
    | RollBack(id: nat)
    | StatData(id: nat)
    | RemoveData(id: nat)
    | RemoveMeta(id: nat)
    | OpenData(id: nat)
    | ReadSome(id: nat, n: nat)
    | ReadEnd(id: nat)
    | GiveUp(id: nat)

  function MetaName(name: string): string { name + ".json" }
  function MetaTmpName(name: string): string { name + ".json" + ".tmp" }

  predicate CanMove(d: Disk, c: Call, step: Step)
  {
    match step
    case Start(_, _, _) => false
    case CreateTemp(_, tmp) => c.job.Upload? && c.phase.Idle? && FsDriver.IsTempName(tmp) && tmp !in d.dir
    case Write(_, n) => c.job.Upload? && c.phase.Copying? && c.phase.fd < |d.inodes| &&
                        0 < n && |d.inodes[c.phase.fd].bytes| + n <= |c.job.stream|
    case CloseTemp(_) => c.job.Upload? && c.phase.Copying? && c.phase.fd < |d.inodes| &&
        |d.inodes[c.phase.fd].bytes| == |c.job.stream|
    case FailCopy(_) => c.phase.Copying? || c.phase.Copied?
    case RemoveTemp(_) => c.phase.CleaningUp?
    case RenameData(_) => c.phase.Copied? && c.phase.tmp in d.dir
    case OpenMeta(_) => c.phase.InPlace? || (c.job.Patch? && c.phase.Idle? && MetaName(c.name) in d.dir)
    case WriteMeta(_, _) => c.phase.WritingMeta? && c.phase.fd < |d.inodes|
    case RenameMeta(_) => c.phase.WritingMeta? && MetaTmpName(c.name) in d.dir
    case FailMeta(_) => c.phase.InPlace? || c.phase.WritingMeta?
    case RollBack(_) => c.phase.RollingBack?
    case StatData(_) => c.job.Deletion? && c.phase.Idle?
    case RemoveData(_) => c.phase.RemovingData?
    case RemoveMeta(_) => c.phase.RemovingMeta?
    case OpenData(_) => c.job.Read? && c.phase.Idle? && c.name in d.dir
    case ReadSome(_, n) => c.phase.Reading? && c.phase.fd < |d.inodes| && 0 < n &&
        |c.phase.got| + n <= |d.inodes[c.phase.fd].bytes|
    case ReadEnd(_) => c.phase.Reading? && c.phase.fd < |d.inodes| && |c.phase.got| == |d.inodes[c.phase.fd].bytes|
    case GiveUp(_) => (c.phase.Idle? && !c.job.Read?) || c.phase.RemovingData? || c.phase.RemovingMeta?
  }

  /** Calls start on valid ids whose files are in this directory. */
  predicate Enabled(shard: string, w: World, step: Step)
  {
    if step.Start? then step.id !in w.calls && ValidateId(step.name).None? && Shard(step.name) == shard
    else step.id in w.calls && CanMove(w.disk, w.calls[step.id], step)
  }

  /** What a step does to the call that takes it. */
  function Moved(d: Disk, c: Call, step: Step): Phase
    requires CanMove(d, c, step)
  {
    match step
    case CreateTemp(_, tmp) => Copying(tmp, |d.inodes|)
    case Write(_, _) => c.phase
    case CloseTemp(_) => Copied(c.phase.tmp, c.phase.fd)
    case FailCopy(_) => CleaningUp(c.phase.tmp)
    case RemoveTemp(_) => Done(false)
    case RenameData(_) => InPlace
    case OpenMeta(_) => WritingMeta(if MetaTmpName(c.name) in d.dir then d.dir[MetaTmpName(c.name)] else |d.inodes|)
    case WriteMeta(_, _) => c.phase
    case RenameMeta(_) => Done(true)
    case FailMeta(_) => if c.job.Upload? then RollingBack else Done(false)
    case RollBack(_) => Done(false)
    case StatData(_) => if c.name in d.dir then RemovingData else Done(false)
    case RemoveData(_) => RemovingMeta
    case RemoveMeta(_) => Done(true)
    case OpenData(_) => Reading(d.dir[c.name], [])
    case ReadSome(_, n) => Reading(c.phase.fd, d.inodes[c.phase.fd].bytes[..|c.phase.got| + n])
    case ReadEnd(_) => Finished(c.phase.got)
    case GiveUp(_) => Done(false)
  }

  function Unlink(d: Disk, name: string): Disk
  {
    d.(dir := d.dir - {name})
  }

  function Relink(d: Disk, from: string, to: string): Disk
    requires from in d.dir
  {
    Unlink(d, from).(dir := Unlink(d, from).dir[to := d.dir[from]])
  }

  function Create(d: Disk, name: string, kind: Kind): Disk
  {
    Disk(d.dir[name := |d.inodes|], d.inodes + [Inode(kind, [])])
  }

  function SetBytes(d: Disk, fd: nat, bytes: Bytes): Disk
    requires fd < |d.inodes|
  {
    d.(inodes := d.inodes[fd := d.inodes[fd].(bytes := bytes)])
  }

  /** What a step does to the disk. Opening for writing creates the file or truncates it. */
  function MovedDisk(d: Disk, c: Call, step: Step): Disk
    requires CanMove(d, c, step)
  {
    match step
    case CreateTemp(id, tmp) => Create(d, tmp, DataOf(id))
    case Write(_, n) => SetBytes(d, c.phase.fd, c.job.stream[..|d.inodes[c.phase.fd].bytes| + n])
    case RemoveTemp(_) => Unlink(d, c.phase.tmp)
    case RenameData(_) => Relink(d, c.phase.tmp, c.name)
    case OpenMeta(_) =>
      var tmp := MetaTmpName(c.name);
      if tmp !in d.dir then Create(d, tmp, MetaFile)
      else if d.dir[tmp] < |d.inodes| then SetBytes(d, d.dir[tmp], [])
      else d
    case WriteMeta(_, bytes) => SetBytes(d, c.phase.fd, bytes)
    case RenameMeta(_) => Relink(d, MetaTmpName(c.name), MetaName(c.name))
    case RollBack(_) => Unlink(d, c.name)
    case RemoveData(_) => Unlink(d, c.name)
    case RemoveMeta(_) => Unlink(d, MetaName(c.name))
    case _ => d
  }

  function Next(shard: string, w: World, step: Step): World
    requires Enabled(shard, w, step)
  {
    if step.Start? then w.(calls := w.calls[step.id := Call(step.name, step.job, Idle)])
    else
      var c := w.calls[step.id];
      World(MovedDisk(w.disk, c, step), w.calls[step.id := c.(phase := Moved(w.disk, c, step))])
  }

  const EMPTY: World := World(Disk(map[], []), map[])

  /** The world after a sequence of steps from an empty directory; None when some step was not enabled in its turn. */
  function After(shard: string, steps: seq<Step>): Option<World>
  {
    if steps == [] then Some(EMPTY)
    else
      var before, step := After(shard, steps[..|steps| - 1]), steps[|steps| - 1];
      if before.Some? && Enabled(shard, before.value, step) then Some(Next(shard, before.value, step)) else None
  }

  // ----- What every step keeps -----

  /** An upload whose data has been renamed into place, at some time. */
  predicate Placed(p: Phase)
  {
    !p.Idle? && !p.Copying? && !p.Copied? && !p.CleaningUp?
  }

  /** The inode holds the complete stream of one upload to the name, which will not write to it again. */
  ghost predicate Whole(name: string, d: Disk, calls: map<nat, Call>, ino: nat)
  {
    var whole := ino < |d.inodes| && d.inodes[ino].kind.DataOf? && d.inodes[ino].kind.upload in calls &&
                 var c := calls[d.inodes[ino].kind.upload];
                 c.name == name && c.job.Upload? && Placed(c.phase) && d.inodes[ino].bytes == c.job.stream;
    whole
  }

  /** The inode holds metadata, or the data of another artifact that is in place. */
  ghost predicate Apart(name: string, d: Disk, calls: map<nat, Call>, ino: nat)
  {
    var apart := ino < |d.inodes| &&
                 (d.inodes[ino].kind.MetaFile? ||
                  (d.inodes[ino].kind.upload in calls &&
                   calls[d.inodes[ino].kind.upload].name != name && Placed(calls[d.inodes[ino].kind.upload].phase)));
    apart
  }

  /** The upload's own temporary file, holding the part of the stream written so far. */
  ghost predicate OwnTemp(d: Disk, id: nat, c: Call, tmp: string, fd: nat)
  {
    var own := c.job.Upload? && FsDriver.IsTempName(tmp) && fd < |d.inodes| && d.inodes[fd].kind == DataOf(id) &&
               d.inodes[fd].bytes <= c.job.stream && tmp in d.dir && d.dir[tmp] == fd;
    own
  }

  ghost predicate CallOk(name: string, d: Disk, calls: map<nat, Call>, id: nat)
    requires id in calls
  {
    var c := calls[id];
    match c.phase
    case Copying(tmp, fd) => OwnTemp(d, id, c, tmp, fd)
    case Copied(tmp, fd) => OwnTemp(d, id, c, tmp, fd) && d.inodes[fd].bytes == c.job.stream
    case CleaningUp(tmp) => c.job.Upload? && FsDriver.IsTempName(tmp) && tmp in d.dir && d.dir[tmp] < |d.inodes| &&
                            d.inodes[d.dir[tmp]].kind == DataOf(id)
    case InPlace => c.job.Upload?
    case WritingMeta(fd) => Apart(name, d, calls, fd)
    case Reading(fd, got) => c.name == name ==> Whole(name, d, calls, fd) && got <= d.inodes[fd].bytes
    case Finished(got) => c.name == name ==> OneStream(name, calls, got)
    case _ => true
  }

  /** The bytes are the complete stream of an upload to the name. */
  ghost predicate OneStream(name: string, calls: map<nat, Call>, bytes: Bytes)
  {
    exists id :: id in calls && calls[id].name == name && calls[id].job.Upload? && calls[id].job.stream == bytes
  }

  ghost predicate EntriesOk(name: string, d: Disk, calls: map<nat, Call>)
  {
    && (name in d.dir ==> Whole(name, d, calls, d.dir[name]))
    && forall n :: n in d.dir && n != name && !FsDriver.IsTempName(n) ==> Apart(name, d, calls, d.dir[n])
  }

  ghost predicate WorldOk(name: string, w: World)
  {
    EntriesOk(name, w.disk, w.calls) && forall id :: id in w.calls ==> CallOk(name, w.disk, w.calls, id)
  }

  /**
   No call is on an id of the form of a temporary file, or on one whose metadata goes where this artifact's data is.
   */
  ghost predicate Clear(name: string, calls: map<nat, Call>)
  {
    forall id :: id in calls ==>
      !FsDriver.IsTempName(calls[id].name) && name != MetaName(calls[id].name) && name != MetaTmpName(calls[id].name)
  }

  /** A metadata file's name never has the form of a temporary upload file's. */
  lemma SidecarsAreNotTemps(name: string)
    ensures !FsDriver.IsTempName(MetaName(name)) && !FsDriver.IsTempName(MetaTmpName(name))
    ensures name != MetaName(name) && name != MetaTmpName(name) && MetaName(name) != MetaTmpName(name)
  {
    var m, t := MetaName(name), MetaTmpName(name);
    assert m[|m| - 1] == 'n' && t[|t| - 1] == 'p';
  }

  /**
   What a step of call `id` may do to the disk: add inodes, change metadata and other artifacts' data, write to the
   data it is itself copying, and move entries other than the temporary files of other uploads.
   */
  ghost predicate Gentle(name: string, d: Disk, calls: map<nat, Call>, id: nat, after: Disk)
  {
    && InodesKept(name, d, calls, id, after)
    && TempsKept(d, id, after)
  }

  ghost predicate InodesKept(name: string, d: Disk, calls: map<nat, Call>, id: nat, after: Disk)
  {
    var kept := |d.inodes| <= |after.inodes| &&
                forall i :: 0 <= i < |d.inodes| ==>
                  after.inodes[i].kind == d.inodes[i].kind &&
                  (after.inodes[i] == d.inodes[i] || Apart(name, d, calls, i) ||
                   (d.inodes[i].kind == DataOf(id) && id in calls && calls[id].phase.Copying?));
    kept
  }

  ghost predicate TempsKept(d: Disk, id: nat, after: Disk)
  {
    var kept := forall n :: n in d.dir && FsDriver.IsTempName(n) && d.dir[n] < |d.inodes| &&
                            d.inodes[d.dir[n]].kind.DataOf? && d.inodes[d.dir[n]].kind.upload != id ==>
                              n in after.dir && after.dir[n] == d.dir[n];
    kept
  }

  lemma StepIsGentle(shard: string, name: string, w: World, step: Step)
    requires WorldOk(name, w) && Clear(name, w.calls) && Enabled(shard, w, step)
    ensures Gentle(name, w.disk, w.calls, step.id, Next(shard, w, step).disk)
  {
    if !step.Start? {
      SidecarsAreNotTemps(w.calls[step.id].name);
      assert CallOk(name, w.disk, w.calls, step.id);
    }
  }

  /** The calls after a step: one of them new or moved on, never back to copying. */
  ghost predicate Onward(calls: map<nat, Call>, id: nat, after: map<nat, Call>)
  {
    var onward := after.Keys == calls.Keys + {id} && (forall j :: j in calls && j != id ==> after[j] == calls[j]) &&
                  (id in calls ==> after[id].job == calls[id].job && after[id].name == calls[id].name &&
                                   (Placed(calls[id].phase) ==> Placed(after[id].phase)));
    onward
  }

  lemma StepIsOnward(shard: string, w: World, step: Step)
    requires Enabled(shard, w, step)
    ensures Onward(w.calls, step.id, Next(shard, w, step).calls)
  {
  }

  lemma WholeStays(name: string, d: Disk, calls: map<nat, Call>, id: nat, after: Disk, moved: map<nat, Call>, ino: nat)
    requires Whole(name, d, calls, ino) && InodesKept(name, d, calls, id, after) && Onward(calls, id, moved)
    ensures Whole(name, after, moved, ino) && after.inodes[ino] == d.inodes[ino]
  {
  }

  lemma ApartStays(name: string, d: Disk, calls: map<nat, Call>, id: nat, after: Disk, moved: map<nat, Call>, ino: nat)
    requires Apart(name, d, calls, ino) && InodesKept(name, d, calls, id, after) && Onward(calls, id, moved)
    ensures Apart(name, after, moved, ino)
  {
  }

  lemma OthersStayOk(name: string, d: Disk, calls: map<nat, Call>, id: nat, after: Disk, moved: map<nat, Call>, j: nat)
    requires j in calls && j != id && CallOk(name, d, calls, j)
    requires Gentle(name, d, calls, id, after) && Onward(calls, id, moved)
    ensures CallOk(name, after, moved, j)
  {
    match calls[j].phase
    case WritingMeta(fd) => ApartStays(name, d, calls, id, after, moved, fd);
    case Reading(fd, got) =>
      if calls[j].name == name {
        WholeStays(name, d, calls, id, after, moved, fd);
      }
    case Finished(got) =>
      if calls[j].name == name {
        StreamsStay(name, calls, id, moved, got);
      }
    case _ =>
  }

  lemma StreamsStay(name: string, calls: map<nat, Call>, id: nat, moved: map<nat, Call>, bytes: Bytes)
    requires OneStream(name, calls, bytes) && Onward(calls, id, moved)
    ensures OneStream(name, moved, bytes)
  {
    var j :| j in calls && calls[j].name == name && calls[j].job.Upload? && calls[j].job.stream == bytes;
    assert j in moved && moved[j].job == calls[j].job;
  }

  lemma MoverStaysOk(shard: string, name: string, w: World, step: Step)
    requires WorldOk(name, w) && Clear(name, w.calls) && Enabled(shard, w, step)
    ensures CallOk(name, Next(shard, w, step).disk, Next(shard, w, step).calls, step.id)
  {
    if !step.Start? {
      var d, c, w' := w.disk, w.calls[step.id], Next(shard, w, step);
      assert CallOk(name, d, w.calls, step.id);
      StepIsGentle(shard, name, w, step);
      StepIsOnward(shard, w, step);
      match step
      case OpenMeta(_) => OpenedMetaIsApart(shard, name, w, step);
      case WriteMeta(_, _) => ApartStays(name, d, w.calls, step.id, w'.disk, w'.calls, c.phase.fd);
      case OpenData(_) =>
        if c.name == name {
          WholeStays(name, d, w.calls, step.id, w'.disk, w'.calls, d.dir[name]);
        }
      case ReadSome(_, _) =>
        if c.name == name {
          WholeStays(name, d, w.calls, step.id, w'.disk, w'.calls, c.phase.fd);
        }
      case ReadEnd(_) =>
        if c.name == name {
          assert w'.calls[d.inodes[c.phase.fd].kind.upload].job.stream == c.phase.got;
        }
      case _ =>
    }
  }

  lemma OpenedMetaIsApart(shard: string, name: string, w: World, step: Step)
    requires WorldOk(name, w) && Clear(name, w.calls) && Enabled(shard, w, step) && step.OpenMeta?
    ensures CallOk(name, Next(shard, w, step).disk, Next(shard, w, step).calls, step.id)
  {
    var d, tmp, w' := w.disk, MetaTmpName(w.calls[step.id].name), Next(shard, w, step);
    SidecarsAreNotTemps(w.calls[step.id].name);
    StepIsGentle(shard, name, w, step);
    StepIsOnward(shard, w, step);
    if tmp in d.dir {
      ApartStays(name, d, w.calls, step.id, w'.disk, w'.calls, d.dir[tmp]);
    }
  }

  /** Where an entry that is not a temporary upload file comes from: it was there, or the step put it there. */
  lemma EntryComesFrom(shard: string, w: World, step: Step, n: string)
    requires Enabled(shard, w, step) && n in Next(shard, w, step).disk.dir && !FsDriver.IsTempName(n)
    ensures var ino := Next(shard, w, step).disk.dir[n];
      || (n in w.disk.dir && ino == w.disk.dir[n])
      || (step.RenameData? && n == w.calls[step.id].name && ino == w.disk.dir[w.calls[step.id].phase.tmp])
      || (step.OpenMeta? && n == MetaTmpName(w.calls[step.id].name) && ino == |w.disk.inodes|)
      || (step.RenameMeta? && n == MetaName(w.calls[step.id].name) &&
          ino == w.disk.dir[MetaTmpName(w.calls[step.id].name)])
  {
  }

  /** A rename puts a complete upload in place. */
  lemma RenamedData(shard: string, name: string, w: World, step: Step)
    requires WorldOk(name, w) && Enabled(shard, w, step) && step.RenameData?
    ensures var c, w' := w.calls[step.id], Next(shard, w, step);
      if c.name == name then Whole(name, w'.disk, w'.calls, w.disk.dir[c.phase.tmp])
      else Apart(name, w'.disk, w'.calls, w.disk.dir[c.phase.tmp])
  {
    assert CallOk(name, w.disk, w.calls, step.id);
  }

  lemma EntryStaysWhole(shard: string, name: string, w: World, step: Step)
    requires !FsDriver.IsTempName(name) && WorldOk(name, w) && Clear(name, w.calls) && Enabled(shard, w, step)
    requires name in Next(shard, w, step).disk.dir
    ensures var w' := Next(shard, w, step); Whole(name, w'.disk, w'.calls, w'.disk.dir[name])
  {
    var w' := Next(shard, w, step);
    EntryComesFrom(shard, w, step, name);
    if name in w.disk.dir && w'.disk.dir[name] == w.disk.dir[name] {
      StepIsGentle(shard, name, w, step);
      StepIsOnward(shard, w, step);
      WholeStays(name, w.disk, w.calls, step.id, w'.disk, w'.calls, w.disk.dir[name]);
    } else {
      RenamedData(shard, name, w, step);
    }
  }

  lemma EntriesStayApart(shard: string, name: string, w: World, step: Step, n: string)
    requires WorldOk(name, w) && Clear(name, w.calls) && Enabled(shard, w, step)
    requires n in Next(shard, w, step).disk.dir && n != name && !FsDriver.IsTempName(n)
    ensures var w' := Next(shard, w, step); Apart(name, w'.disk, w'.calls, w'.disk.dir[n])
  {
    var d, w' := w.disk, Next(shard, w, step);
    EntryComesFrom(shard, w, step, n);
    StepIsGentle(shard, name, w, step);
    StepIsOnward(shard, w, step);
    if n in d.dir && w'.disk.dir[n] == d.dir[n] {
      ApartStays(name, d, w.calls, step.id, w'.disk, w'.calls, d.dir[n]);
    } else if step.RenameData? {
      RenamedData(shard, name, w, step);
    } else if step.RenameMeta? {
      SidecarsAreNotTemps(w.calls[step.id].name);
      ApartStays(name, d, w.calls, step.id, w'.disk, w'.calls, d.dir[MetaTmpName(w.calls[step.id].name)]);
    }
  }

  /** Every system call of every call on every artifact of the directory keeps the invariant of one of them. */
  lemma StepKeepsOk(shard: string, name: string, w: World, step: Step)
    requires !FsDriver.IsTempName(name) && WorldOk(name, w) && Clear(name, w.calls) && Enabled(shard, w, step)
    ensures WorldOk(name, Next(shard, w, step))
  {
    var w' := Next(shard, w, step);
    StepIsGentle(shard, name, w, step);
    StepIsOnward(shard, w, step);
    if name in w'.disk.dir {
      EntryStaysWhole(shard, name, w, step);
    }
    forall n | n in w'.disk.dir && n != name && !FsDriver.IsTempName(n)
      ensures Apart(name, w'.disk, w'.calls, w'.disk.dir[n])
    {
      EntriesStayApart(shard, name, w, step, n);
    }
    forall id | id in w'.calls ensures CallOk(name, w'.disk, w'.calls, id) {
      if id == step.id {
        MoverStaysOk(shard, name, w, step);
      } else {
        OthersStayOk(name, w.disk, w.calls, step.id, w'.disk, w'.calls, id);
      }
    }
  }

  lemma ClearBefore(shard: string, name: string, w: World, step: Step)
    requires Enabled(shard, w, step) && Clear(name, Next(shard, w, step).calls)
    ensures Clear(name, w.calls)
  {
    StepIsOnward(shard, w, step);
    var calls' := Next(shard, w, step).calls;
    forall id | id in w.calls
      ensures !FsDriver.IsTempName(w.calls[id].name) && name != MetaName(w.calls[id].name) &&
                name != MetaTmpName(w.calls[id].name)
    {
      assert id in calls' && calls'[id].name == w.calls[id].name;
    }
  }

  lemma {:induction false} RunsStayOk(shard: string, name: string, steps: seq<Step>)
    requires !FsDriver.IsTempName(name) && After(shard, steps).Some? && Clear(name, After(shard, steps).value.calls)
    ensures WorldOk(name, After(shard, steps).value)
  {
    if steps != [] {
      var before, step := steps[..|steps| - 1], steps[|steps| - 1];
      ClearBefore(shard, name, After(shard, before).value, step);
      RunsStayOk(shard, name, before);
      StepKeepsOk(shard, name, After(shard, before).value, step);
    }
  }

  // ----- Atomicity -----

  /** At the data path there is nothing, or the complete stream of one single upload to it. */
  ghost predicate NothingOrOneUpload(name: string, w: World)
  {
    name in w.disk.dir ==>
      w.disk.dir[name] < |w.disk.inodes| && OneStream(name, w.calls, w.disk.inodes[w.disk.dir[name]].bytes)
  }

  /** Every reader of the artifact that finished got one complete upload to it. */
  ghost predicate ReadersGotOneUpload(name: string, w: World)
  {
    forall id :: id in w.calls && w.calls[id].name == name && w.calls[id].phase.Finished? ==>
      OneStream(name, w.calls, w.calls[id].phase.got)
  }

  /**
   After any interleaving of calls on any artifacts of the directory, the data path is absent or holds one complete
   upload, and every reader that finished got one complete upload, even when the file was replaced or removed while it
   read: as long as no call is on a temp-named id, or on one whose metadata file is this artifact.
   */
  lemma UploadsAreAtomic(shard: string, name: string, steps: seq<Step>)
    requires !FsDriver.IsTempName(name) && After(shard, steps).Some? && Clear(name, After(shard, steps).value.calls)
    ensures NothingOrOneUpload(name, After(shard, steps).value) && ReadersGotOneUpload(name, After(shard, steps).value)
  {
    RunsStayOk(shard, name, steps);
    var w := After(shard, steps).value;
    if name in w.disk.dir {
      var u := w.disk.inodes[w.disk.dir[name]].kind.upload;
      assert w.calls[u].job.stream == w.disk.inodes[w.disk.dir[name]].bytes;
    }
    forall id | id in w.calls && w.calls[id].name == name && w.calls[id].phase.Finished?
      ensures OneStream(name, w.calls, w.calls[id].phase.got)
    {
      assert CallOk(name, w.disk, w.calls, id);
    }
  }

  /** Some interleaving of calls on artifacts of the directory leads to this. */
  ghost predicate Reachable(shard: string, w: World)
  {
    exists steps :: After(shard, steps) == Some(w)
  }

  /** The artifact is atomic whatever is called on the artifacts that share its directory. */
  ghost predicate AlwaysAtomic(name: string)
  {
    forall w :: Reachable(Shard(name), w) ==> NothingOrOneUpload(name, w)
  }

  /** The metadata file of a valid id, or its temporary file, in the directory of that id. */
  predicate IsSidecarName(name: string)
  {
    || (EndsWith(name, ".json") && |name| >= 7 && ValidateId(name[..|name| - 5]).None?)
    || (EndsWith(name, ".json.tmp") && |name| >= 11 && ValidateId(name[..|name| - 9]).None?)
  }

  /** The shard of temporary upload files, ".put-1" for one. */
  const TEMP_SHARD := ".p"

  lemma TempNamesShareAShard(name: string)
    requires FsDriver.IsTempName(name)
    ensures Shard(name) == TEMP_SHARD
  {
    assert name[..5][..2] == name[..2];
  }

  lemma SidecarNameOf(name: string, id: string)
    requires ValidateId(id).None? && Shard(id) == Shard(name) && (name == MetaName(id) || name == MetaTmpName(id))
    ensures IsSidecarName(name)
  {
    SidecarShard(name, id);
    if name == MetaName(id) {
      assert name[|id|..] == ".json" && name[..|id|] == id;
    } else {
      assert id + ".json" + ".tmp" == id + ".json.tmp";
      assert name[|id|..] == ".json.tmp" && name[..|id|] == id;
    }
  }

  lemma {:induction false} CallsAreHere(shard: string, steps: seq<Step>, id: nat)
    requires After(shard, steps).Some? && id in After(shard, steps).value.calls
    ensures ValidateId(After(shard, steps).value.calls[id].name).None? &&
              Shard(After(shard, steps).value.calls[id].name) == shard
  {
    var before, step := steps[..|steps| - 1], steps[|steps| - 1];
    if id in After(shard, before).value.calls {
      CallsAreHere(shard, before, id);
    }
  }

  lemma OrdinaryNamesAreAtomic(name: string)
    requires Shard(name) != TEMP_SHARD && !IsSidecarName(name)
    ensures AlwaysAtomic(name)
  {
    var shard := Shard(name);
    if FsDriver.IsTempName(name) {
      TempNamesShareAShard(name);
    }
    forall w | Reachable(shard, w) ensures NothingOrOneUpload(name, w) {
      var steps :| After(shard, steps) == Some(w);
      var calls := w.calls;
      forall id | id in calls
        ensures !FsDriver.IsTempName(calls[id].name) && name != MetaName(calls[id].name) &&
                  name != MetaTmpName(calls[id].name)
      {
        CallsAreHere(shard, steps, id);
        if FsDriver.IsTempName(calls[id].name) {
          TempNamesShareAShard(calls[id].name);
        }
        if name == MetaName(calls[id].name) || name == MetaTmpName(calls[id].name) {
          SidecarNameOf(name, calls[id].name);
        }
      }
      UploadsAreAtomic(shard, name, steps);
    }
  }

  // ----- Runs that tear -----

  lemma Begins(shard: string)
    ensures Reachable(shard, EMPTY)
  {
    assert After(shard, []) == Some(EMPTY);
  }

  lemma Moves(shard: string, w: World, step: Step, w': World)
    requires Reachable(shard, w) && Enabled(shard, w, step)
    requires var next := Next(shard, w, step);
      next.disk.dir == w'.disk.dir && next.disk.inodes == w'.disk.inodes && next.calls == w'.calls
    ensures Reachable(shard, w')
  {
    var steps :| After(shard, steps) == Some(w);
    assert (steps + [step])[..|steps|] == steps;
    assert After(shard, steps + [step]) == Some(w');
  }

  /** The file being written can be the artifact itself. */
  lemma TempNamesTear(name: string)
    requires ValidateId(name).None? && FsDriver.IsTempName(name)
    ensures !AlwaysAtomic(name)
  {
    var shard := Shard(name);
    var w1 := OneUpload(Disk(map[], []), name, [0], Idle);
    var w2 := OneUpload(OneFile(name, []), name, [0], Copying(name, 0));
    Begins(shard);
    Moves(shard, EMPTY, Start(0, name, Upload([0])), w1);
    Moves(shard, w1, CreateTemp(0, name), w2);
    assert !NothingOrOneUpload(name, w2);
  }

  /** A temporary file's name that is a valid id as well, ".put-1" for one. */
  predicate IsTempId(tmp: string)
  {
    FsDriver.IsTempName(tmp) && ValidateId(tmp).None? && Shard(tmp) == TEMP_SHARD
  }

  lemma TempIdsExist()
    ensures IsTempId(".put-1")
  {
    var name := ".put-1";
    assert name[5..] == "1" && FsDriver.IsUint32("1");
    assert name[..5] == ".put-" && name[..2] == ".p";
    assert forall i :: 0 <= i < |name| ==> NameChar(name[i]);
  }

  function OneUpload(d: Disk, id: string, stream: Bytes, phase: Phase): World
  {
    World(d, map[0 := Call(id, Upload(stream), phase)])
  }

  function OneFile(name: string, bytes: Bytes): Disk
  {
    Disk(map[name := 0], [Inode(DataOf(0), bytes)])
  }

  lemma UploadToTemp(shard: string, id: string, tmp: string)
    requires ValidateId(id).None? && Shard(id) == shard && IsTempId(tmp)
    ensures Reachable(shard, OneUpload(OneFile(tmp, []), id, [], Copying(tmp, 0)))
  {
    var w1 := OneUpload(Disk(map[], []), id, [], Idle);
    Begins(shard);
    Moves(shard, EMPTY, Start(0, id, Upload([])), w1);
    Moves(shard, w1, CreateTemp(0, tmp), OneUpload(OneFile(tmp, []), id, [], Copying(tmp, 0)));
  }

  lemma UploadToPlace(shard: string, id: string, tmp: string)
    requires ValidateId(id).None? && Shard(id) == shard && shard != TEMP_SHARD && IsTempId(tmp)
    ensures Reachable(shard, OneUpload(OneFile(id, []), id, [], InPlace))
  {
    UploadToTemp(shard, id, tmp);
    var copied := OneUpload(OneFile(tmp, []), id, [], Copied(tmp, 0));
    Moves(shard, OneUpload(OneFile(tmp, []), id, [], Copying(tmp, 0)), CloseTemp(0), copied);
    Moves(shard, copied, RenameData(0), OneUpload(OneFile(id, []), id, [], InPlace));
  }

  function WithMeta(id: string, file: string, phase: Phase): World
  {
    OneUpload(Disk(map[id := 0, file := 1], [Inode(DataOf(0), []), Inode(MetaFile, [])]), id, [], phase)
  }

  lemma UploadToMeta(shard: string, id: string)
    requires ValidateId(id).None? && Shard(id) == shard && shard != TEMP_SHARD
    ensures Reachable(shard, WithMeta(id, MetaTmpName(id), WritingMeta(1)))
    ensures Reachable(shard, WithMeta(id, MetaName(id), Done(true)))
  {
    TempIdsExist();
    UploadToPlace(shard, id, ".put-1");
    SidecarsAreNotTemps(id);
    var writing := WithMeta(id, MetaTmpName(id), WritingMeta(1));
    Moves(shard, OneUpload(OneFile(id, []), id, [], InPlace), OpenMeta(0), writing);
    Moves(shard, writing, RenameMeta(0), WithMeta(id, MetaName(id), Done(true)));
  }

  /** Another artifact's metadata can land where this one's data is. */
  lemma SidecarNamesTear(name: string, id: string)
    requires ValidateId(id).None? && Shard(id) == Shard(name) != TEMP_SHARD &&
               (name == MetaName(id) || name == MetaTmpName(id))
    ensures !AlwaysAtomic(name)
  {
    SidecarsAreNotTemps(id);
    UploadToMeta(Shard(name), id);
    var w := if name == MetaName(id) then WithMeta(id, name, Done(true)) else WithMeta(id, name, WritingMeta(1));
    assert name in w.disk.dir && w.calls.Keys == {0} && w.calls[0].name != name;
    assert !NothingOrOneUpload(name, w);
  }

  /**
   Two uploads to an artifact, and between them a deletion of the artifact named as the first one's temporary file.
   */
  function ThreeCalls(d: Disk, name: string, tmp: string, first: Phase, deletion: Phase, second: Phase): World
  {
    World(d, map[0 := Call(name, Upload([0]), first), 1 := Call(tmp, Deletion, deletion),
                 2 := Call(name, Upload([0]), second)])
  }

  predicate TempScene(name: string, tmp: string)
  {
    ValidateId(name).None? && !FsDriver.IsTempName(name) && Shard(name) == TEMP_SHARD && IsTempId(tmp)
  }

  lemma ThreeStart(name: string, tmp: string)
    requires TempScene(name, tmp)
    ensures Reachable(TEMP_SHARD, ThreeCalls(Disk(map[], []), name, tmp, Idle, Idle, Idle))
  {
    var w1 := OneUpload(Disk(map[], []), name, [0], Idle);
    var w2 := World(w1.disk, w1.calls[1 := Call(tmp, Deletion, Idle)]);
    Begins(TEMP_SHARD);
    Moves(TEMP_SHARD, EMPTY, Start(0, name, Upload([0])), w1);
    Moves(TEMP_SHARD, w1, Start(1, tmp, Deletion), w2);
    Moves(TEMP_SHARD, w2, Start(2, name, Upload([0])), ThreeCalls(Disk(map[], []), name, tmp, Idle, Idle, Idle));
  }

  lemma TempCreated(name: string, tmp: string)
    requires TempScene(name, tmp)
    ensures Reachable(TEMP_SHARD, ThreeCalls(OneFile(tmp, []), name, tmp, Copying(tmp, 0), Idle, Idle))
  {
    ThreeStart(name, tmp);
    var created := ThreeCalls(OneFile(tmp, []), name, tmp, Copying(tmp, 0), Idle, Idle);
    Moves(TEMP_SHARD, ThreeCalls(Disk(map[], []), name, tmp, Idle, Idle, Idle), CreateTemp(0, tmp), created);
  }

  lemma StreamWritten(name: string, tmp: string)
    requires TempScene(name, tmp)
    ensures Reachable(TEMP_SHARD, ThreeCalls(OneFile(tmp, [0]), name, tmp, Copying(tmp, 0), Idle, Idle))
  {
    TempCreated(name, tmp);
    var created := ThreeCalls(OneFile(tmp, []), name, tmp, Copying(tmp, 0), Idle, Idle);
    assert [0][..1] == [0];
    Moves(TEMP_SHARD, created, Write(0, 1), ThreeCalls(OneFile(tmp, [0]), name, tmp, Copying(tmp, 0), Idle, Idle));
  }

  lemma StreamClosed(name: string, tmp: string)
    requires TempScene(name, tmp)
    ensures Reachable(TEMP_SHARD, ThreeCalls(OneFile(tmp, [0]), name, tmp, Copied(tmp, 0), Idle, Idle))
  {
    StreamWritten(name, tmp);
    var d := OneFile(tmp, [0]);
    var copied := ThreeCalls(d, name, tmp, Copied(tmp, 0), Idle, Idle);
    Moves(TEMP_SHARD, ThreeCalls(d, name, tmp, Copying(tmp, 0), Idle, Idle), CloseTemp(0), copied);
  }

  /** A complete upload in its temporary file, and a deletion that has found that file. */
  lemma TempFound(name: string, tmp: string)
    requires TempScene(name, tmp)
    ensures Reachable(TEMP_SHARD, ThreeCalls(OneFile(tmp, [0]), name, tmp, Copied(tmp, 0), RemovingData, Idle))
  {
    StreamClosed(name, tmp);
    var d := OneFile(tmp, [0]);
    var found := ThreeCalls(d, name, tmp, Copied(tmp, 0), RemovingData, Idle);
    Moves(TEMP_SHARD, ThreeCalls(d, name, tmp, Copied(tmp, 0), Idle, Idle), StatData(1), found);
  }

  /** The file deleted, and its name taken by the second upload. */
  lemma TempRetaken(name: string, tmp: string)
    requires TempScene(name, tmp)
    ensures var d := Disk(map[tmp := 1], [Inode(DataOf(0), [0]), Inode(DataOf(2), [])]);
            Reachable(TEMP_SHARD, ThreeCalls(d, name, tmp, Copied(tmp, 0), RemovingMeta, Copying(tmp, 1)))
  {
    TempFound(name, tmp);
    var d := Disk(map[tmp := 1], [Inode(DataOf(0), [0]), Inode(DataOf(2), [])]);
    var gone := ThreeCalls(Disk(map[], [Inode(DataOf(0), [0])]), name, tmp, Copied(tmp, 0), RemovingMeta, Idle);
    Moves(TEMP_SHARD, ThreeCalls(OneFile(tmp, [0]), name, tmp, Copied(tmp, 0), RemovingData, Idle), RemoveData(1),
          gone);
    Moves(TEMP_SHARD, gone, CreateTemp(2, tmp),
          ThreeCalls(d, name, tmp, Copied(tmp, 0), RemovingMeta, Copying(tmp, 1)));
  }

  /** The second upload's file, being written still, where the artifact is. */
  function Torn(name: string, tmp: string): World
  {
    var d := Disk(map[name := 1], [Inode(DataOf(0), [0]), Inode(DataOf(2), [])]);
    ThreeCalls(d, name, tmp, InPlace, RemovingMeta, Copying(tmp, 1))
  }

  lemma PartIsRenamed(name: string, tmp: string)
    requires TempScene(name, tmp)
    ensures Reachable(TEMP_SHARD, Torn(name, tmp))
  {
    TempRetaken(name, tmp);
    var d := Disk(map[tmp := 1], [Inode(DataOf(0), [0]), Inode(DataOf(2), [])]);
    var taken := ThreeCalls(d, name, tmp, Copied(tmp, 0), RemovingMeta, Copying(tmp, 1));
    Moves(TEMP_SHARD, taken, RenameData(0), Torn(name, tmp));
  }

  lemma TornIsNotOneUpload(name: string, tmp: string)
    ensures !NothingOrOneUpload(name, Torn(name, tmp))
  {
    var w := Torn(name, tmp);
    assert w.disk.inodes[w.disk.dir[name]].bytes == [];
    assert forall id :: id in w.calls && w.calls[id].job.Upload? ==> w.calls[id].job.stream == [0];
  }

  /**
   In the shard of the temporary files an artifact can have the name of one. Deleting it lets a second upload create
   its temporary file under the same name, and the first then renames that, still being written, into place.
   */
  lemma TempShardTears(name: string, tmp: string)
    requires TempScene(name, tmp)
    ensures !AlwaysAtomic(name)
  {
    PartIsRenamed(name, tmp);
    TornIsNotOneUpload(name, tmp);
  }

  lemma SidecarOwner(name: string) returns (id: string)
    requires IsSidecarName(name)
    ensures ValidateId(id).None? && Shard(id) == Shard(name) && (name == MetaName(id) || name == MetaTmpName(id))
  {
    if EndsWith(name, ".json") && |name| >= 7 && ValidateId(name[..|name| - 5]).None? {
      id := name[..|name| - 5];
      assert name == id + ".json";
    } else {
      id := name[..|name| - 9];
      assert ".json" + ".tmp" == ".json.tmp";
      assert name == id + ".json" + ".tmp";
    }
    assert id[..2] == name[..2];
  }

  /**
   The exact condition: an artifact is atomic, whatever is called on the artifacts that share its directory, exactly
   when it is not in the shard of the temporary files and not named as the metadata file of another.
   */
  lemma AtomicExactly(name: string)
    requires ValidateId(name).None?
    ensures AlwaysAtomic(name) <==> Shard(name) != TEMP_SHARD && !IsSidecarName(name)
  {
    if Shard(name) == TEMP_SHARD {
      if FsDriver.IsTempName(name) {
        TempNamesTear(name);
      } else {
        TempIdsExist();
        TempShardTears(name, ".put-1");
      }
    } else if IsSidecarName(name) {
      var id := SidecarOwner(name);
      SidecarNamesTear(name, id);
    } else {
      OrdinaryNamesAreAtomic(name);
    }
  }

  /** The steps of an upload up to and including its giving up on a failed copy. */
  predicate BeforeRename(step: Step)
  {
    step.CreateTemp? || step.Write? || step.CloseTemp? || step.FailCopy? || step.RemoveTemp?
  }

  /** What is at a name: nothing, or the bytes behind it. */
  function At(d: Disk, name: string): Option<Bytes>
  {
    if name in d.dir && d.dir[name] < |d.inodes| then Some(d.inodes[d.dir[name]].bytes) else None
  }

  /**
   An upload that has not renamed its data, one whose reader fails midway included, has changed no file of any
   artifact: neither data nor metadata, its own or another's.
   */
  lemma FailedUploadLeavesNoTrace(shard: string, name: string, w: World, step: Step, file: string)
    requires WorldOk(name, w) && Clear(name, w.calls) && Enabled(shard, w, step) && BeforeRename(step)
    requires !FsDriver.IsTempName(file)
    ensures At(Next(shard, w, step).disk, file) == At(w.disk, file)
  {
    assert CallOk(name, w.disk, w.calls, step.id);
    if file in w.disk.dir {
      assert file == name ==> Whole(name, w.disk, w.calls, w.disk.dir[name]);
      assert file != name ==> Apart(name, w.disk, w.calls, w.disk.dir[file]);
    }
  }
}
