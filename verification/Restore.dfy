/** Restoring a checkpoint: new contents are written beside their targets, existing files
    moved aside, new ones moved in; and what a failure at each point leaves. */
module Restore {
  import opened Wrappers

  type Path = string

  type Bytes = seq<bv8>

  type Files = map<Path, Bytes>

  /** One file of a checkpoint, with the sibling it is first written to and the place an
      existing file is moved to. */
  datatype Entry = Entry(target: Path, bytes: Bytes, temp: Path, backup: Path)

  datatype Action = Action(target: Path, temp: Path, backup: Option<Path>)

  /** Which steps fail, by the index of the file they are for, and what a failing write
      leaves at the temporary path: nothing, a part, or all when a directory fails after it. */
  datatype Faults = Faults(
    write: nat -> bool,
    leftover: nat -> Option<Bytes>,
    stage: nat -> bool,
    commit: nat -> bool)

  datatype Outcome = Restored | WriteFailed(at: nat) | StageFailed(at: nat) | CommitFailed(at: nat)

  /** Distinct targets; temporary and backup paths distinct and new. */
  predicate Separate(entries: seq<Entry>, files: Files) {
    && (forall i, j | 0 <= i < j < |entries| ::
          entries[i].target != entries[j].target && entries[i].temp != entries[j].temp &&
              entries[i].backup != entries[j].backup)
    && (forall i, j | 0 <= i < |entries| && 0 <= j < |entries| ::
          entries[i].target != entries[j].temp && entries[i].target != entries[j].backup &&
              entries[i].temp != entries[j].backup)
    && (forall i | 0 <= i < |entries| :: entries[i].temp !in files && entries[i].backup !in files)
  }

  function Get(files: Files, p: Path): Option<Bytes> {
    if p in files then Some(files[p]) else None
  }

  predicate Used(entries: seq<Entry>, p: Path) {
    exists i | 0 <= i < |entries| :: p == entries[i].target || p == entries[i].temp || p == entries[i].backup
  }

  /** The files after a failing write. */
  function Spilled(files: Files, p: Path, leftover: Option<Bytes>): Files {
    if leftover.Some? then files[p := leftover.value] else files
  }

  // ---- the disk, file by file, as the phases advance ------------------------------------

  /** How many files have been written, moved aside and moved in, and from which file on the
      rollback has been done. */
  datatype Phase = Phase(written: nat, staged: nat, committed: nat, undone: nat)

  function TempOf(e: Entry, i: nat, ph: Phase): Option<Bytes> {
    if ph.committed <= i < ph.written && i < ph.undone then Some(e.bytes) else None
  }

  function BackupOf(orig: Files, e: Entry, i: nat, ph: Phase): Option<Bytes> {
    if i < ph.staged && i < ph.undone then Get(orig, e.target) else None
  }

  function TargetOf(orig: Files, e: Entry, i: nat, ph: Phase): Option<Bytes> {
    if i >= ph.undone then (if i < ph.staged then Get(orig, e.target) else None)
    else if i < ph.committed then Some(e.bytes)
    else if i < ph.staged then None
    else Get(orig, e.target)
  }

  predicate EntryLooks(files: Files, orig: Files, e: Entry, i: nat, ph: Phase) {
    && Get(files, e.temp) == TempOf(e, i, ph)
    && Get(files, e.backup) == BackupOf(orig, e, i, ph)
    && Get(files, e.target) == TargetOf(orig, e, i, ph)
  }

  ghost predicate Looks(files: Files, orig: Files, entries: seq<Entry>, ph: Phase) {
    && (forall i | 0 <= i < |entries| :: EntryLooks(files, orig, entries[i], i, ph))
    && (forall p | !Used(entries, p) :: Get(files, p) == Get(orig, p))
  }

  function ActionOf(orig: Files, e: Entry): Action {
    Action(e.target, e.temp, if e.target in orig then Some(e.backup) else None)
  }

  predicate ActionsOf(actions: seq<Action>, orig: Files, entries: seq<Entry>) {
    |actions| <= |entries| && forall i | 0 <= i < |actions| :: actions[i] == ActionOf(orig, entries[i])
  }

  lemma {:induction false} ActionsGrow(actions: seq<Action>, orig: Files, entries: seq<Entry>)
    ensures actions == [] ==> ActionsOf(actions, orig, entries)
    ensures ActionsOf(actions, orig, entries) && |actions| < |entries| ==>
              ActionsOf(actions + [ActionOf(orig, entries[|actions|])], orig, entries)
  {
  }

  /** Only the paths of one entry changed. */
  ghost predicate OnlyEntry(before: Files, after: Files, e: Entry) {
    forall p | p != e.target && p != e.temp && p != e.backup :: Get(after, p) == Get(before, p)
  }

  lemma {:induction false} OneEntry(before: Files, after: Files, orig: Files, entries: seq<Entry>, k: nat, ph: Phase,
                                    next: Phase)
    requires Separate(entries, orig) && k < |entries|
    requires Looks(before, orig, entries, ph) && OnlyEntry(before, after, entries[k])
    requires EntryLooks(after, orig, entries[k], k, next)
    requires forall i | 0 <= i < |entries| && i != k ::
               && TempOf(entries[i], i, next) == TempOf(entries[i], i, ph)
               && BackupOf(orig, entries[i], i, next) == BackupOf(orig, entries[i], i, ph)
               && TargetOf(orig, entries[i], i, next) == TargetOf(orig, entries[i], i, ph)
    ensures Looks(after, orig, entries, next)
  {
    hide TempOf, BackupOf, TargetOf, Get;
    forall i | 0 <= i < |entries| ensures EntryLooks(after, orig, entries[i], i, next) {
      if i != k {
        assert EntryLooks(before, orig, entries[i], i, ph);
      }
    }
    forall p | !Used(entries, p) ensures Get(after, p) == Get(orig, p) {
      assert p != entries[k].target && p != entries[k].temp && p != entries[k].backup;
    }
  }

  lemma {:induction false} LooksAt(files: Files, orig: Files, entries: seq<Entry>, k: nat, ph: Phase)
    requires Looks(files, orig, entries, ph) && k < |entries|
    ensures EntryLooks(files, orig, entries[k], k, ph)
  {
  }

  lemma {:induction false} SeparateOne(entries: seq<Entry>, orig: Files, k: nat)
    requires Separate(entries, orig) && k < |entries|
    ensures Separate([entries[k]], orig)
  {
    var one := [entries[k]];
    assert entries[k].target != entries[k].temp && entries[k].target != entries[k].backup &&
        entries[k].temp != entries[k].backup;
    forall i, j | 0 <= i < 1 && 0 <= j < 1
      ensures one[i].target != one[j].temp && one[i].target != one[j].backup && one[i].temp != one[j].backup
    {
      assert one[i] == entries[k] && one[j] == entries[k];
    }
  }

  lemma {:induction false} NothingYet(entries: seq<Entry>, orig: Files)
    requires Separate(entries, orig)
    ensures Looks(orig, orig, entries, Phase(0, 0, 0, |entries|))
  {
  }

  lemma {:induction false} WriteStep(before: Files, after: Files, orig: Files, entries: seq<Entry>, k: nat)
    requires Separate(entries, orig) && k < |entries|
    requires Looks(before, orig, entries, Phase(k, 0, 0, |entries|)) && OnlyEntry(before, after, entries[k])
    requires EntryLooks(after, orig, entries[k], k, Phase(k + 1, 0, 0, |entries|))
    ensures Looks(after, orig, entries, Phase(k + 1, 0, 0, |entries|))
  {
    hide Looks, EntryLooks, OnlyEntry, Separate;
    OneEntry(before, after, orig, entries, k, Phase(k, 0, 0, |entries|), Phase(k + 1, 0, 0, |entries|));
  }

  lemma {:induction false} StageStep(before: Files, after: Files, orig: Files, entries: seq<Entry>, k: nat)
    requires Separate(entries, orig) && k < |entries|
    requires Looks(before, orig, entries, Phase(|entries|, k, 0, |entries|)) && OnlyEntry(before, after, entries[k])
    requires EntryLooks(after, orig, entries[k], k, Phase(|entries|, k + 1, 0, |entries|))
    ensures Looks(after, orig, entries, Phase(|entries|, k + 1, 0, |entries|))
  {
    hide Looks, EntryLooks, OnlyEntry, Separate;
    OneEntry(before, after, orig, entries, k, Phase(|entries|, k, 0, |entries|), Phase(|entries|, k + 1, 0, |entries|));
  }

  lemma {:induction false} CommitStep(before: Files, after: Files, orig: Files, entries: seq<Entry>, k: nat)
    requires Separate(entries, orig) && k < |entries|
    requires Looks(before, orig, entries, Phase(|entries|, |entries|, k, |entries|)) &&
               OnlyEntry(before, after, entries[k])
    requires EntryLooks(after, orig, entries[k], k, Phase(|entries|, |entries|, k + 1, |entries|))
    ensures Looks(after, orig, entries, Phase(|entries|, |entries|, k + 1, |entries|))
  {
    hide Looks, EntryLooks, OnlyEntry, Separate;
    OneEntry(before, after, orig, entries, k, Phase(|entries|, |entries|, k, |entries|),
        Phase(|entries|, |entries|, k + 1, |entries|));
  }

  class Disk {
    var files: Files

    constructor (files: Files)
      ensures this.files == files
    {
      this.files := files;
    }

    method Exists(p: Path) returns (found: bool)
      ensures found <==> p in files
    {
      found := p in files;
    }

    method Write(p: Path, bytes: Bytes, fails: bool, leftover: Option<Bytes>) returns (ok: bool)
      modifies this
      ensures ok == !fails
      ensures files == if ok then old(files)[p := bytes] else Spilled(old(files), p, leftover)
    {
      ok := !fails;
      if ok {
        files := files[p := bytes];
      } else if leftover.Some? {
        files := files[p := leftover.value];
      }
    }

    method Rename(from: Path, to: Path, fails: bool) returns (ok: bool)
      modifies this
      ensures ok == (!fails && from in old(files))
      ensures files == if ok then (old(files) - {from})[to := old(files)[from]] else old(files)
    {
      ok := !fails && from in files;
      if ok {
        files := (files - {from})[to := files[from]];
      }
    }

    method Remove(p: Path)
      modifies this
      ensures files == old(files) - {p}
    {
      files := files - {p};
    }

    /** A new content goes to a sibling of its target. */
    method WriteOne(ghost orig: Files, e: Entry, i: nat, ghost n: nat, fails: bool, leftover: Option<Bytes>)
      returns (action: Option<Action>)
      requires Separate([e], orig) && i < n
      requires EntryLooks(files, orig, e, i, Phase(i, 0, 0, n))
      modifies this
      ensures action == if fails then None else Some(ActionOf(orig, e))
      ensures if fails then files == Spilled(old(files), e.temp, leftover)
              else EntryLooks(files, orig, e, i, Phase(i + 1, 0, 0, n)) && OnlyEntry(old(files), files, e)
    {
      assert [e][0].target != [e][0].temp && [e][0].target != [e][0].backup && [e][0].temp != [e][0].backup;
      var ok := Write(e.temp, e.bytes, fails, leftover);
      if !ok {
        return None;
      }
      var present := Exists(e.target);
      action := Some(Action(e.target, e.temp, if present then Some(e.backup) else None));
    }

    /** Every new content is written; no existing file is touched. */
    method WriteAll(entries: seq<Entry>, faults: Faults)
      returns (actions: seq<Action>, failed: Option<nat>, ghost reached: Files)
      requires Separate(entries, files)
      modifies this
      ensures ActionsOf(actions, old(files), entries) && forall j | 0 <= j < |actions| :: !faults.write(j)
      ensures Looks(reached, old(files), entries, Phase(|actions|, 0, 0, |entries|))
      ensures failed.None? ==> |actions| == |entries| && files == reached
      ensures failed.Some? ==>
                && failed.value == |actions| < |entries| && faults.write(failed.value)
                && files == Spilled(reached, entries[failed.value].temp, faults.leftover(failed.value))
    {
      hide Looks, EntryLooks, Separate, OnlyEntry, ActionsOf;
      ghost var orig := files;
      reached := files;
      NothingYet(entries, orig);
      actions := [];
      ActionsGrow([], orig, entries);
      for i := 0 to |entries|
        invariant |actions| == i && ActionsOf(actions, orig, entries)
        invariant forall j | 0 <= j < i :: !faults.write(j)
        invariant Looks(files, orig, entries, Phase(i, 0, 0, |entries|)) && files == reached
      {
        ghost var before := files;
        LooksAt(files, orig, entries, i, Phase(i, 0, 0, |entries|));
        SeparateOne(entries, orig, i);
        var action := WriteOne(orig, entries[i], i, |entries|, faults.write(i), faults.leftover(i));
        if action.None? {
          return actions, Some(i), reached;
        }
        ActionsGrow(actions, orig, entries);
        actions := actions + [action.value];
        WriteStep(before, files, orig, entries, i);
        reached := files;
      }
      failed := None;
    }

    /** An existing file is moved aside. */
    method StageOne(ghost orig: Files, ghost e: Entry, action: Action, i: nat, ghost n: nat, fails: bool)
      returns (ok: bool)
      requires Separate([e], orig) && action == ActionOf(orig, e) && i < n
      requires EntryLooks(files, orig, e, i, Phase(n, i, 0, n))
      modifies this
      ensures ok <==> e.target !in orig || !fails
      ensures if ok then EntryLooks(files, orig, e, i, Phase(n, i + 1, 0, n)) && OnlyEntry(old(files), files, e)
              else files == old(files)
    {
      assert [e][0].target != [e][0].temp && [e][0].target != [e][0].backup && [e][0].temp != [e][0].backup;
      ok := true;
      if action.backup.Some? {
        ok := Rename(action.target, action.backup.value, fails);
      }
    }

    method StageAll(ghost orig: Files, ghost entries: seq<Entry>, actions: seq<Action>, faults: Faults)
      returns (failed: Option<nat>)
      requires Separate(entries, orig) && |actions| == |entries| && ActionsOf(actions, orig, entries)
      requires Looks(files, orig, entries, Phase(|entries|, 0, 0, |entries|))
      modifies this
      ensures failed.None? ==> Looks(files, orig, entries, Phase(|entries|, |entries|, 0, |entries|))
      ensures failed.None? ==> forall i | 0 <= i < |entries| && entries[i].target in orig :: !faults.stage(i)
      ensures failed.Some? ==>
                && failed.value < |entries| && entries[failed.value].target in orig && faults.stage(failed.value)
                && forall i | 0 <= i < failed.value && entries[i].target in orig :: !faults.stage(i)
      ensures failed.Some? ==> Looks(files, orig, entries, Phase(|entries|, failed.value, 0, |entries|))
    {
      hide Looks, EntryLooks, Separate, OnlyEntry;
      ghost var n := |entries|;
      for i := 0 to |actions|
        invariant Looks(files, orig, entries, Phase(n, i, 0, n))
        invariant forall j | 0 <= j < i && entries[j].target in orig :: !faults.stage(j)
      {
        ghost var before := files;
        LooksAt(files, orig, entries, i, Phase(n, i, 0, n));
        SeparateOne(entries, orig, i);
        var ok := StageOne(orig, entries[i], actions[i], i, n, faults.stage(i));
        if !ok {
          return Some(i);
        }
        StageStep(before, files, orig, entries, i);
      }
      failed := None;
    }

    /** A new content is moved in. */
    method CommitOne(ghost orig: Files, ghost e: Entry, action: Action, i: nat, ghost n: nat, fails: bool)
      returns (ok: bool)
      requires Separate([e], orig) && action == ActionOf(orig, e) && i < n
      requires EntryLooks(files, orig, e, i, Phase(n, n, i, n))
      modifies this
      ensures ok <==> !fails
      ensures if ok then EntryLooks(files, orig, e, i, Phase(n, n, i + 1, n)) && OnlyEntry(old(files), files, e)
              else files == old(files)
    {
      assert [e][0].target != [e][0].temp && [e][0].target != [e][0].backup && [e][0].temp != [e][0].backup;
      ok := Rename(action.temp, action.target, fails);
    }

    method CommitAll(ghost orig: Files, ghost entries: seq<Entry>, actions: seq<Action>, faults: Faults)
      returns (failed: Option<nat>)
      requires Separate(entries, orig) && |actions| == |entries| && ActionsOf(actions, orig, entries)
      requires Looks(files, orig, entries, Phase(|entries|, |entries|, 0, |entries|))
      modifies this
      ensures failed.None? ==> Looks(files, orig, entries, Phase(|entries|, |entries|, |entries|, |entries|))
      ensures failed.None? ==> forall i | 0 <= i < |entries| :: !faults.commit(i)
      ensures failed.Some? ==>
                && failed.value < |entries| && faults.commit(failed.value)
                && forall i | 0 <= i < failed.value :: !faults.commit(i)
      ensures failed.Some? ==> Looks(files, orig, entries, Phase(|entries|, |entries|, failed.value, |entries|))
    {
      hide Looks, EntryLooks, Separate, OnlyEntry;
      ghost var n := |entries|;
      for i := 0 to |actions|
        invariant Looks(files, orig, entries, Phase(n, n, i, n))
        invariant forall j | 0 <= j < i :: !faults.commit(j)
      {
        ghost var before := files;
        LooksAt(files, orig, entries, i, Phase(n, n, i, n));
        SeparateOne(entries, orig, i);
        var ok := CommitOne(orig, entries[i], actions[i], i, n, faults.commit(i));
        if !ok {
          return Some(i);
        }
        CommitStep(before, files, orig, entries, i);
      }
      failed := None;
    }

    /** The rollback, from the last file to the first. */
    method RollbackRestore(ghost orig: Files, ghost entries: seq<Entry>, actions: seq<Action>, ghost staged: nat,
                           ghost committed: nat)
      requires Separate(entries, orig) && |actions| == |entries| && ActionsOf(actions, orig, entries)
      requires committed <= staged <= |entries|
      requires Looks(files, orig, entries, Phase(|entries|, staged, committed, |entries|))
      modifies this
      ensures Looks(files, orig, entries, Phase(|entries|, staged, committed, 0))
    {
      for i := |actions| downto 0
        invariant Looks(files, orig, entries, Phase(|entries|, staged, committed, i))
      {
        ghost var before := files;
        ghost var ph, next := Phase(|entries|, staged, committed, i + 1), Phase(|entries|, staged, committed, i);
        assert EntryLooks(before, orig, entries[i], i, ph);
        SeparateOne(entries, orig, i);
        UndoOne(orig, entries[i], actions[i], i, ph, next);
        OneEntry(before, files, orig, entries, i, ph, next);
      }
    }

    /** What is at the target goes, then what is at the temporary path; then the backup
        comes back. */
    method UndoOne(ghost orig: Files, ghost e: Entry, action: Action, ghost i: nat, ghost ph: Phase, ghost next: Phase)
      requires Separate([e], orig) && action == ActionOf(orig, e)
      requires EntryLooks(files, orig, e, i, ph) && ph.undone == i + 1 && next == ph.(undone := i)
      modifies this
      ensures EntryLooks(files, orig, e, i, next) && OnlyEntry(old(files), files, e)
    {
      assert [e][0].target != [e][0].temp && [e][0].target != [e][0].backup && [e][0].temp != [e][0].backup;
      var found := Exists(action.target);
      if found {
        Remove(action.target);
      }
      found := Exists(action.temp);
      if found {
        Remove(action.temp);
      }
      if action.backup.Some? {
        found := Exists(action.backup.value);
        if found {
          var ok := Rename(action.backup.value, action.target, false);
        }
      }
    }

    /** The moved-aside files go with their directory. */
    method RemoveBackups(ghost orig: Files, ghost entries: seq<Entry>, actions: seq<Action>)
      requires Separate(entries, orig) && |actions| == |entries| && ActionsOf(actions, orig, entries)
      requires Looks(files, orig, entries, Phase(|entries|, |entries|, |entries|, |entries|))
      modifies this
      ensures files == With(orig, entries)
    {
      var gone := BackupsOf(actions);
      ghost var before := files;
      files := files - gone;
      forall q
        ensures q in gone <==> exists i | 0 <= i < |entries| :: entries[i].target in orig && entries[i].backup == q
      {
        BackupsAre(orig, entries, actions, q);
      }
      forall p ensures Get(files, p) == Get(With(orig, entries), p) {
        WithoutBackups(before, orig, entries, gone, p);
      }
      SameFiles(files, With(orig, entries));
    }

    method RestoreCheckpoint(entries: seq<Entry>, faults: Faults) returns (outcome: Outcome)
      requires Separate(entries, files)
      modifies this
      ensures Possible(old(files), entries, outcome) && Blamed(old(files), entries, faults, outcome)
      ensures files == After(old(files), entries, faults, outcome)
    {
      ghost var orig := files;
      var actions, failed, reached := WriteAll(entries, faults);
      if failed.Some? {
        WriteFailure(reached, orig, entries, failed.value);
        return WriteFailed(failed.value);
      }
      failed := StageAll(orig, entries, actions, faults);
      if failed.Some? {
        RollbackRestore(orig, entries, actions, failed.value, 0);
        RolledBack(files, orig, entries, failed.value, 0);
        return StageFailed(failed.value);
      }
      failed := CommitAll(orig, entries, actions, faults);
      if failed.Some? {
        RollbackRestore(orig, entries, actions, |entries|, failed.value);
        RolledBack(files, orig, entries, |entries|, failed.value);
        NoneLost(orig, entries);
        return CommitFailed(failed.value);
      }
      RemoveBackups(orig, entries, actions);
      outcome := Restored;
    }
  }

  // ---- what is on the disk afterwards --------------------------------------------------

  /** The files with the given snapshots in place. */
  function With(files: Files, entries: seq<Entry>): Files {
    if entries == [] then files
    else With(files, entries[..|entries| - 1])[entries[|entries| - 1].target := entries[|entries| - 1].bytes]
  }

  function WithTemps(files: Files, entries: seq<Entry>): Files {
    if entries == [] then files
    else WithTemps(files, entries[..|entries| - 1])[entries[|entries| - 1].temp := entries[|entries| - 1].bytes]
  }

  /** The existing files from the `k`-th target on. */
  function LostFrom(files: Files, entries: seq<Entry>, k: nat): set<Path> {
    set i | k <= i < |entries| && entries[i].target in files :: entries[i].target
  }

  function After(orig: Files, entries: seq<Entry>, faults: Faults, outcome: Outcome): Files
    requires Possible(orig, entries, outcome)
  {
    match outcome
    case Restored => With(orig, entries)
    case WriteFailed(k) => Spilled(WithTemps(orig, entries[..k]), entries[k].temp, faults.leftover(k))
    case StageFailed(k) => orig - LostFrom(orig, entries, k)
    case CommitFailed(_) => orig
  }

  /** Only an existing file can fail to be moved aside. */
  predicate Possible(orig: Files, entries: seq<Entry>, outcome: Outcome) {
    match outcome
    case Restored => true
    case WriteFailed(k) => k < |entries|
    case StageFailed(k) => k < |entries| && entries[k].target in orig
    case CommitFailed(k) => k < |entries|
  }

  predicate NoneFails(fails: nat -> bool, n: nat) {
    forall i | 0 <= i < n :: !fails(i)
  }

  /** No existing file before the `n`-th fails to be moved aside. */
  predicate NoStageFails(orig: Files, entries: seq<Entry>, faults: Faults, n: nat)
    requires n <= |entries|
  {
    forall i | 0 <= i < n && entries[i].target in orig :: !faults.stage(i)
  }

  /** The outcome names the first step that fails. */
  predicate Blamed(orig: Files, entries: seq<Entry>, faults: Faults, outcome: Outcome)
    requires Possible(orig, entries, outcome)
  {
    var n := |entries|;
    match outcome
    case WriteFailed(k) => faults.write(k) && NoneFails(faults.write, k)
    case StageFailed(k) => NoneFails(faults.write, n) && faults.stage(k) && NoStageFails(orig, entries, faults, k)
    case CommitFailed(k) =>
      && NoneFails(faults.write, n) && NoStageFails(orig, entries, faults, n)
      && faults.commit(k) && NoneFails(faults.commit, k)
    case Restored =>
      NoneFails(faults.write, n) && NoStageFails(orig, entries, faults, n) && NoneFails(faults.commit, n)
  }

  lemma {:induction false} SameFiles(a: Files, b: Files)
    requires forall p :: Get(a, p) == Get(b, p)
    ensures a == b
  {
    forall p ensures p in a <==> p in b {
      assert Get(a, p) == Get(b, p);
    }
    forall p | p in a ensures a[p] == b[p] {
      assert Get(a, p) == Get(b, p);
    }
  }

  predicate DistinctTargets(entries: seq<Entry>) {
    forall i, j | 0 <= i < j < |entries| :: entries[i].target != entries[j].target
  }

  lemma {:induction false} WithAt(files: Files, entries: seq<Entry>, p: Path)
    requires DistinctTargets(entries)
    ensures forall i | 0 <= i < |entries| && entries[i].target == p ::
              Get(With(files, entries), p) == Some(entries[i].bytes)
    ensures (forall i | 0 <= i < |entries| :: entries[i].target != p) ==> Get(With(files, entries), p) == Get(files, p)
  {
    if entries != [] {
      var front := entries[..|entries| - 1];
      WithAt(files, front, p);
      assert forall i | 0 <= i < |front| :: front[i] == entries[i];
    }
  }

  lemma {:induction false} WithTempsAt(files: Files, entries: seq<Entry>, p: Path)
    requires forall i, j | 0 <= i < j < |entries| :: entries[i].temp != entries[j].temp
    ensures forall i | 0 <= i < |entries| && entries[i].temp == p ::
              Get(WithTemps(files, entries), p) == Some(entries[i].bytes)
    ensures (forall i | 0 <= i < |entries| :: entries[i].temp != p) ==>
              Get(WithTemps(files, entries), p) == Get(files, p)
  {
    if entries != [] {
      var front := entries[..|entries| - 1];
      WithTempsAt(files, front, p);
      assert forall i | 0 <= i < |front| :: front[i] == entries[i];
    }
  }

  function BackupsOf(actions: seq<Action>): set<Path> {
    set i | 0 <= i < |actions| && actions[i].backup.Some? :: actions[i].backup.value
  }

  lemma {:induction false} BackupsAre(orig: Files, entries: seq<Entry>, actions: seq<Action>, p: Path)
    requires |actions| == |entries| && ActionsOf(actions, orig, entries)
    ensures p in BackupsOf(actions) <==>
              exists i | 0 <= i < |entries| :: entries[i].target in orig && entries[i].backup == p
  {
    if i :| 0 <= i < |entries| && entries[i].target in orig && entries[i].backup == p {
      assert actions[i] == ActionOf(orig, entries[i]);
      assert actions[i].backup.value in BackupsOf(actions);
    }
    if p in BackupsOf(actions) {
      var i :| 0 <= i < |actions| && actions[i].backup.Some? && actions[i].backup.value == p;
      assert actions[i] == ActionOf(orig, entries[i]);
    }
  }

  lemma {:induction false} WithoutBackups(before: Files, orig: Files, entries: seq<Entry>, gone: set<Path>, p: Path)
    requires Separate(entries, orig)
    requires Looks(before, orig, entries, Phase(|entries|, |entries|, |entries|, |entries|))
    requires forall q :: q in gone <==>
               exists i | 0 <= i < |entries| :: entries[i].target in orig && entries[i].backup == q
    ensures Get(before - gone, p) == Get(With(orig, entries), p)
  {
    WithAt(orig, entries, p);
    hide With;
    if Used(entries, p) {
      var i :| 0 <= i < |entries| && (p == entries[i].target || p == entries[i].temp || p == entries[i].backup);
      LooksAt(before, orig, entries, i, Phase(|entries|, |entries|, |entries|, |entries|));
      hide Looks, Used;
      if p == entries[i].target {
        assert p !in gone;
      } else if p == entries[i].temp {
        assert p !in before;
      }
    } else {
      hide Separate;
    }
  }

  lemma {:induction false} WriteFailure(files: Files, orig: Files, entries: seq<Entry>, k: nat)
    requires Separate(entries, orig) && k < |entries|
    requires Looks(files, orig, entries, Phase(k, 0, 0, |entries|))
    ensures files == WithTemps(orig, entries[..k])
  {
    forall p ensures Get(files, p) == Get(WithTemps(orig, entries[..k]), p) {
      WithTempsAt(orig, entries[..k], p);
      if Used(entries, p) {
        var i :| 0 <= i < |entries| && (p == entries[i].target || p == entries[i].temp || p == entries[i].backup);
        assert EntryLooks(files, orig, entries[i], i, Phase(k, 0, 0, |entries|));
        if p == entries[i].temp && i < k {
          assert entries[..k][i] == entries[i];
        }
      } else {
        assert forall i | 0 <= i < k :: entries[..k][i].temp != p;
      }
    }
    SameFiles(files, WithTemps(orig, entries[..k]));
  }

  lemma {:induction false} RolledBack(files: Files, orig: Files, entries: seq<Entry>, staged: nat, committed: nat)
    requires Separate(entries, orig) && committed <= staged <= |entries|
    requires Looks(files, orig, entries, Phase(|entries|, staged, committed, 0))
    ensures files == orig - LostFrom(orig, entries, staged)
  {
    var lost := LostFrom(orig, entries, staged);
    forall p ensures Get(files, p) == Get(orig - lost, p) {
      if Used(entries, p) {
        var i :| 0 <= i < |entries| && (p == entries[i].target || p == entries[i].temp || p == entries[i].backup);
        assert EntryLooks(files, orig, entries[i], i, Phase(|entries|, staged, committed, 0));
        if p == entries[i].target && staged <= i && p in orig {
          assert p in lost;
        }
      }
    }
    SameFiles(files, orig - lost);
  }

  lemma {:induction false} NoneLost(orig: Files, entries: seq<Entry>)
    ensures orig - LostFrom(orig, entries, |entries|) == orig
  {
    assert LostFrom(orig, entries, |entries|) == {};
  }
}
