/** What a restore means for the files on the disk. */
module RestoreFacts {
  import opened Wrappers
  import opened Restore

  /** On success every checkpoint path holds its snapshot and no other path has changed. */
  lemma {:induction false} RestoredHoldsSnapshots(orig: Files, entries: seq<Entry>, faults: Faults)
    requires Separate(entries, orig)
    ensures var after := After(orig, entries, faults, Restored);
            && (forall i | 0 <= i < |entries| :: Get(after, entries[i].target) == Some(entries[i].bytes))
            && (forall p | forall i | 0 <= i < |entries| :: entries[i].target != p :: Get(after, p) == Get(orig, p))
  {
    forall i | 0 <= i < |entries| ensures Get(With(orig, entries), entries[i].target) == Some(entries[i].bytes) {
      WithAt(orig, entries, entries[i].target);
    }
    forall p | forall i | 0 <= i < |entries| :: entries[i].target != p
      ensures Get(With(orig, entries), p) == Get(orig, p)
    {
      WithAt(orig, entries, p);
    }
  }

  /** Every write succeeds, and moving some existing file aside fails. */
  predicate StageBreaks(orig: Files, entries: seq<Entry>, faults: Faults) {
    && NoneFails(faults.write, |entries|)
    && exists i | 0 <= i < |entries| :: entries[i].target in orig && faults.stage(i)
  }

  predicate Survives(orig: Files, after: Files, p: Path) {
    Get(after, p) == Get(orig, p)
  }

  /** Moving an existing file at or before this one aside fails. */
  predicate BreaksBy(orig: Files, entries: seq<Entry>, faults: Faults, j: nat)
    requires j < |entries|
  {
    exists i | 0 <= i <= j :: entries[i].target in orig && faults.stage(i)
  }

  lemma {:induction false} OutcomeStageFailed(orig: Files, entries: seq<Entry>, faults: Faults, outcome: Outcome)
    requires Possible(orig, entries, outcome) && Blamed(orig, entries, faults, outcome)
    ensures outcome.StageFailed? <==> StageBreaks(orig, entries, faults)
  {
  }

  lemma {:induction false} WritesSpare(orig: Files, entries: seq<Entry>, faults: Faults, k: nat, p: Path)
    requires Separate(entries, orig) && k < |entries| && p in orig
    ensures Survives(orig, After(orig, entries, faults, WriteFailed(k)), p)
  {
    WithTempsAt(orig, entries[..k], p);
  }

  /** A restore that fails leaves every file as it was exactly when it is not the case that
      all writes succeed and moving some existing file aside fails. */
  lemma {:induction false} FailureUndoneExactly(orig: Files, entries: seq<Entry>, faults: Faults, outcome: Outcome)
    requires Separate(entries, orig)
    requires Possible(orig, entries, outcome) && Blamed(orig, entries, faults, outcome) && !outcome.Restored?
    ensures (forall p | p in orig :: Survives(orig, After(orig, entries, faults, outcome), p))
              <==> !StageBreaks(orig, entries, faults)
  {
    OutcomeStageFailed(orig, entries, faults, outcome);
    match outcome
    case StageFailed(k) =>
      assert entries[k].target in LostFrom(orig, entries, k);
      assert !Survives(orig, After(orig, entries, faults, outcome), entries[k].target);
    case WriteFailed(k) =>
      forall p | p in orig ensures Survives(orig, After(orig, entries, faults, outcome), p) {
        WritesSpare(orig, entries, faults, k, p);
      }
    case CommitFailed(_) =>
  }

  /** Then the files lost are the existing targets from the first that cannot be moved on. */
  lemma {:induction false} LostFiles(orig: Files, entries: seq<Entry>, faults: Faults, outcome: Outcome, p: Path)
    requires Separate(entries, orig) && StageBreaks(orig, entries, faults)
    requires Possible(orig, entries, outcome) && Blamed(orig, entries, faults, outcome)
    ensures p in orig && p !in After(orig, entries, faults, outcome) <==>
              exists j | 0 <= j < |entries| ::
                entries[j].target == p && p in orig && BreaksBy(orig, entries, faults, j)
  {
    OutcomeStageFailed(orig, entries, faults, outcome);
    var k := outcome.at;
    forall j | 0 <= j < |entries| ensures BreaksBy(orig, entries, faults, j) <==> k <= j {
    }
    if j :| k <= j < |entries| && entries[j].target == p && p in orig {
      assert p in LostFrom(orig, entries, k);
    }
  }

  /** The disk as a whole is as it was after a failed commit, and after a first write that
      fails and leaves nothing. */
  lemma {:induction false} DiskUnchanged(orig: Files, entries: seq<Entry>, faults: Faults, outcome: Outcome)
    requires Separate(entries, orig)
    requires Possible(orig, entries, outcome) && Blamed(orig, entries, faults, outcome) && !outcome.Restored?
    ensures After(orig, entries, faults, outcome) == orig <==>
              || (NoneFails(faults.write, |entries|) && !StageBreaks(orig, entries, faults))
              || (faults.write(0) && faults.leftover(0).None?)
  {
    OutcomeStageFailed(orig, entries, faults, outcome);
    match outcome
    case StageFailed(k) => assert entries[k].target in LostFrom(orig, entries, k);
    case WriteFailed(k) =>
      if k > 0 {
        WithTempsAt(orig, entries[..k], entries[0].temp);
        assert entries[..k][0] == entries[0];
        assert entries[k].temp != entries[0].temp;
      }
    case CommitFailed(_) =>
  }

  /** The disk after a failure, path by path: after a failed write the new contents written before
      and what that write left, after a failed move aside all but the lost files, and nothing else
      that was not there. */
  lemma {:induction false} FailureLeaves(orig: Files, entries: seq<Entry>, faults: Faults, outcome: Outcome, p: Path)
    requires Separate(entries, orig)
    requires Possible(orig, entries, outcome) && Blamed(orig, entries, faults, outcome) && !outcome.Restored?
    ensures var found := Get(After(orig, entries, faults, outcome), p);
            match outcome
            case WriteFailed(k) =>
              && (forall i | 0 <= i < k && entries[i].temp == p :: found == Some(entries[i].bytes))
              && (entries[k].temp == p ==> found == faults.leftover(k))
              && ((forall i | 0 <= i <= k :: entries[i].temp != p) ==> found == Get(orig, p))
            case StageFailed(k) =>
              found == if exists i :: k <= i < |entries| && entries[i].target == p then None else Get(orig, p)
            case _ => found == Get(orig, p)
  {
    match outcome
    case WriteFailed(k) =>
      var front := entries[..k];
      WithTempsAt(orig, front, p);
      assert forall i | 0 <= i < k :: front[i] == entries[i];
      if entries[k].temp == p {
        assert p !in orig;
      }
    case StageFailed(k) =>
      if i :| k <= i < |entries| && entries[i].target == p {
        assert p in orig ==> p in LostFrom(orig, entries, k);
      }
    case _ =>
  }

  const ONE_ENTRY := Entry("a", [1], "a.tmp", "a.old")

  /** Restoring one existing file whose move aside fails: the file is gone. */
  lemma {:induction false} OneFileLost(faults: Faults, outcome: Outcome, bytes: Bytes)
    requires !faults.write(0) && faults.stage(0)
    requires Possible(map["a" := bytes], [ONE_ENTRY], outcome)
    requires Blamed(map["a" := bytes], [ONE_ENTRY], faults, outcome)
    ensures Separate([ONE_ENTRY], map["a" := bytes])
    ensures outcome == StageFailed(0) && After(map["a" := bytes], [ONE_ENTRY], faults, outcome) == map[]
  {
    var orig, entries := map["a" := bytes], [ONE_ENTRY];
    assert entries[0].target in orig;
    assert "a" != "a.tmp" && "a" != "a.old" && "a.tmp"[2] != "a.old"[2];
    OutcomeStageFailed(orig, entries, faults, outcome);
    assert "a" in LostFrom(orig, entries, 0);
  }
}
