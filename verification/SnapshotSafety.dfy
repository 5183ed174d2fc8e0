/**
 * The invariant of concurrent snapshot writers: published files are complete, every pending file
 * belongs to one writer, and a writer that came past its original relies on a published one.
 * Every step keeps it.
 */
module SnapshotSafety {
  import opened Common
  import opened Snapshots

  // ---- The invariant

  /** Whether an inode is published under either name. */
  ghost predicate Shown(s: State, i: nat) {
    exists f: File :: Published(f) in s.names && s.names[Published(f)] == i
  }

  ghost predicate Prefix(a: Bytes, b: Bytes) {
    |a| <= |b| && a == b[..|a|]
  }

  /** A writer that has not ended holds its own pending file, which no one else's step touches. */
  ghost predicate Holds(s: State, writer: Writer) {
    var phase := writer.phase;
    && (phase.Holding() ==>
          && writer.Temporary() in s.names && s.names[writer.Temporary()] == phase.inode && phase.inode < |s.data|)
    && (phase.Filling? ==> Prefix(s.data[phase.inode], writer.Content()) && !Shown(s, phase.inode))
    && (phase.Ready? ==> s.data[phase.inode] == writer.Content() && phase.inode in s.flushed && !Shown(s, phase.inode))
    && (phase.Linked? ==> Visible(s, writer.file) == Some(writer.Content()))
    && (phase.Cleaning? && phase.ok ==> Visible(s, writer.file) == Some(writer.Content()))
    && (writer.file.Json? && !phase.Finished? && !phase.Crashed? ==> Visible(s, Original) == Some(writer.job.markdown))
  }

  ghost predicate HeldApart(s: State, v: nat, w: nat)
    requires v in s.writers && w in s.writers
  {
    v != w && s.writers[v].phase.Holding() && s.writers[w].phase.Holding() ==> s.writers[v].phase.inode != s.writers[w].phase.inode
  }

  /** A published file is whole and flushed, and is what some writer saves. */
  ghost predicate Whole(s: State, f: File) {
    Published(f) in s.names ==>
      && s.names[Published(f)] < |s.data| && s.names[Published(f)] in s.flushed
      && exists w :: w in s.writers && s.writers[w].job.Of(f) == s.data[s.names[Published(f)]]
  }

  ghost predicate Safe(s: State) {
    && (forall name :: name in s.names ==> s.names[name] < |s.data|)
    && (forall f: File :: Whole(s, f))
    && (forall f: File :: f in s.synced ==> Published(f) in s.names)
    && (forall w :: w in s.writers ==> Holds(s, s.writers[w]))
    && forall v, w :: v in s.writers && w in s.writers ==> HeldApart(s, v, w)
  }

  // ---- What a writer's step leaves alone

  /** A step of writer w: published files and what other writers hold stay as they are. */
  ghost predicate Leaves(s: State, t: State, w: nat) {
    && |s.data| <= |t.data| && s.flushed <= t.flushed && s.synced <= t.synced
    && (forall f: File :: Published(f) in s.names ==> KeepsEntry(s, t, Published(f)))
    && t.writers.Keys == s.writers.Keys + {w}
    && (forall v :: v in s.writers && v != w ==> t.writers[v] == s.writers[v] && LeavesHeld(s, t, s.writers[v]))
    && (w in s.writers ==> t.writers[w].job == s.writers[w].job)
  }

  ghost predicate KeepsEntry(s: State, t: State, name: Name)
    requires name in s.names
  {
    && name in t.names && t.names[name] == s.names[name]
    && (s.names[name] < |s.data| && s.names[name] < |t.data| ==> t.data[s.names[name]] == s.data[s.names[name]])
  }

  ghost predicate LeavesHeld(s: State, t: State, writer: Writer) {
    writer.phase.Holding() && writer.Temporary() in s.names ==>
      && KeepsEntry(s, t, writer.Temporary())
      && (Shown(t, writer.phase.inode) ==> Shown(s, writer.phase.inode))
  }

  lemma {:induction false} VisibleStays(s: State, t: State, w: nat, f: File)
    requires Leaves(s, t, w) && Visible(s, f).Some?
    ensures Visible(t, f) == Visible(s, f)
  {
    assert KeepsEntry(s, t, Published(f));
  }

  lemma {:induction false} OthersHold(s: State, t: State, w: nat, v: nat)
    requires Safe(s) && Leaves(s, t, w) && v in s.writers && v != w
    ensures Holds(t, t.writers[v])
  {
    var writer := s.writers[v];
    assert Holds(s, writer);
    if Visible(s, Original).Some? {
      VisibleStays(s, t, w, Original);
    }
    if Visible(s, writer.file).Some? {
      VisibleStays(s, t, w, writer.file);
    }
  }

  /** A writer's step keeps the invariant once its own part is shown. */
  lemma {:induction false} StepKeeps(s: State, t: State, w: nat)
    requires Safe(s) && Leaves(s, t, w) && w in t.writers
    requires forall name :: name in t.names ==> t.names[name] < |t.data|
    requires forall f: File :: f in t.synced ==> Published(f) in t.names
    requires forall f: File :: Published(f) in t.names && Published(f) !in s.names ==> Whole(t, f)
    requires Holds(t, t.writers[w])
    requires forall v :: v in s.writers ==> HeldApart(t, v, w)
    ensures Safe(t)
  {
    hide Holds, LeavesHeld;
    forall f: File ensures Whole(t, f) {
      if Published(f) in s.names {
        assert Whole(s, f) && KeepsEntry(s, t, Published(f));
        var v :| v in s.writers && s.writers[v].job.Of(f) == s.data[s.names[Published(f)]];
        assert t.writers[v].job == s.writers[v].job;
      }
    }
    forall v | v in t.writers ensures Holds(t, t.writers[v]) {
      if v != w {
        OthersHold(s, t, w, v);
      }
    }
    forall v, u | v in t.writers && u in t.writers ensures HeldApart(t, v, u) {
      if v != w && u != w {
        assert HeldApart(s, v, u);
      } else if u == w && v != w {
        assert HeldApart(t, v, w);
      } else if v == w && u != w {
        assert HeldApart(t, u, w);
      }
    }
  }

  /** A step that only moves writer w on, without touching names, bytes or flushes. */
  lemma {:induction false} MoveLeaves(s: State, t: State, w: nat)
    requires Safe(s) && w in s.writers
    requires t.names == s.names && t.data == s.data && t.flushed == s.flushed && s.synced <= t.synced
    requires t.writers.Keys == s.writers.Keys && t.writers[w].job == s.writers[w].job
    requires forall v :: v in s.writers && v != w ==> t.writers[v] == s.writers[v]
    ensures Leaves(s, t, w)
  {
    hide Holds, Whole;
  }

  // ---- Every step keeps it

  lemma {:induction false} MoveSafe(s: State, t: State, w: nat)
    requires Safe(s) && w in s.writers
    requires t.names == s.names && t.data == s.data && t.flushed == s.flushed && s.synced <= t.synced
    requires forall f: File :: f in t.synced ==> Published(f) in t.names
    requires t.writers.Keys == s.writers.Keys && t.writers[w].job == s.writers[w].job
    requires forall v :: v in s.writers && v != w ==> t.writers[v] == s.writers[v]
    requires Holds(t, t.writers[w])
    requires t.writers[w].phase.Holding() ==> s.writers[w].phase.Holding() && t.writers[w].phase.inode == s.writers[w].phase.inode
    ensures Safe(t) && Leaves(s, t, w)
  {
    hide Holds, Whole, Leaves;
    MoveLeaves(s, t, w);
    forall v | v in s.writers ensures HeldApart(t, v, w) {
      assert HeldApart(s, v, w);
    }
    StepKeeps(s, t, w);
  }

  lemma {:induction false} CheckSafe(s: State, w: nat)
    requires Safe(s) && w in s.writers && s.writers[w].phase.Checking?
    ensures Safe(CheckStep(s, w)) && Leaves(s, CheckStep(s, w), w)
  {
    hide Whole, Leaves, HeldApart;
    assert Holds(s, s.writers[w]);
    MoveSafe(s, CheckStep(s, w), w);
  }

  lemma {:induction false} NumberSafe(s: State, w: nat)
    requires Safe(s) && w in s.writers && s.writers[w].phase.Absent?
    ensures Safe(NumberStep(s, w)) && Leaves(s, NumberStep(s, w), w)
  {
    hide Whole, Leaves, HeldApart;
    assert Holds(s, s.writers[w]);
    MoveSafe(s, NumberStep(s, w), w);
  }

  lemma {:induction false} CreateLeaves(s: State, w: nat)
    requires Safe(s) && w in s.writers && s.writers[w].phase.Numbered?
    ensures Leaves(s, CreateStep(s, w), w)
  {
    hide Holds, Whole, HeldApart;
    var t := CreateStep(s, w);
    forall v | v in s.writers && v != w ensures LeavesHeld(s, t, s.writers[v]) {
    }
  }

  lemma {:induction false} CreateSafe(s: State, w: nat)
    requires Safe(s) && w in s.writers && s.writers[w].phase.Numbered?
    ensures Safe(CreateStep(s, w)) && Leaves(s, CreateStep(s, w), w)
  {
    hide Whole, Leaves;
    var t := CreateStep(s, w);
    assert Holds(s, s.writers[w]);
    if s.writers[w].Temporary() in s.names {
      MoveSafe(s, t, w);
    } else {
      CreateLeaves(s, w);
      forall v | v in s.writers ensures HeldApart(t, v, w) {
        assert Holds(s, s.writers[v]);
      }
      assert !Shown(t, |s.data|);
      StepKeeps(s, t, w);
    }
  }

  lemma {:induction false} WriteLeaves(s: State, w: nat, count: nat)
    requires Safe(s) && w in s.writers && s.writers[w].phase.Filling?
    ensures Leaves(s, WriteStep(s, w, count), w)
  {
    hide Whole;
    var t, i := WriteStep(s, w, count), s.writers[w].phase.inode;
    assert Holds(s, s.writers[w]) && !Shown(s, i);
    forall f: File | Published(f) in s.names ensures KeepsEntry(s, t, Published(f)) {
      assert s.names[Published(f)] != i;
    }
    forall v | v in s.writers && v != w ensures LeavesHeld(s, t, s.writers[v]) {
      assert Holds(s, s.writers[v]) && HeldApart(s, v, w);
    }
  }

  lemma {:induction false} WriteSafe(s: State, w: nat, count: nat)
    requires Safe(s) && w in s.writers && s.writers[w].phase.Filling?
    ensures Safe(WriteStep(s, w, count)) && Leaves(s, WriteStep(s, w, count), w)
  {
    hide Whole, Leaves;
    var t, i := WriteStep(s, w, count), s.writers[w].phase.inode;
    WriteLeaves(s, w, count);
    assert Holds(s, s.writers[w]);
    if Visible(s, Original).Some? {
      VisibleStays(s, t, w, Original);
    }
    assert Shown(t, i) <==> Shown(s, i);
    forall v | v in s.writers ensures HeldApart(t, v, w) {
      assert HeldApart(s, v, w);
    }
    StepKeeps(s, t, w);
  }

  lemma {:induction false} SyncSafe(s: State, w: nat)
    requires Safe(s) && w in s.writers && s.writers[w].phase.Filling?
    ensures Safe(SyncStep(s, w)) && Leaves(s, SyncStep(s, w), w)
  {
    hide Whole, Leaves;
    var t, i := SyncStep(s, w), s.writers[w].phase.inode;
    assert Holds(s, s.writers[w]);
    FlushLeaves(s, t, w);
    assert Shown(t, i) <==> Shown(s, i);
    forall v | v in s.writers ensures HeldApart(t, v, w) {
      assert HeldApart(s, v, w);
    }
    StepKeeps(s, t, w);
  }

  lemma {:induction false} FlushLeaves(s: State, t: State, w: nat)
    requires Safe(s) && w in s.writers && s.writers[w].phase.Filling? && t == SyncStep(s, w)
    ensures Leaves(s, t, w)
  {
    hide Holds, Whole, HeldApart;
  }

  lemma {:induction false} LinkLeaves(s: State, w: nat)
    requires Safe(s) && w in s.writers && s.writers[w].phase.Ready?
    ensures Leaves(s, LinkStep(s, w), w)
  {
    hide Whole;
    var t := LinkStep(s, w);
    assert Holds(s, s.writers[w]);
    forall v | v in s.writers && v != w ensures LeavesHeld(s, t, s.writers[v]) {
      assert Holds(s, s.writers[v]) && HeldApart(s, v, w);
      if s.writers[v].phase.Holding() && Shown(t, s.writers[v].phase.inode) {
        var f: File :| Published(f) in t.names && t.names[Published(f)] == s.writers[v].phase.inode;
        assert Published(f) in s.names;
      }
    }
  }

  lemma {:induction false} LinkSafe(s: State, w: nat)
    requires Safe(s) && w in s.writers && s.writers[w].phase.Ready?
    ensures Safe(LinkStep(s, w)) && Leaves(s, LinkStep(s, w), w)
  {
    hide Leaves;
    var t := LinkStep(s, w);
    assert Holds(s, s.writers[w]);
    LinkLeaves(s, w);
    if Visible(s, Original).Some? {
      VisibleStays(s, t, w, Original);
    }
    forall v | v in s.writers ensures HeldApart(t, v, w) {
      assert HeldApart(s, v, w);
    }
    forall f: File | Published(f) in t.names && Published(f) !in s.names ensures Whole(t, f) {
      assert t.writers[w].job.Of(f) == t.data[t.names[Published(f)]];
    }
    StepKeeps(s, t, w);
  }

  lemma {:induction false} SyncEntriesSafe(s: State, w: nat)
    requires Safe(s) && w in s.writers && s.writers[w].phase.Linked?
    ensures Safe(SyncEntriesStep(s, w)) && Leaves(s, SyncEntriesStep(s, w), w)
  {
    hide Whole, Leaves, HeldApart;
    var t := SyncEntriesStep(s, w);
    assert Holds(s, s.writers[w]);
    MoveSafe(s, t, w);
  }

  lemma {:induction false} MeetSafe(s: State, w: nat)
    requires Safe(s) && w in s.writers && s.writers[w].phase.Meeting?
    ensures Safe(MeetStep(s, w)) && Leaves(s, MeetStep(s, w), w)
  {
    hide Whole, Leaves, HeldApart;
    assert Holds(s, s.writers[w]);
    MoveSafe(s, MeetStep(s, w), w);
  }

  lemma {:induction false} CleanLeaves(s: State, w: nat, removed: bool)
    requires Safe(s) && w in s.writers && s.writers[w].phase.Cleaning?
    ensures Leaves(s, CleanStep(s, w, removed), w)
  {
    hide Whole;
    var t := CleanStep(s, w, removed);
    assert Holds(s, s.writers[w]);
    forall v | v in s.writers && v != w ensures LeavesHeld(s, t, s.writers[v]) {
      assert Holds(s, s.writers[v]) && HeldApart(s, v, w);
    }
  }

  lemma {:induction false} CleanSafe(s: State, w: nat, removed: bool)
    requires Safe(s) && w in s.writers && s.writers[w].phase.Cleaning?
    ensures Safe(CleanStep(s, w, removed)) && Leaves(s, CleanStep(s, w, removed), w)
  {
    hide Whole, Leaves;
    var t := CleanStep(s, w, removed);
    assert Holds(s, s.writers[w]);
    CleanLeaves(s, w, removed);
    if Visible(s, Original).Some? {
      VisibleStays(s, t, w, Original);
    }
    StepKeeps(s, t, w);
  }

  lemma {:induction false} FailSafe(s: State, w: nat)
    requires Safe(s) && w in s.writers
    ensures Safe(FailStep(s, w)) && Leaves(s, FailStep(s, w), w)
  {
    hide Whole, Leaves, HeldApart;
    assert Holds(s, s.writers[w]);
    MoveSafe(s, FailStep(s, w), w);
  }

  lemma {:induction false} SpawnSafe(s: State, w: nat, pid: nat, job: Job)
    requires Safe(s) && w !in s.writers
    ensures Safe(Step(s, Spawn(w, pid, job))) && Leaves(s, Step(s, Spawn(w, pid, job)), w)
  {
    hide Whole;
    var t := Step(s, Spawn(w, pid, job));
    StepKeeps(s, t, w);
  }

  /** Writers that end leave everything else as it is. */
  lemma {:induction false} EndedSafe(s: State, t: State)
    requires Safe(s) && t.names == s.names && t.data == s.data && t.flushed == s.flushed && t.synced == s.synced
    requires t.writers.Keys == s.writers.Keys
    requires forall v :: v in s.writers ==> t.writers[v] == s.writers[v] || t.writers[v] == Ended(s.writers[v])
    ensures Safe(t)
  {
    forall f: File ensures Whole(t, f) {
      assert Whole(s, f);
      if Published(f) in s.names {
        var v :| v in s.writers && s.writers[v].job.Of(f) == s.data[s.names[Published(f)]];
        assert t.writers[v].job == s.writers[v].job;
      }
    }
    forall v | v in t.writers ensures Holds(t, t.writers[v]) {
      assert Holds(s, s.writers[v]);
    }
    forall v, u | v in t.writers && u in t.writers ensures HeldApart(t, v, u) {
      assert HeldApart(s, v, u);
    }
  }

  /** After a loss of power nobody is writing, and what is still published is whole. */
  lemma {:induction false} LossSafe(s: State, lost: set<Name>, strays: map<Name, nat>, damage: map<nat, Bytes>)
    requires Safe(s) && LossAllowed(s, lost, strays, damage)
    ensures Safe(LossStep(s, lost, strays, damage))
  {
    hide Holds, HeldApart;
    var t := LossStep(s, lost, strays, damage);
    forall f: File ensures Whole(t, f) {
      assert Whole(s, f);
      if Published(f) in t.names {
        var v :| v in s.writers && s.writers[v].job.Of(f) == s.data[s.names[Published(f)]];
        assert t.writers[v].job == s.writers[v].job;
      }
    }
    forall v | v in t.writers ensures Holds(t, t.writers[v]) {
      EndedHolds(t, s.writers[v]);
    }
    forall v, u | v in t.writers && u in t.writers ensures HeldApart(t, v, u) {
      EndedApart(t, v, u);
    }
  }

  lemma {:induction false} EndedHolds(t: State, writer: Writer)
    ensures Holds(t, Ended(writer))
  {
  }

  lemma {:induction false} EndedApart(t: State, v: nat, u: nat)
    requires v in t.writers && u in t.writers && (t.writers[v].phase.Finished? || t.writers[v].phase.Crashed?)
    ensures HeldApart(t, v, u)
  {
  }

  /** The writer a step is about. */
  function Actor(a: Action): Option<nat> {
    match a
    case Spawn(w, _, _) => Some(w)
    case Check(w) => Some(w)
    case Number(w) => Some(w)
    case Create(w) => Some(w)
    case Write(w, _) => Some(w)
    case Sync(w) => Some(w)
    case Link(w) => Some(w)
    case SyncEntries(w) => Some(w)
    case Meet(w) => Some(w)
    case Clean(w, _) => Some(w)
    case Fail(w) => Some(w)
    case Crash(_) => None
    case PowerLoss(_, _, _) => None
  }

  /** Every step keeps the invariant; a writer's step also leaves everything that is not its own. */
  lemma {:induction false} StepSafe(s: State, a: Action)
    requires Safe(s)
    ensures Safe(Step(s, a))
    ensures Step(s, a) != s && Actor(a).Some? ==> Leaves(s, Step(s, a), Actor(a).value)
  {
    hide Safe, Leaves, CheckStep, NumberStep, CreateStep, WriteStep, SyncStep, LinkStep, SyncEntriesStep, MeetStep, CleanStep, FailStep, LossStep, LossAllowed;
    match a
    case Spawn(w, pid, job) => if w !in s.writers { SpawnSafe(s, w, pid, job); }
    case Crash(pid) => EndedSafe(s, Step(s, a));
    case PowerLoss(lost, strays, damage) => if LossAllowed(s, lost, strays, damage) { LossSafe(s, lost, strays, damage); }
    case Check(w) => if w in s.writers && s.writers[w].phase.Checking? { CheckSafe(s, w); }
    case Number(w) => if w in s.writers && s.writers[w].phase.Absent? { NumberSafe(s, w); }
    case Create(w) => if w in s.writers && s.writers[w].phase.Numbered? { CreateSafe(s, w); }
    case Write(w, count) => if w in s.writers && s.writers[w].phase.Filling? { WriteSafe(s, w, count); }
    case Sync(w) => if w in s.writers && s.writers[w].phase.Filling? { SyncSafe(s, w); }
    case Link(w) => if w in s.writers && s.writers[w].phase.Ready? { LinkSafe(s, w); }
    case SyncEntries(w) => if w in s.writers && s.writers[w].phase.Linked? { SyncEntriesSafe(s, w); }
    case Meet(w) => if w in s.writers && s.writers[w].phase.Meeting? { MeetSafe(s, w); }
    case Clean(w, removed) => if w in s.writers && s.writers[w].phase.Cleaning? { CleanSafe(s, w, removed); }
    case Fail(w) => if w in s.writers { FailSafe(s, w); }
  }
}
