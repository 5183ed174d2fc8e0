/** What holds of every run of the snapshot writers, and exactly when a loss of power can break it. */
module SnapshotRuns {
  import opened Common
  import opened Snapshots
  import opened SnapshotSafety

  const Start: State := State(map[], [], {}, {}, map[], map[])

  /** The state after the first n actions of a run. */
  ghost function Run(actions: seq<Action>, n: nat): State
    requires n <= |actions|
  {
    if n == 0 then Start else Step(Run(actions, n - 1), actions[n - 1])
  }

  /** In every interleaving, with crashes and losses of power at any step, the invariant holds. */
  lemma {:induction false} RunSafe(actions: seq<Action>, n: nat)
    requires n <= |actions|
    ensures Safe(Run(actions, n))
  {
    hide Safe, Step;
    if n == 0 {
      StartSafe();
    } else {
      RunSafe(actions, n - 1);
      StepSafe(Run(actions, n - 1), actions[n - 1]);
    }
  }

  lemma {:induction false} StartSafe()
    ensures Safe(Start)
  {
  }

  // ---- Published files

  /** No step changes a published file's bytes; only a loss of power can take its name away. */
  lemma {:induction false} PublishedStays(s: State, a: Action, f: File)
    requires Safe(s)
    ensures Visible(s, f).Some? ==> Visible(Step(s, a), f) == Visible(s, f) || (a.PowerLoss? && Visible(Step(s, a), f).None?)
    ensures a.PowerLoss? && Visible(s, f).None? ==> Visible(Step(s, a), f).None?
  {
    hide Leaves, Holds, HeldApart, CheckStep, NumberStep, CreateStep, WriteStep, SyncStep, LinkStep, SyncEntriesStep, MeetStep, CleanStep, FailStep;
    StepSafe(s, a);
    if Actor(a).Some? && Step(s, a) != s && Visible(s, f).Some? {
      VisibleStays(s, Step(s, a), Actor(a).value, f);
    }
    assert Whole(s, f);
  }

  ghost predicate Powered(actions: seq<Action>, n: nat, m: nat)
    requires n <= m <= |actions|
  {
    forall k :: n <= k < m ==> !actions[k].PowerLoss?
  }

  /** Once published, a file's bytes are the same for ever, while the power holds. */
  lemma {:induction false} PublishedForever(actions: seq<Action>, n: nat, m: nat, f: File)
    requires n <= m <= |actions| && Powered(actions, n, m) && Visible(Run(actions, n), f).Some?
    ensures Visible(Run(actions, m), f) == Visible(Run(actions, n), f)
  {
    hide Step, Safe, Visible;
    if n < m {
      PublishedForever(actions, n, m - 1, f);
      RunSafe(actions, m - 1);
      PublishedStays(Run(actions, m - 1), actions[m - 1], f);
    }
  }

  /** A name goes only when its own writer removes its own pending file. */
  lemma {:induction false} RemovesOwn(s: State, a: Action, name: Name)
    requires Safe(s) && !a.PowerLoss? && name in s.names && name !in Step(s, a).names
    ensures a.Clean? && a.writer in s.writers && s.writers[a.writer].phase.Cleaning?
    ensures name == s.writers[a.writer].Temporary() && s.names[name] == s.writers[a.writer].phase.inode
  {
    hide Whole, HeldApart;
    if a.Clean? && a.writer in s.writers {
      assert Holds(s, s.writers[a.writer]);
    }
  }

  // ---- Writers that succeed

  ghost predicate Saved(s: State, job: Job) {
    Visible(s, Original) == Some(job.markdown) && Visible(s, Json) == Some(job.json)
  }

  ghost predicate Succeeded(s: State, w: nat) {
    w in s.writers && s.writers[w].phase == Finished(true)
  }

  /** Every writer that succeeded saved exactly what is published, and a published document has its original beside it. */
  ghost predicate Consistent(s: State) {
    && (forall w :: Succeeded(s, w) ==> Saved(s, s.writers[w].job))
    && (Published(Json) in s.names ==> exists w :: w in s.writers && Saved(s, s.writers[w].job))
  }

  /** How a writer comes to succeed: it met or published its own bytes under the document's name. */
  lemma {:induction false} SucceedsBy(s: State, a: Action, w: nat)
    requires Safe(s) && !a.PowerLoss? && Succeeded(Step(s, a), w)
    ensures w in s.writers && Step(s, a).writers[w].job == s.writers[w].job
    ensures Succeeded(s, w) || Saved(s, s.writers[w].job)
  {
    hide Whole, HeldApart, WriteStep, SyncStep, CreateStep, LinkStep, MeetStep, NumberStep, SyncEntriesStep;
    if w in s.writers {
      assert Holds(s, s.writers[w]);
    }
    OthersStay(s, a, w);
  }

  /** Only its own steps, a crash or a loss of power change a writer. */
  lemma {:induction false} OthersStay(s: State, a: Action, w: nat)
    requires !a.PowerLoss?
    ensures w in s.writers && Actor(a) != Some(w) && !a.Crash? ==> w in Step(s, a).writers && Step(s, a).writers[w] == s.writers[w]
    ensures w in s.writers ==> w in Step(s, a).writers && Step(s, a).writers[w].job == s.writers[w].job
    ensures (a.Write? || a.Sync? || a.Create? || a.Link? || a.Meet? || a.Number? || a.SyncEntries?) && Succeeded(Step(s, a), w) ==> Succeeded(s, w)
  {
  }

  /** How the document comes to be published: by a writer whose original is published. */
  lemma {:induction false} DocumentBy(s: State, a: Action)
    requires Safe(s) && !a.PowerLoss? && Published(Json) !in s.names && Published(Json) in Step(s, a).names
    ensures a.Link? && a.writer in s.writers && Saved(Step(s, a), s.writers[a.writer].job)
  {
    hide HeldApart;
    if a.Link? && a.writer in s.writers {
      assert Holds(s, s.writers[a.writer]);
      PublishedStays(s, a, Original);
    }
  }

  lemma {:induction false} ConsistentStep(s: State, a: Action)
    requires Safe(s) && Consistent(s) && !a.PowerLoss?
    ensures Consistent(Step(s, a))
  {
    hide Safe, Step, Visible;
    var t := Step(s, a);
    forall f: File ensures Visible(s, f).Some? ==> Visible(t, f) == Visible(s, f) {
      PublishedStays(s, a, f);
    }
    forall w | Succeeded(t, w) ensures Saved(t, t.writers[w].job) {
      SucceedsBy(s, a, w);
    }
    if Published(Json) in t.names {
      if Published(Json) in s.names {
        var w :| w in s.writers && Saved(s, s.writers[w].job);
        OthersStay(s, a, w);
        assert Saved(t, t.writers[w].job);
      } else {
        DocumentBy(s, a);
        OthersStay(s, a, a.writer);
      }
    }
  }

  /**
   * In every run without loss of power: every writer that succeeded saved exactly the published
   * bytes, so no two that saved different bytes both succeed, and the document is published only
   * beside the original it was saved with.
   */
  lemma {:induction false} RunConsistent(actions: seq<Action>, n: nat)
    requires n <= |actions| && Powered(actions, 0, n)
    ensures Consistent(Run(actions, n))
  {
    hide Safe, Step;
    if n > 0 {
      RunConsistent(actions, n - 1);
      RunSafe(actions, n - 1);
      ConsistentStep(Run(actions, n - 1), actions[n - 1]);
    }
  }

  lemma {:induction false} SuccessAgrees(actions: seq<Action>, n: nat, v: nat, w: nat)
    requires n <= |actions| && Powered(actions, 0, n)
    requires Succeeded(Run(actions, n), v) && Succeeded(Run(actions, n), w)
    ensures Run(actions, n).writers[v].job == Run(actions, n).writers[w].job
  {
    hide Run;
    RunConsistent(actions, n);
  }

  // ---- Loss of power

  /** What keeps a state consistent whatever a loss of power takes. */
  ghost predicate Flushed(s: State) {
    && (Published(Json) in s.names ==> Original in s.synced)
    && forall w :: Succeeded(s, w) ==> Original in s.synced && Json in s.synced
  }

  lemma {:induction false} LossVisible(s: State, lost: set<Name>, strays: map<Name, nat>, damage: map<nat, Bytes>, f: File)
    requires Safe(s) && LossAllowed(s, lost, strays, damage)
    ensures
      var t := LossStep(s, lost, strays, damage);
      Visible(t, f) == if Published(f) in lost then None else Visible(s, f)
  {
    hide Holds, HeldApart;
    assert Whole(s, f);
  }

  lemma {:induction false} LossKeeps(s: State, lost: set<Name>, strays: map<Name, nat>, damage: map<nat, Bytes>)
    requires Safe(s) && Consistent(s) && Flushed(s) && LossAllowed(s, lost, strays, damage)
    ensures Consistent(LossStep(s, lost, strays, damage))
  {
    hide Safe, Visible;
    var t := LossStep(s, lost, strays, damage);
    LossVisible(s, lost, strays, damage, Original);
    LossVisible(s, lost, strays, damage, Json);
    if Published(Json) in t.names {
      var w :| w in s.writers && Saved(s, s.writers[w].job);
      assert t.writers[w].job == s.writers[w].job;
      assert Saved(t, t.writers[w].job);
    }
    forall w | Succeeded(t, w) ensures Saved(t, t.writers[w].job) {
      assert Succeeded(s, w);
    }
  }

  /** A loss of power that takes one unflushed entry. */
  lemma {:induction false} LossBreaks(s: State, f: File)
    requires Safe(s) && Consistent(s) && f !in s.synced
    requires (f.Original? && Published(Json) in s.names) || exists w :: Succeeded(s, w)
    ensures LossAllowed(s, {Published(f)}, map[], map[]) && !Consistent(LossStep(s, {Published(f)}, map[], map[]))
  {
    hide Safe, Visible;
    var t := LossStep(s, {Published(f)}, map[], map[]);
    LossVisible(s, {Published(f)}, map[], map[], f);
    assert Visible(t, f).None?;
    if w :| Succeeded(s, w) {
      assert t.writers[w].phase == Finished(true);
      assert Succeeded(t, w) && !Saved(t, t.writers[w].job);
    } else {
      assert Published(Json) in t.names;
      assert forall w :: w in t.writers ==> !Saved(t, t.writers[w].job);
    }
  }

  /** Whatever a loss of power takes, what is left is consistent. */
  ghost predicate Survives(s: State) {
    forall lost, strays, damage :: LossAllowed(s, lost, strays, damage) ==> Consistent(LossStep(s, lost, strays, damage))
  }

  /** A consistent state survives every loss of power exactly when what it relies on is flushed. */
  lemma {:induction false} SurvivesExactly(s: State)
    requires Safe(s) && Consistent(s)
    ensures Flushed(s) <==> Survives(s)
  {
    hide Safe, Consistent, LossStep, LossAllowed;
    if Flushed(s) {
      forall lost, strays, damage | LossAllowed(s, lost, strays, damage) ensures Consistent(LossStep(s, lost, strays, damage)) {
        LossKeeps(s, lost, strays, damage);
      }
    } else if Published(Json) in s.names && Original !in s.synced {
      LossBreaks(s, Original);
    } else {
      var w :| Succeeded(s, w) && !(Original in s.synced && Json in s.synced);
      LossBreaks(s, if Original in s.synced then Json else Original);
    }
  }

  /** One writer links the original and has yet to flush the directory; another meets the file and goes on. */
  function Borrowing(pid: nat, other: nat): seq<Action> {
    [Spawn(0, pid, Job([], [])), Check(0), Number(0), Create(0), Sync(0), Link(0),
     Spawn(1, other, Job([], [])), Check(1), Check(1), Number(1), Create(1), Sync(1), Link(1)]
  }

  /** The first writer with its original linked, the directory not flushed. */
  function Lender(pid: nat): State {
    State(map[Pending(Original, pid, 0) := 0, Published(Original) := 0], [[]], {0}, {}, map[pid := 1],
          map[0 := Writer(pid, Job([], []), Original, Linked(0, 0))])
  }

  /** The second writer, which took the original as published. */
  function Borrower(pid: nat, other: nat): State {
    Lender(pid).(writers := Lender(pid).writers[1 := Writer(other, Job([], []), Json, Checking)])
  }

  /** The first writer with its pending file created. */
  function Creator(pid: nat): State {
    State(map[Pending(Original, pid, 0) := 0], [[]], {}, {}, map[pid := 1],
          map[0 := Writer(pid, Job([], []), Original, Filling(0, 0))])
  }

  /** The first writer with its number drawn. */
  function Numberer(pid: nat): State {
    State(map[], [], {}, {}, map[pid := 1], map[0 := Writer(pid, Job([], []), Original, Numbered(0))])
  }

  lemma {:induction false} Numbers(pid: nat, other: nat)
    ensures Run(Borrowing(pid, other), 3) == Numberer(pid)
  {
    hide Run, LossStep, LossAllowed, CrashStep, FailStep, CleanStep, MeetStep, SyncEntriesStep, LinkStep, SyncStep, WriteStep, CreateStep;
    var actions := Borrowing(pid, other);
    var s1 := Start.(writers := map[0 := Writer(pid, Job([], []), Original, Checking)]);
    AtStart(actions);
    Reaches(actions, 0, Start, s1);
    Reaches(actions, 1, s1, Put(s1, 0, Absent));
    Reaches(actions, 2, Put(s1, 0, Absent), Numberer(pid));
  }

  lemma {:induction false} Creates(pid: nat, other: nat)
    ensures Run(Borrowing(pid, other), 4) == Creator(pid)
  {
    hide Run, LossStep, LossAllowed, CrashStep, FailStep, CleanStep, MeetStep, SyncEntriesStep, LinkStep, SyncStep, WriteStep, CheckStep, NumberStep;
    Numbers(pid, other);
    Reaches(Borrowing(pid, other), 3, Numberer(pid), Creator(pid));
  }

  lemma {:induction false} Lends(pid: nat, other: nat)
    ensures Run(Borrowing(pid, other), 6) == Lender(pid)
  {
    hide Run;
    var actions, s4 := Borrowing(pid, other), Creator(pid);
    var s5 := Put(s4, 0, Ready(0, 0)).(flushed := {0});
    Creates(pid, other);
    Reaches(actions, 4, s4, s5);
    Reaches(actions, 5, s5, Lender(pid));
  }

  lemma {:induction false} AtStart(actions: seq<Action>)
    ensures Run(actions, 0) == Start
  {
  }

  lemma {:induction false} Borrows(pid: nat, other: nat)
    ensures Run(Borrowing(pid, other), 8) == Borrower(pid, other)
  {
    hide Run;
    var actions, s6 := Borrowing(pid, other), Lender(pid);
    var s7 := s6.(writers := s6.writers[1 := Writer(other, Job([], []), Original, Checking)]);
    Lends(pid, other);
    Reaches(actions, 6, s6, s7);
    assert Visible(s7, Original) == Some([]);
    Reaches(actions, 7, s7, Borrower(pid, other));
  }

  /** The second writer with its pending document created. */
  function Preparer(pid: nat, other: nat): State {
    var s8 := Borrower(pid, other);
    Put(s8, 1, Filling(0, 1)).(counters := map[pid := 1, other := 1], names := s8.names[Pending(Json, other, 0) := 1], data := [[], []])
  }

  lemma {:induction false} Prepares(pid: nat, other: nat)
    requires pid != other
    ensures Run(Borrowing(pid, other), 11) == Preparer(pid, other)
  {
    hide Run, LossStep, LossAllowed, CrashStep, FailStep, CleanStep, MeetStep, SyncEntriesStep, LinkStep, SyncStep, WriteStep;
    var actions, s8 := Borrowing(pid, other), Borrower(pid, other);
    var s10 := Put(s8, 1, Numbered(0)).(counters := map[pid := 1, other := 1]);
    Draws(pid, other);
    Reaches(actions, 10, s10, Preparer(pid, other));
  }

  lemma {:induction false} Draws(pid: nat, other: nat)
    requires pid != other
    ensures Run(Borrowing(pid, other), 10) == Put(Borrower(pid, other), 1, Numbered(0)).(counters := map[pid := 1, other := 1])
  {
    hide Run, LossStep, LossAllowed, CrashStep, FailStep, CleanStep, MeetStep, SyncEntriesStep, LinkStep, SyncStep, WriteStep, CreateStep;
    var actions, s8 := Borrowing(pid, other), Borrower(pid, other);
    Borrows(pid, other);
    Reaches(actions, 8, s8, Put(s8, 1, Absent));
    Reaches(actions, 9, Put(s8, 1, Absent), Put(s8, 1, Numbered(0)).(counters := map[pid := 1, other := 1]));
  }

  /**
   * A writer meets a file whose entry is not flushed yet, takes it as published without flushing
   * the directory, and goes on: the document is then visible while its original's entry is not safe.
   */
  lemma {:induction false} BorrowedOriginalIsNotFlushed(pid: nat, other: nat)
    requires pid != other
    ensures
      var s := Run(Borrowing(pid, other), 13);
      Powered(Borrowing(pid, other), 0, 13) && Published(Json) in s.names && !Flushed(s)
  {
    hide Run;
    var actions, s11 := Borrowing(pid, other), Preparer(pid, other);
    var s12 := Put(s11, 1, Ready(0, 1)).(flushed := {0, 1});
    Prepares(pid, other);
    Reaches(actions, 11, s11, s12);
    Reaches(actions, 12, s12, Put(s12, 1, Linked(0, 1)).(names := s11.names[Published(Json) := 1]));
  }

  lemma {:induction false} Reaches(actions: seq<Action>, n: nat, s: State, t: State)
    requires n < |actions| && Run(actions, n) == s && Step(s, actions[n]) == t
    ensures Run(actions, n + 1) == t
  {
    hide Step;
  }

  // ---- When every file that is met is flushed

  /** A step that takes an existing file as published finds its entry flushed. */
  ghost predicate Patient(s: State, a: Action) {
    (a.Check? || a.Meet?) && a.writer in s.writers ==>
      var writer := s.writers[a.writer];
      (if a.Check? then writer.phase.Checking? else writer.phase.Meeting?) && Visible(s, writer.file) == Some(writer.Content()) ==>
        writer.file in s.synced
  }

  /** Where a writer stands, everything it relies on is flushed. */
  ghost predicate Relies(s: State, writer: Writer) {
    && (writer.file.Json? && !writer.phase.Crashed? && writer.phase != Finished(false) ==> Original in s.synced)
    && (writer.phase.Cleaning? && writer.phase.ok ==> writer.file in s.synced)
    && (writer.phase == Finished(true) ==> Original in s.synced && Json in s.synced)
  }

  ghost predicate AllRely(s: State) {
    && (forall w :: w in s.writers ==> Relies(s, s.writers[w]))
    && (Published(Json) in s.names ==> Original in s.synced)
  }

  lemma {:induction false} SyncedGrows(s: State, a: Action)
    requires forall f: File :: f in s.synced ==> Published(f) in s.names
    ensures s.synced <= Step(s, a).synced
  {
  }

  /** A writer's own step leaves it relying on flushed entries only. */
  lemma {:induction false} ActorRelies(s: State, a: Action, w: nat)
    requires Safe(s) && Patient(s, a) && Actor(a) == Some(w)
    requires w in s.writers ==> Relies(s, s.writers[w]) && Holds(s, s.writers[w])
    ensures w in Step(s, a).writers ==> Relies(Step(s, a), Step(s, a).writers[w])
  {
    hide Safe, Prefix, WriteStep, LinkStep, CreateStep, SyncStep, NumberStep;
    if w in s.writers && (a.Write? || a.Link? || a.Create? || a.Sync? || a.Number?) {
      SameFile(s, a, w);
    }
  }

  /** Steps that only move a writer along within its file. */
  lemma {:induction false} SameFile(s: State, a: Action, w: nat)
    requires Actor(a) == Some(w) && w in s.writers && (a.Write? || a.Link? || a.Create? || a.Sync? || a.Number?)
    ensures
      var (before, after) := (s.writers[w], Step(s, a).writers[w]);
      && after.file == before.file && Step(s, a).synced == s.synced
      && (before == after || (!before.phase.Crashed? && !before.phase.Finished? && after.phase != Finished(true)
                             && !(after.phase.Cleaning? && after.phase.ok)))
  {
  }

  lemma {:induction false} OtherRelies(s: State, a: Action, w: nat)
    requires Safe(s) && w in s.writers && Relies(s, s.writers[w]) && Actor(a) != Some(w)
    ensures w in Step(s, a).writers && Relies(Step(s, a), Step(s, a).writers[w])
  {
    hide Holds, HeldApart, Whole, Visible;
    SyncedGrows(s, a);
    if !a.Crash? && !a.PowerLoss? {
      OthersStay(s, a, w);
    }
  }

  /** The document is linked only once its original is flushed. */
  lemma {:induction false} DocumentRelies(s: State, a: Action)
    requires Safe(s) && AllRely(s) && !(Published(Json) in s.names) && Published(Json) in Step(s, a).names
    ensures Original in Step(s, a).synced
  {
    hide Holds, HeldApart, Whole, Visible;
    if a.Link? && a.writer in s.writers {
      assert Relies(s, s.writers[a.writer]);
    }
  }

  lemma {:induction false} PatientStep(s: State, a: Action)
    requires Safe(s) && AllRely(s) && Patient(s, a)
    ensures AllRely(Step(s, a))
  {
    hide Step, Relies, Patient, Whole, HeldApart, Holds;
    var t := Step(s, a);
    forall w | w in t.writers ensures Relies(t, t.writers[w]) {
      if Actor(a) == Some(w) {
        if w in s.writers {
          assert Holds(s, s.writers[w]);
        }
        ActorRelies(s, a, w);
      } else {
        KnownWriter(s, a, w);
        OtherRelies(s, a, w);
      }
    }
    SyncedGrows(s, a);
    if Published(Json) in t.names && !(Published(Json) in s.names) {
      DocumentRelies(s, a);
    }
  }

  lemma {:induction false} KnownWriter(s: State, a: Action, w: nat)
    requires w in Step(s, a).writers && Actor(a) != Some(w)
    ensures w in s.writers
  {
  }

  ghost predicate PatientRun(actions: seq<Action>, n: nat)
    requires n <= |actions|
  {
    forall k :: 0 <= k < n ==> Patient(Run(actions, k), actions[k])
  }

  /**
   * When every file a writer meets is already flushed, everything above holds through losses of
   * power too: what a successful writer saved survives, and a document never stands alone.
   */
  lemma {:induction false} PatientRunSurvives(actions: seq<Action>, n: nat)
    requires n <= |actions| && PatientRun(actions, n)
    ensures Consistent(Run(actions, n)) && Flushed(Run(actions, n)) && AllRely(Run(actions, n))
  {
    hide Safe, Step, Relies, Patient, Consistent;
    if n == 0 {
      StartConsistent();
    } else {
      PatientRunSurvives(actions, n - 1);
      var s, a := Run(actions, n - 1), actions[n - 1];
      RunSafe(actions, n - 1);
      assert Patient(Run(actions, n - 1), actions[n - 1]);
      PatientStep(s, a);
      if a.PowerLoss? {
        LossStepIs(s, a);
        if LossAllowed(s, a.lost, a.strays, a.damage) {
          LossKeeps(s, a.lost, a.strays, a.damage);
        }
      } else {
        ConsistentStep(s, a);
      }
      RelyFlushed(Step(s, a));
    }
  }

  lemma {:induction false} LossStepIs(s: State, a: Action)
    requires a.PowerLoss?
    ensures Step(s, a) == if LossAllowed(s, a.lost, a.strays, a.damage) then LossStep(s, a.lost, a.strays, a.damage) else s
  {
  }

  lemma {:induction false} StartConsistent()
    ensures Consistent(Start) && AllRely(Start) && Flushed(Start)
  {
  }

  lemma {:induction false} RelyFlushed(s: State)
    requires AllRely(s)
    ensures Flushed(s)
  {
    forall w | Succeeded(s, w) ensures Original in s.synced && Json in s.synced {
      assert Relies(s, s.writers[w]);
    }
  }

  // ---- Which runs survive

  /** A step that leaves something to rely on before its entry is flushed: a document, or a success. */
  ghost predicate Exposes(s: State, a: Action) {
    var t := Step(s, a);
    || (Published(Json) in t.names && !(Published(Json) in s.names) && Original !in s.synced)
    || exists w :: Succeeded(t, w) && !Succeeded(s, w) && !(Original in t.synced && Json in t.synced)
  }

  lemma {:induction false} ExposedStep(s: State, a: Action)
    requires Safe(s) && Flushed(s) && !a.PowerLoss?
    ensures Flushed(Step(s, a)) <==> !Exposes(s, a)
  {
    hide Safe;
    var t := Step(s, a);
    StepSynced(s, a);
    if Flushed(t) && Exposes(s, a) {
      JsonExposed(s, a);
    }
    if !Exposes(s, a) {
      forall w | Succeeded(t, w) ensures Original in t.synced && Json in t.synced {
        if Succeeded(s, w) {
          assert Original in s.synced && Json in s.synced;
        }
      }
    }
  }

  lemma {:induction false} StepSynced(s: State, a: Action)
    requires Safe(s)
    ensures s.synced <= Step(s, a).synced
  {
    hide Holds, HeldApart, Whole, Visible;
    SyncedGrows(s, a);
  }

  /** Linking flushes nothing. */
  lemma {:induction false} JsonExposed(s: State, a: Action)
    requires !a.PowerLoss? && Published(Json) in Step(s, a).names && !(Published(Json) in s.names)
    ensures Step(s, a).synced == s.synced
  {
  }

  /**
   * A run survives every loss of power at every point exactly when none of its steps links a
   * document before its original's entry is flushed, nor succeeds before both entries are.
   */
  lemma {:induction false} RunSurvivesExactly(actions: seq<Action>, n: nat)
    requires n <= |actions| && Powered(actions, 0, n)
    ensures (forall k :: 0 <= k <= n ==> Survives(Run(actions, k)))
       <==> forall k :: 0 <= k < n ==> !Exposes(Run(actions, k), actions[k])
  {
    hide Safe, Step, Consistent, Flushed, Exposes, Survives;
    forall k | 0 <= k <= n ensures Survives(Run(actions, k)) <==> Flushed(Run(actions, k)) {
      RunSafe(actions, k);
      RunConsistent(actions, k);
      SurvivesExactly(Run(actions, k));
    }
    FlushedThrough(actions, n);
  }

  lemma {:induction false} FlushedThrough(actions: seq<Action>, n: nat)
    requires n <= |actions| && Powered(actions, 0, n)
    ensures (forall k :: 0 <= k <= n ==> Flushed(Run(actions, k)))
       <==> forall k :: 0 <= k < n ==> !Exposes(Run(actions, k), actions[k])
  {
    hide Safe, Step, Flushed, Exposes;
    if n == 0 {
      StartConsistent();
    } else {
      FlushedThrough(actions, n - 1);
      RunSafe(actions, n - 1);
      if Flushed(Run(actions, n - 1)) {
        ExposedStep(Run(actions, n - 1), actions[n - 1]);
      }
      NextFlushed(actions, n);
    }
  }

  lemma {:induction false} NextFlushed(actions: seq<Action>, n: nat)
    requires 0 < n <= |actions|
    ensures Run(actions, n) == Step(Run(actions, n - 1), actions[n - 1])
  {
  }

  // ---- A writer left alone succeeds

  /** The state after the first n actions of a continuation. */
  ghost function Onward(s: State, actions: seq<Action>, n: nat): State
    requires n <= |actions|
  {
    if n == 0 then s else Step(Onward(s, actions, n - 1), actions[n - 1])
  }

  function Alone(w: nat, size: nat): seq<Action> {
    [Check(w), Number(w), Create(w), Write(w, size), Sync(w), Link(w), SyncEntries(w), Clean(w, true)]
  }

  lemma {:induction false} Goes(s: State, actions: seq<Action>, n: nat, t: State, u: State)
    requires n < |actions| && Onward(s, actions, n) == t && Step(t, actions[n]) == u
    ensures Onward(s, actions, n + 1) == u
  {
    hide Step;
  }

  lemma {:induction false} AloneFills(s: State, w: nat, size: nat) returns (t: State)
    requires Safe(s) && w in s.writers && s.writers[w].phase.Checking? && size == |s.writers[w].Content()|
    requires Published(s.writers[w].file) !in s.names
    requires Pending(s.writers[w].file, s.writers[w].pid, Drawn(s, s.writers[w].pid)) !in s.names
    ensures Onward(s, Alone(w, size), 4) == t
    ensures
      var (before, number) := (s.writers[w], Drawn(s, s.writers[w].pid));
      && t.writers == s.writers[w := before.(phase := Filling(number, |s.data|))]
      && t.names == s.names[Pending(before.file, before.pid, number) := |s.data|]
      && t.data == s.data + [before.Content()]
  {
    hide Onward, Safe, LossStep, LossAllowed, CrashStep, FailStep, CleanStep, MeetStep, SyncEntriesStep, LinkStep, SyncStep;
    var actions, before, number := Alone(w, size), s.writers[w], Drawn(s, s.writers[w].pid);
    var s1 := Put(s, w, Absent);
    var s2 := Put(s, w, Numbered(number)).(counters := s.counters[before.pid := number + 1]);
    var s3 := Put(s2, w, Filling(number, |s.data|)).(names := s.names[Pending(before.file, before.pid, number) := |s.data|], data := s.data + [[]]);
    assert [] + before.Content()[0..size] == before.Content();
    t := s3.(data := s.data + [before.Content()]);
    OnwardNothing(s, actions);
    Goes(s, actions, 0, s, s1);
    Goes(s, actions, 1, s1, s2);
    Goes(s, actions, 2, s2, s3);
    assert WriteStep(s3, w, size).data == t.data;
    Goes(s, actions, 3, s3, t);
  }

  lemma {:induction false} OnwardNothing(s: State, actions: seq<Action>)
    ensures Onward(s, actions, 0) == s
  {
  }

  /** Where nothing is published under its name, a writer that is not disturbed and does not fail publishes its file. */
  lemma {:induction false} AloneSaves(s: State, w: nat)
    requires Safe(s) && w in s.writers && s.writers[w].phase.Checking?
    requires Published(s.writers[w].file) !in s.names
    requires Pending(s.writers[w].file, s.writers[w].pid, Drawn(s, s.writers[w].pid)) !in s.names
    ensures
      var (writer, size) := (s.writers[w], |s.writers[w].Content()|);
      var t := Onward(s, Alone(w, size), 8);
      && Visible(t, writer.file) == Some(writer.Content()) && writer.file in t.synced
      && w in t.writers && t.writers[w] == if writer.file.Original? then writer.(file := Json) else writer.(phase := Finished(true))
  {
    hide Onward, Safe, LossStep, LossAllowed, CrashStep, FailStep, MeetStep, CheckStep, NumberStep, CreateStep, WriteStep, SyncEntriesStep, CleanStep;
    var writer, number, size := s.writers[w], Drawn(s, s.writers[w].pid), |s.writers[w].Content()|;
    var actions, own, i := Alone(w, size), Pending(s.writers[w].file, s.writers[w].pid, Drawn(s, s.writers[w].pid)), |s.data|;
    var s4 := AloneFills(s, w, size);
    var s5 := Put(s4, w, Ready(number, i)).(flushed := s4.flushed + {i});
    var s6 := Put(s5, w, Linked(number, i)).(names := s5.names[Published(writer.file) := i]);
    Goes(s, actions, 4, s4, s5);
    Goes(s, actions, 5, s5, s6);
    AloneEnds(s, w, s6);
  }

  /** The last two steps: the linked file's entry flushed, and its pending file removed. */
  lemma {:induction false} AloneEnds(s: State, w: nat, s6: State)
    requires w in s.writers && w in s6.writers && s6.writers[w].phase.Linked? && s6.writers[w].Temporary() in s6.names
    requires Published(s6.writers[w].file) in s6.names
    requires Onward(s, Alone(w, |s.writers[w].Content()|), 6) == s6
    ensures
      var t := Onward(s, Alone(w, |s.writers[w].Content()|), 8);
      && w in t.writers && t.writers[w] == Settled(s6, w).writers[w]
      && s6.writers[w].file in t.synced && t.data == s6.data && t.names == s6.names - {s6.writers[w].Temporary()}
  {
    hide Onward, LossStep, LossAllowed, CrashStep, FailStep, MeetStep, CheckStep, NumberStep, CreateStep, WriteStep, SyncStep, LinkStep;
    var actions := Alone(w, |s.writers[w].Content()|);
    Goes(s, actions, 6, s6, SyncEntriesStep(s6, w));
    Goes(s, actions, 7, SyncEntriesStep(s6, w), CleanStep(SyncEntriesStep(s6, w), w, true));
  }
}
