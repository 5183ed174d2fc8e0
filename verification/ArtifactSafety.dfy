/** What every run of the artifact store keeps: whole files, and puts that last once they returned. */
module ArtifactSafety {
  import opened Common
  import opened Artifacts

  /** A step of put p: what is stored stays stored, and what other puts hold stays as it is. */
  ghost predicate Leaves(s: State, t: State, hash: Hash, p: nat) {
    && |s.data| <= |t.data| && s.flushed <= t.flushed && s.durable.Keys <= t.durable.Keys
    && (forall d: Digest :: Stored(d) in s.names ==> Stored(d) in t.names)
    && t.putters.Keys == s.putters.Keys + {p}
    && forall q :: q in s.putters && q != p ==> t.putters[q] == s.putters[q] && LeavesHeld(s, t, hash, s.putters[q])
  }

  ghost predicate LeavesHeld(s: State, t: State, hash: Hash, putter: Putter) {
    putter.phase.Holding() && TemporaryOf(putter, hash) in s.names ==>
      var (name, i) := (TemporaryOf(putter, hash), putter.phase.inode);
      && name in t.names && t.names[name] == s.names[name]
      && (s.names[name] < |s.data| && s.names[name] < |t.data| ==> t.data[s.names[name]] == s.data[s.names[name]])
      && (Shown(t, i) ==> Shown(s, i))
  }

  lemma {:induction false} OthersHold(s: State, t: State, hash: Hash, p: nat, q: nat)
    requires Safe(s, hash) && Leaves(s, t, hash, p) && q in s.putters && q != p
    ensures Holds(t, hash, t.putters[q])
  {
    assert Holds(s, hash, s.putters[q]);
  }

  lemma {:induction false} StepKeeps(s: State, t: State, hash: Hash, p: nat)
    requires Safe(s, hash) && Leaves(s, t, hash, p) && p in t.putters
    requires forall name :: name in t.names ==> t.names[name] < |t.data|
    requires forall d: Digest :: WholeAt(t, hash, d)
    requires Holds(t, hash, t.putters[p])
    requires forall q :: q in s.putters ==> HeldApart(t, q, p)
    ensures Safe(t, hash)
  {
    hide Holds, LeavesHeld, WholeAt;
    forall q | q in t.putters ensures Holds(t, hash, t.putters[q]) {
      if q != p {
        OthersHold(s, t, hash, p, q);
      }
    }
    forall q, r | q in t.putters && r in t.putters ensures HeldApart(t, q, r) {
      if q != p && r != p {
        assert HeldApart(s, q, r);
      } else if r == p && q != p {
        assert HeldApart(t, q, p);
      } else if q == p && r != p {
        assert HeldApart(t, r, p);
      }
    }
  }

  /** What is stored, now and when last flushed, with its bytes, is as it was. */
  ghost predicate SameStored(s: State, t: State) {
    && t.durable == s.durable && s.flushed <= t.flushed && |s.data| <= |t.data|
    && (forall d: Digest :: Stored(d) in t.names <==> Stored(d) in s.names)
    && (forall d: Digest :: Stored(d) in s.names ==> t.names[Stored(d)] == s.names[Stored(d)])
    && forall i :: 0 <= i < |s.data| && Shown(s, i) ==> t.data[i] == s.data[i]
  }

  lemma {:induction false} SameWhole(s: State, t: State, hash: Hash, d: Digest)
    requires SameStored(s, t) && WholeAt(s, hash, d)
    ensures WholeAt(t, hash, d)
  {
    if Stored(d) in s.names {
      assert Shown(s, s.names[Stored(d)]);
    }
    if d in s.durable {
      assert Shown(s, s.durable[d]);
    }
  }

  lemma {:induction false} SameShown(s: State, t: State, i: nat)
    requires SameStored(s, t)
    ensures Shown(t, i) <==> Shown(s, i)
  {
  }

  /** A step that changes neither names, bytes nor flushes, only where put p stands. */
  lemma {:induction false} MoveSafe(s: State, t: State, hash: Hash, p: nat)
    requires Safe(s, hash) && p in s.putters
    requires t.names == s.names && t.data == s.data && t.flushed == s.flushed && t.durable == s.durable
    requires t.putters.Keys == s.putters.Keys && forall q :: q in s.putters && q != p ==> t.putters[q] == s.putters[q]
    requires Holds(t, hash, t.putters[p])
    requires t.putters[p].phase.Holding() ==> s.putters[p].phase.Holding() && t.putters[p].phase.inode == s.putters[p].phase.inode
    ensures Safe(t, hash) && Leaves(s, t, hash, p)
  {
    hide Holds, Intact;
    forall q | q in s.putters && q != p ensures LeavesHeld(s, t, hash, s.putters[q]) {
    }
    forall d: Digest ensures WholeAt(t, hash, d) {
      assert WholeAt(s, hash, d);
      SameWhole(s, t, hash, d);
    }
    forall q | q in s.putters ensures HeldApart(t, q, p) {
      assert HeldApart(s, q, p);
    }
    StepKeeps(s, t, hash, p);
  }

  lemma {:induction false} AskSafe(s: State, hash: Hash, p: nat)
    requires Safe(s, hash) && p in s.putters && s.putters[p].phase.Asking?
    ensures Safe(AskStep(s, hash, p), hash) && Leaves(s, AskStep(s, hash, p), hash, p)
  {
    hide WholeAt, HeldApart, Leaves;
    MoveSafe(s, AskStep(s, hash, p), hash, p);
  }

  lemma {:induction false} NumberSafe(s: State, hash: Hash, p: nat)
    requires Safe(s, hash) && p in s.putters && s.putters[p].phase.Lacking?
    ensures Safe(NumberStep(s, p), hash) && Leaves(s, NumberStep(s, p), hash, p)
  {
    hide WholeAt, HeldApart, Leaves;
    MoveSafe(s, NumberStep(s, p), hash, p);
  }

  lemma {:induction false} FailSafe(s: State, hash: Hash, p: nat)
    requires Safe(s, hash) && p in s.putters
    ensures Safe(FailStep(s, p), hash) && Leaves(s, FailStep(s, p), hash, p)
  {
    hide WholeAt, HeldApart, Leaves;
    assert Holds(s, hash, s.putters[p]);
    MoveSafe(s, FailStep(s, p), hash, p);
  }

  /** A step that leaves what is stored alone. */
  lemma {:induction false} AsideSafe(s: State, t: State, hash: Hash, p: nat)
    requires Safe(s, hash) && SameStored(s, t) && p in t.putters && t.putters.Keys == s.putters.Keys + {p}
    requires forall name :: name in t.names ==> t.names[name] < |t.data|
    requires forall q :: q in s.putters && q != p ==> t.putters[q] == s.putters[q] && LeavesHeld(s, t, hash, s.putters[q])
    requires Holds(t, hash, t.putters[p]) && forall q :: q in s.putters ==> HeldApart(t, q, p)
    ensures Safe(t, hash) && Leaves(s, t, hash, p)
  {
    hide Holds, LeavesHeld, HeldApart, Shown;
    forall d: Digest ensures WholeAt(t, hash, d) {
      assert WholeAt(s, hash, d);
      SameWhole(s, t, hash, d);
    }
    StepKeeps(s, t, hash, p);
  }

  lemma {:induction false} CreateSafe(s: State, hash: Hash, p: nat)
    requires Safe(s, hash) && p in s.putters && s.putters[p].phase.Numbered?
    ensures Safe(CreateStep(s, hash, p), hash) && Leaves(s, CreateStep(s, hash, p), hash, p)
  {
    hide Leaves, Intact;
    var t := CreateStep(s, hash, p);
    if TemporaryOf(s.putters[p], hash) in s.names {
      MoveSafe(s, t, hash, p);
    } else {
      assert SameStored(s, t);
      CreateLeaves(s, hash, p);
      FreshUnshown(s, hash);
      SameShown(s, t, |s.data|);
      forall q | q in s.putters ensures HeldApart(t, q, p) {
        assert Holds(s, hash, s.putters[q]);
      }
      AsideSafe(s, t, hash, p);
    }
  }

  lemma {:induction false} FreshUnshown(s: State, hash: Hash)
    requires Safe(s, hash)
    ensures !Shown(s, |s.data|)
  {
    hide Holds, HeldApart;
    forall d: Digest ensures (Stored(d) in s.names ==> s.names[Stored(d)] != |s.data|) && (d in s.durable ==> s.durable[d] != |s.data|) {
      assert WholeAt(s, hash, d);
    }
  }

  lemma {:induction false} CreateLeaves(s: State, hash: Hash, p: nat)
    requires Safe(s, hash) && p in s.putters && s.putters[p].phase.Numbered? && TemporaryOf(s.putters[p], hash) !in s.names
    ensures forall q :: q in s.putters && q != p ==> LeavesHeld(s, CreateStep(s, hash, p), hash, s.putters[q])
  {
    hide Holds, HeldApart, WholeAt, Shown;
    var t := CreateStep(s, hash, p);
    assert SameStored(s, t);
    forall q | q in s.putters && q != p ensures LeavesHeld(s, t, hash, s.putters[q]) {
      if s.putters[q].phase.Holding() {
        SameShown(s, t, s.putters[q].phase.inode);
      }
    }
  }

  lemma {:induction false} WriteSafe(s: State, hash: Hash, p: nat, count: nat)
    requires Safe(s, hash) && p in s.putters && s.putters[p].phase.Filling?
    ensures Safe(WriteStep(s, p, count), hash) && Leaves(s, WriteStep(s, p, count), hash, p)
  {
    hide Leaves, WholeAt, Shown;
    var t, i := WriteStep(s, p, count), s.putters[p].phase.inode;
    assert Holds(s, hash, s.putters[p]) && !Shown(s, i);
    assert SameStored(s, t);
    SameShown(s, t, i);
    forall q | q in s.putters && q != p ensures LeavesHeld(s, t, hash, s.putters[q]) {
      assert Holds(s, hash, s.putters[q]) && HeldApart(s, q, p);
      if s.putters[q].phase.Holding() {
        SameShown(s, t, s.putters[q].phase.inode);
      }
    }
    forall q | q in s.putters ensures HeldApart(t, q, p) {
      assert HeldApart(s, q, p);
    }
    AsideSafe(s, t, hash, p);
  }

  lemma {:induction false} SyncSafe(s: State, hash: Hash, p: nat)
    requires Safe(s, hash) && p in s.putters && s.putters[p].phase.Filling?
    ensures Safe(SyncStep(s, p), hash) && Leaves(s, SyncStep(s, p), hash, p)
  {
    hide Leaves, WholeAt, Shown;
    var t, i := SyncStep(s, p), s.putters[p].phase.inode;
    assert Holds(s, hash, s.putters[p]);
    assert SameStored(s, t);
    SameShown(s, t, i);
    forall q | q in s.putters && q != p ensures LeavesHeld(s, t, hash, s.putters[q]) {
      if s.putters[q].phase.Holding() {
        SameShown(s, t, s.putters[q].phase.inode);
      }
    }
    forall q | q in s.putters ensures HeldApart(t, q, p) {
      assert HeldApart(s, q, p);
    }
    AsideSafe(s, t, hash, p);
  }

  lemma {:induction false} ClearSafe(s: State, hash: Hash, p: nat, removed: bool)
    requires Safe(s, hash) && p in s.putters && s.putters[p].phase.Clearing?
    ensures Safe(ClearStep(s, hash, p, removed), hash) && Leaves(s, ClearStep(s, hash, p, removed), hash, p)
  {
    hide Leaves, WholeAt, Shown;
    var t := ClearStep(s, hash, p, removed);
    assert Holds(s, hash, s.putters[p]);
    assert SameStored(s, t);
    forall q | q in s.putters && q != p ensures LeavesHeld(s, t, hash, s.putters[q]) {
      assert Holds(s, hash, s.putters[q]) && HeldApart(s, q, p);
      if s.putters[q].phase.Holding() {
        SameShown(s, t, s.putters[q].phase.inode);
      }
    }
    AsideSafe(s, t, hash, p);
  }

  lemma {:induction false} RenameShown(s: State, hash: Hash, p: nat, i: nat)
    requires p in s.putters && s.putters[p].phase.Ready? && TemporaryOf(s.putters[p], hash) in s.names
    requires i != s.names[TemporaryOf(s.putters[p], hash)] && Shown(RenameStep(s, hash, p), i)
    ensures Shown(s, i)
  {
    var t := RenameStep(s, hash, p);
    if d: Digest :| Stored(d) in t.names && t.names[Stored(d)] == i {
      assert Stored(d) in s.names && s.names[Stored(d)] == i;
    }
  }

  lemma {:induction false} RenameSafe(s: State, hash: Hash, p: nat)
    requires Safe(s, hash) && p in s.putters && s.putters[p].phase.Ready?
    ensures Safe(RenameStep(s, hash, p), hash) && Leaves(s, RenameStep(s, hash, p), hash, p)
  {
    hide Shown;
    var t := RenameStep(s, hash, p);
    assert Holds(s, hash, s.putters[p]);
    forall q | q in s.putters && q != p ensures LeavesHeld(s, t, hash, s.putters[q]) {
      assert Holds(s, hash, s.putters[q]) && HeldApart(s, q, p);
      if s.putters[q].phase.Holding() && Shown(t, s.putters[q].phase.inode) {
        RenameShown(s, hash, p, s.putters[q].phase.inode);
      }
    }
    forall d: Digest ensures WholeAt(t, hash, d) {
      assert WholeAt(s, hash, d);
    }
    StepKeeps(s, t, hash, p);
  }

  lemma {:induction false} ShelfHolds(s: State, shelf: nat, d: Digest)
    ensures
      var t := SyncShelf(s, shelf);
      && (d.shelf == shelf ==> (d in t.durable <==> Stored(d) in s.names) && (d in t.durable ==> t.durable[d] == s.names[Stored(d)]))
      && (d.shelf != shelf ==> (d in t.durable <==> d in s.durable) && (d in t.durable ==> t.durable[d] == s.durable[d]))
  {
    if d.shelf == shelf && Stored(d) in s.names {
      assert Stored(d).digest in Digests(s);
    }
  }

  lemma {:induction false} ShelfShown(s: State, shelf: nat, i: nat)
    requires Shown(SyncShelf(s, shelf), i)
    ensures Shown(s, i)
  {
    var t := SyncShelf(s, shelf);
    if d: Digest :| d in t.durable && t.durable[d] == i {
      ShelfHolds(s, shelf, d);
      assert if d.shelf == shelf then Stored(d) in s.names && s.names[Stored(d)] == i else d in s.durable && s.durable[d] == i;
    } else {
      var d: Digest :| Stored(d) in t.names && t.names[Stored(d)] == i;
      assert Stored(d) in s.names;
    }
  }

  lemma {:induction false} SyncDirectorySafe(s: State, hash: Hash, p: nat)
    requires Safe(s, hash) && p in s.putters && (s.putters[p].phase.Found? || s.putters[p].phase.Placed?)
    ensures Safe(SyncDirectoryStep(s, hash, p), hash) && Leaves(s, SyncDirectoryStep(s, hash, p), hash, p)
  {
    hide SyncShelf, Shown;
    var shelf := hash(s.putters[p].bytes).shelf;
    var t, synced := SyncDirectoryStep(s, hash, p), SyncShelf(s, shelf);
    OnlyDurable(s, shelf);
    assert Holds(s, hash, s.putters[p]);
    forall d: Digest ensures WholeAt(t, hash, d) && (d in s.durable ==> d in t.durable) {
      assert WholeAt(s, hash, d);
      ShelfHolds(s, shelf, d);
    }
    ShelfHolds(s, shelf, hash(s.putters[p].bytes));
    forall q | q in s.putters && q != p ensures LeavesHeld(s, t, hash, s.putters[q]) {
      if s.putters[q].phase.Holding() && Shown(t, s.putters[q].phase.inode) {
        ShownByStored(synced, t, s.putters[q].phase.inode);
        ShelfShown(s, shelf, s.putters[q].phase.inode);
      }
    }
    StepKeeps(s, t, hash, p);
  }

  lemma {:induction false} ShownByStored(s: State, t: State, i: nat)
    requires s.names == t.names && s.durable == t.durable
    ensures Shown(s, i) == Shown(t, i)
  {
  }

  lemma {:induction false} OnlyDurable(s: State, shelf: nat)
    ensures SyncShelf(s, shelf) == s.(durable := SyncShelf(s, shelf).durable)
  {
  }

  lemma {:induction false} SpawnSafe(s: State, hash: Hash, p: nat, pid: nat, bytes: Bytes)
    requires Safe(s, hash) && p !in s.putters
    ensures Safe(Step(s, hash, Spawn(p, pid, bytes)), hash) && Leaves(s, Step(s, hash, Spawn(p, pid, bytes)), hash, p)
  {
    hide Intact;
    var t := Step(s, hash, Spawn(p, pid, bytes));
    assert SameStored(s, t);
    forall q | q in s.putters && q != p ensures LeavesHeld(s, t, hash, s.putters[q]) {
    }
    AsideSafe(s, t, hash, p);
  }

  lemma {:induction false} EndedSafe(s: State, t: State, hash: Hash)
    requires Safe(s, hash) && t.names == s.names && t.data == s.data && t.flushed == s.flushed && t.durable == s.durable
    requires t.putters.Keys == s.putters.Keys
    requires forall q :: q in s.putters ==> t.putters[q] == s.putters[q] || t.putters[q] == Ended(s.putters[q])
    ensures Safe(t, hash)
  {
    hide Intact;
    assert SameStored(s, t);
    forall d: Digest ensures WholeAt(t, hash, d) {
      assert WholeAt(s, hash, d);
      SameWhole(s, t, hash, d);
    }
    forall q | q in t.putters ensures Holds(t, hash, t.putters[q]) {
      assert Holds(s, hash, s.putters[q]);
      if s.putters[q].phase.Holding() {
        SameShown(s, t, s.putters[q].phase.inode);
      }
    }
    forall q, r | q in t.putters && r in t.putters ensures HeldApart(t, q, r) {
      assert HeldApart(s, q, r);
    }
  }

  /** After a loss of power every entry is one that was whole, and no flushed entry is missing. */
  lemma {:induction false} LossSafe(s: State, hash: Hash, kept: set<Digest>, strays: map<Name, nat>, damage: map<nat, Bytes>)
    requires Safe(s, hash) && LossAllowed(s, kept, strays, damage)
    ensures Safe(LossStep(s, kept, strays, damage), hash)
  {
    hide HeldApart, LossStep, WholeAt, Holds;
    var t := LossStep(s, kept, strays, damage);
    forall d: Digest ensures WholeAt(t, hash, d) {
      LossWhole(s, hash, kept, strays, damage, d);
    }
    forall name | name in t.names ensures t.names[name] < |t.data| {
      LossInside(s, hash, kept, strays, damage, name);
    }
    forall q | q in t.putters ensures Holds(t, hash, t.putters[q]) && (t.putters[q].phase.Finished? || t.putters[q].phase.Crashed?) {
      LossHolds(s, hash, kept, strays, damage, q);
    }
    forall q, r | q in t.putters && r in t.putters ensures HeldApart(t, q, r) {
      EndedApart(t, q, r);
    }
  }

  lemma {:induction false} LossWhole(s: State, hash: Hash, kept: set<Digest>, strays: map<Name, nat>, damage: map<nat, Bytes>, d: Digest)
    requires Safe(s, hash) && LossAllowed(s, kept, strays, damage)
    ensures WholeAt(LossStep(s, kept, strays, damage), hash, d)
  {
    hide HeldApart, Holds, EntriesAfter;
    assert WholeAt(s, hash, d);
    LossEntry(s, kept, strays, damage, d);
  }

  lemma {:induction false} LossInside(s: State, hash: Hash, kept: set<Digest>, strays: map<Name, nat>, damage: map<nat, Bytes>, name: Name)
    requires Safe(s, hash) && LossAllowed(s, kept, strays, damage) && name in LossStep(s, kept, strays, damage).names
    ensures LossStep(s, kept, strays, damage).names[name] < |s.data| == |LossStep(s, kept, strays, damage).data|
  {
    hide HeldApart, Holds;
    if name.Stored? {
      LossEntry(s, kept, strays, damage, name.digest);
      assert WholeAt(s, hash, name.digest);
    }
  }

  lemma {:induction false} LossHolds(s: State, hash: Hash, kept: set<Digest>, strays: map<Name, nat>, damage: map<nat, Bytes>, q: nat)
    requires Safe(s, hash) && LossAllowed(s, kept, strays, damage) && q in LossStep(s, kept, strays, damage).putters
    ensures
      var t := LossStep(s, kept, strays, damage);
      Holds(t, hash, t.putters[q]) && (t.putters[q].phase.Finished? || t.putters[q].phase.Crashed?)
  {
    hide HeldApart, WholeAt, EntriesAfter, Shown;
    assert Holds(s, hash, s.putters[q]);
  }

  lemma {:induction false} EndedApart(t: State, q: nat, r: nat)
    requires q in t.putters && r in t.putters && (t.putters[q].phase.Finished? || t.putters[q].phase.Crashed?)
    ensures HeldApart(t, q, r)
  {
  }

  lemma {:induction false} LossEntry(s: State, kept: set<Digest>, strays: map<Name, nat>, damage: map<nat, Bytes>, d: Digest)
    requires LossAllowed(s, kept, strays, damage)
    ensures
      var t := LossStep(s, kept, strays, damage);
      && (Stored(d) in t.names <==> d in kept || d in s.durable)
      && (d in kept ==> t.names[Stored(d)] == s.names[Stored(d)])
      && (d !in kept && d in s.durable ==> t.names[Stored(d)] == s.durable[d])
  {
    var entries := EntriesAfter(s, kept);
    assert Stored(d) in entries <==> d in kept || d in s.durable;
    assert Stored(d) !in strays;
  }

  function Actor(a: Action): Option<nat> {
    match a
    case Spawn(p, _, _) => Some(p)
    case Ask(p) => Some(p)
    case Number(p) => Some(p)
    case Create(p) => Some(p)
    case Write(p, _) => Some(p)
    case Sync(p) => Some(p)
    case Rename(p) => Some(p)
    case SyncDirectory(p) => Some(p)
    case Clear(p, _) => Some(p)
    case Fail(p) => Some(p)
    case _ => None
  }

  /** Every step but a foreign one keeps the invariant. */
  lemma {:induction false} StepSafe(s: State, hash: Hash, a: Action)
    requires Safe(s, hash) && !Foreign(a)
    ensures Safe(Step(s, hash, a), hash)
    ensures Step(s, hash, a) != s && Actor(a).Some? ==> Leaves(s, Step(s, hash, a), hash, Actor(a).value)
  {
    hide Safe, Leaves, AskStep, NumberStep, CreateStep, WriteStep, SyncStep, RenameStep, SyncDirectoryStep, ClearStep, FailStep, LossStep, LossAllowed;
    match a
    case Spawn(p, pid, bytes) => if p !in s.putters { SpawnSafe(s, hash, p, pid, bytes); }
    case Crash(pid) => EndedSafe(s, Step(s, hash, a), hash);
    case PowerLoss(kept, strays, damage) => if LossAllowed(s, kept, strays, damage) { LossSafe(s, hash, kept, strays, damage); }
    case Damage(_, _) =>
    case Remove(_) =>
    case Ask(p) => if p in s.putters && s.putters[p].phase.Asking? { AskSafe(s, hash, p); }
    case Number(p) => if p in s.putters && s.putters[p].phase.Lacking? { NumberSafe(s, hash, p); }
    case Create(p) => if p in s.putters && s.putters[p].phase.Numbered? { CreateSafe(s, hash, p); }
    case Write(p, count) => if p in s.putters && s.putters[p].phase.Filling? { WriteSafe(s, hash, p, count); }
    case Sync(p) => if p in s.putters && s.putters[p].phase.Filling? { SyncSafe(s, hash, p); }
    case Rename(p) => if p in s.putters && s.putters[p].phase.Ready? { RenameSafe(s, hash, p); }
    case SyncDirectory(p) =>
      if p in s.putters && (s.putters[p].phase.Found? || s.putters[p].phase.Placed?) { SyncDirectorySafe(s, hash, p); }
    case Clear(p, removed) => if p in s.putters && s.putters[p].phase.Clearing? { ClearSafe(s, hash, p, removed); }
    case Fail(p) => if p in s.putters { FailSafe(s, hash, p); }
  }

  // ---- Runs

  const Start: State := State(map[], map[], [], {}, map[], map[])

  ghost function Run(hash: Hash, actions: seq<Action>, n: nat): State
    requires n <= |actions|
  {
    if n == 0 then Start else Step(Run(hash, actions, n - 1), hash, actions[n - 1])
  }

  ghost predicate Ours(actions: seq<Action>, n: nat)
    requires n <= |actions|
  {
    forall k :: 0 <= k < n ==> !Foreign(actions[k])
  }

  lemma {:induction false} RunSafe(hash: Hash, actions: seq<Action>, n: nat)
    requires n <= |actions| && Ours(actions, n)
    ensures Safe(Run(hash, actions, n), hash)
  {
    hide Safe, Step;
    if n == 0 {
      StartSafe(hash);
    } else {
      RunSafe(hash, actions, n - 1);
      StepSafe(Run(hash, actions, n - 1), hash, actions[n - 1]);
    }
  }

  lemma {:induction false} StartSafe(hash: Hash)
    ensures Safe(Start, hash)
  {
  }

  /** Without a foreign hand every file at an artifact's path hashes to its name, whatever crashes or loses power. */
  lemma {:induction false} NeverCorrupt(hash: Hash, actions: seq<Action>, n: nat, d: Digest)
    requires n <= |actions| && Ours(actions, n)
    ensures !Get(Run(hash, actions, n), hash, d).Corrupt?
  {
    hide Run, Holds, HeldApart;
    RunSafe(hash, actions, n);
    assert WholeAt(Run(hash, actions, n), hash, d);
  }

  ghost predicate Returned(s: State, p: nat) {
    p in s.putters && s.putters[p].phase == Finished(true)
  }

  /** A put that returned stays so. */
  lemma {:induction false} ReturnedStays(s: State, hash: Hash, a: Action, p: nat)
    requires Returned(s, p)
    ensures Returned(Step(s, hash, a), p) && Step(s, hash, a).putters[p].bytes == s.putters[p].bytes
  {
  }

  lemma {:induction false} ReturnedForever(hash: Hash, actions: seq<Action>, n: nat, m: nat, p: nat)
    requires n <= m <= |actions| && Returned(Run(hash, actions, n), p)
    ensures Returned(Run(hash, actions, m), p)
    ensures Run(hash, actions, m).putters[p].bytes == Run(hash, actions, n).putters[p].bytes
  {
    hide Step;
    if n < m {
      ReturnedForever(hash, actions, n, m - 1, p);
      ReturnedStays(Run(hash, actions, m - 1), hash, actions[m - 1], p);
    }
  }

  /**
   * Once a put returned, every later get of its digest succeeds, through crashes and losses of
   * power: the directory is flushed before a put returns, also when it found the bytes stored.
   */
  lemma {:induction false} PutLasts(hash: Hash, actions: seq<Action>, n: nat, m: nat, p: nat)
    requires n <= m <= |actions| && Ours(actions, m) && Returned(Run(hash, actions, n), p)
    ensures Get(Run(hash, actions, m), hash, hash(Run(hash, actions, n).putters[p].bytes)).Bytes?
  {
    hide Run, HeldApart;
    RunSafe(hash, actions, m);
    ReturnedForever(hash, actions, n, m, p);
    var s := Run(hash, actions, m);
    assert Holds(s, hash, s.putters[p]);
    assert WholeAt(s, hash, hash(s.putters[p].bytes));
  }

  ghost predicate Injective(hash: Hash) {
    forall a: Bytes, b: Bytes :: hash(a) == hash(b) ==> a == b
  }

  /** With a hash that tells bytes apart, those gets return the very bytes that were put. */
  lemma {:induction false} PutThenGet(hash: Hash, actions: seq<Action>, n: nat, m: nat, p: nat)
    requires n <= m <= |actions| && Ours(actions, m) && Returned(Run(hash, actions, n), p) && Injective(hash)
    ensures
      var bytes := Run(hash, actions, n).putters[p].bytes;
      Get(Run(hash, actions, m), hash, hash(bytes)) == Bytes(bytes)
  {
    hide Run;
    PutLasts(hash, actions, n, m, p);
  }

  // ---- Foreign damage

  ghost function Onward(s: State, hash: Hash, actions: seq<Action>, n: nat): State
    requires n <= |actions|
  {
    if n == 0 then s else Step(Onward(s, hash, actions, n - 1), hash, actions[n - 1])
  }

  function Alone(p: nat, size: nat): seq<Action> {
    [Ask(p), Number(p), Create(p), Write(p, size), Sync(p), Rename(p), SyncDirectory(p)]
  }

  lemma {:induction false} Goes(s: State, hash: Hash, actions: seq<Action>, n: nat, t: State, u: State)
    requires n < |actions| && Onward(s, hash, actions, n) == t && Step(t, hash, actions[n]) == u
    ensures Onward(s, hash, actions, n + 1) == u
  {
    hide Step;
  }

  lemma {:induction false} OnwardNothing(s: State, hash: Hash, actions: seq<Action>)
    ensures Onward(s, hash, actions, 0) == s
  {
  }

  lemma {:induction false} AloneFills(s: State, hash: Hash, p: nat, size: nat) returns (t: State)
    requires p in s.putters && s.putters[p].phase.Asking? && size == |s.putters[p].bytes|
    requires !Get(s, hash, hash(s.putters[p].bytes)).Bytes?
    requires Temporary(hash(s.putters[p].bytes).shelf, s.putters[p].pid, Drawn(s, s.putters[p].pid)) !in s.names
    ensures Onward(s, hash, Alone(p, size), 4) == t
    ensures
      var (before, number) := (s.putters[p], Drawn(s, s.putters[p].pid));
      && t.putters == s.putters[p := before.(phase := Filling(number, |s.data|))]
      && t.names == s.names[Temporary(hash(before.bytes).shelf, before.pid, number) := |s.data|]
      && t.data == s.data + [before.bytes]
  {
    hide Onward, LossStep, LossAllowed, CrashStep, FailStep, ClearStep, SyncDirectoryStep, RenameStep, SyncStep;
    var actions, before, number := Alone(p, size), s.putters[p], Drawn(s, s.putters[p].pid);
    var s2 := Move(s, p, Numbered(number)).(counters := s.counters[before.pid := number + 1]);
    var s3 := Move(s2, p, Filling(number, |s.data|)).(names := s.names[Temporary(hash(before.bytes).shelf, before.pid, number) := |s.data|], data := s.data + [[]]);
    assert [] + before.bytes[0..size] == before.bytes;
    t := s3.(data := s.data + [before.bytes]);
    OnwardNothing(s, hash, actions);
    Goes(s, hash, actions, 0, s, Move(s, p, Lacking));
    Goes(s, hash, actions, 1, Move(s, p, Lacking), s2);
    Goes(s, hash, actions, 2, s2, s3);
    assert WriteStep(s3, p, size).data == t.data;
    Goes(s, hash, actions, 3, s3, t);
  }

  /** A put that is not disturbed repairs what is missing or damaged, from any state of the files. */
  lemma {:induction false} PutRepairs(s: State, hash: Hash, p: nat)
    requires p in s.putters && s.putters[p].phase.Asking? && !Get(s, hash, hash(s.putters[p].bytes)).Bytes?
    requires Temporary(hash(s.putters[p].bytes).shelf, s.putters[p].pid, Drawn(s, s.putters[p].pid)) !in s.names
    ensures
      var (bytes, t) := (s.putters[p].bytes, Onward(s, hash, Alone(p, |s.putters[p].bytes|), 7));
      Returned(t, p) && Get(t, hash, hash(bytes)) == Bytes(bytes) && hash(bytes) in t.durable
  {
    hide Onward, LossStep, LossAllowed, CrashStep, FailStep, ClearStep, WriteStep, CreateStep, NumberStep, AskStep;
    var bytes, number, size, i := s.putters[p].bytes, Drawn(s, s.putters[p].pid), |s.putters[p].bytes|, |s.data|;
    var actions := Alone(p, size);
    var s4 := AloneFills(s, hash, p, size);
    var s5 := Move(s4, p, Ready(number, i)).(flushed := s4.flushed + {i});
    var s6 := RenameStep(s5, hash, p);
    Goes(s, hash, actions, 4, s4, s5);
    Goes(s, hash, actions, 5, s5, s6);
    ShelfHolds(s6, hash(bytes).shelf, hash(bytes));
    Goes(s, hash, actions, 6, s6, SyncDirectoryStep(s6, hash, p));
  }
}
