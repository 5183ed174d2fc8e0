/** The content-addressed artifact store: concurrent puts step by step, with crashes, power loss and foreign damage. */
module Artifacts {
  import opened Common

  type Bytes = seq<bv8>

  /** A digest by its directory, the leading digits, and the rest. */
  datatype Digest = Digest(shelf: nat, rest: nat)

  /** The hash, of which nothing is assumed. */
  type Hash = Bytes -> Digest

  datatype Name = Stored(digest: Digest) | Temporary(shelf: nat, pid: nat, number: nat)

  /** Where a put stands. */
  datatype Phase =
    | Asking                           // about to look for the stored bytes
    | Found                            // stored intact; about to flush the directory
    | Lacking                          // about to draw a number
    | Numbered(number: nat)            // about to create its temporary file
    | Filling(number: nat, inode: nat) // writing it
    | Ready(number: nat, inode: nat)   // written and flushed, about to rename it
    | Placed                           // renamed, about to flush the directory
    | Clearing(number: nat, inode: nat) // failed, about to remove the temporary file
    | Finished(ok: bool)
    | Crashed
  {
    predicate Holding() {
      Filling? || Ready? || Clearing?
    }
  }

  datatype Putter = Putter(pid: nat, bytes: Bytes, phase: Phase)

  /** The names now and the flushed entries; inodes and which are flushed; counters; and every put ever started. */
  datatype State = State(
    names: map<Name, nat>, durable: map<Digest, nat>, data: seq<Bytes>, flushed: set<nat>,
    counters: map<nat, nat>, putters: map<nat, Putter>)

  datatype GetResult = Bytes(bytes: Bytes) | Missing | Corrupt(found: Digest)

  /** `get`: the bytes stored under a digest, checked against it: whatever the files hold, never other bytes. */
  function Get(s: State, hash: Hash, digest: Digest): (r: GetResult)
    ensures r.Bytes? ==> hash(r.bytes) == digest
    ensures r.Missing? || r.Corrupt? ==> forall i :: Stored(digest) in s.names && s.names[Stored(digest)] == i && i < |s.data| ==> hash(s.data[i]) != digest
  {
    if Stored(digest) !in s.names || s.names[Stored(digest)] >= |s.data| then Missing
    else
      var bytes := s.data[s.names[Stored(digest)]];
      if hash(bytes) == digest then Bytes(bytes) else Corrupt(hash(bytes))
  }

  datatype Action =
    | Spawn(putter: nat, pid: nat, bytes: Bytes)
    | Ask(putter: nat)
    | Number(putter: nat)
    | Create(putter: nat)
    | Write(putter: nat, count: nat)
    | Sync(putter: nat)
    | Rename(putter: nat)
    | SyncDirectory(putter: nat)
    | Clear(putter: nat, removed: bool)
    | Fail(putter: nat)
    | Crash(pid: nat)
    | PowerLoss(kept: set<Digest>, strays: map<Name, nat>, damage: map<nat, Bytes>)
    | Damage(digest: Digest, bytes: Bytes)   // a foreign hand replaces a stored file
    | Remove(digest: Digest)                 // or removes it

  function TemporaryOf(putter: Putter, hash: Hash): Name
    requires putter.phase.Numbered? || putter.phase.Holding()
  {
    Temporary(hash(putter.bytes).shelf, putter.pid, putter.phase.number)
  }

  function Drawn(s: State, pid: nat): nat {
    if pid in s.counters then s.counters[pid] else 0
  }

  function Move(s: State, p: nat, phase: Phase): State
    requires p in s.putters
  {
    s.(putters := s.putters[p := s.putters[p].(phase := phase)])
  }

  function AskStep(s: State, hash: Hash, p: nat): State
    requires p in s.putters
  {
    Move(s, p, if Get(s, hash, hash(s.putters[p].bytes)).Bytes? then Found else Lacking)
  }

  function NumberStep(s: State, p: nat): State
    requires p in s.putters
  {
    var pid := s.putters[p].pid;
    Move(s, p, Numbered(Drawn(s, pid))).(counters := s.counters[pid := Drawn(s, pid) + 1])
  }

  /** Exclusive creation: a name that is taken refuses the put. */
  function CreateStep(s: State, hash: Hash, p: nat): State
    requires p in s.putters && s.putters[p].phase.Numbered?
  {
    var name := TemporaryOf(s.putters[p], hash);
    if name in s.names then Move(s, p, Finished(false))
    else Move(s, p, Filling(s.putters[p].phase.number, |s.data|)).(names := s.names[name := |s.data|], data := s.data + [[]])
  }

  function WriteStep(s: State, p: nat, count: nat): State
    requires p in s.putters && s.putters[p].phase.Filling?
  {
    var (bytes, i) := (s.putters[p].bytes, s.putters[p].phase.inode);
    if i < |s.data| && |s.data[i]| <= |bytes| && count <= |bytes| - |s.data[i]| then
      s.(data := s.data[i := s.data[i] + bytes[|s.data[i]|..|s.data[i]| + count]])
    else s
  }

  function SyncStep(s: State, p: nat): State
    requires p in s.putters && s.putters[p].phase.Filling?
  {
    var (bytes, i) := (s.putters[p].bytes, s.putters[p].phase.inode);
    if i < |s.data| && |s.data[i]| == |bytes| then
      Move(s, p, Ready(s.putters[p].phase.number, i)).(flushed := s.flushed + {i})
    else s
  }

  /** Rename replaces whatever is stored under the digest. */
  function RenameStep(s: State, hash: Hash, p: nat): State
    requires p in s.putters && s.putters[p].phase.Ready?
  {
    var (putter, name) := (s.putters[p], TemporaryOf(s.putters[p], hash));
    if name !in s.names then Move(s, p, Clearing(putter.phase.number, putter.phase.inode))
    else Move(s, p, Placed).(names := (s.names - {name})[Stored(hash(putter.bytes)) := s.names[name]])
  }

  /** A directory flushed: its entries are from now on what they are. */
  function SyncShelf(s: State, shelf: nat): State {
    s.(durable :=
         map d | d in s.durable.Keys + Digests(s) && (d.shelf != shelf ==> d in s.durable) && (d.shelf == shelf ==> Stored(d) in s.names)
           :: if d.shelf == shelf then s.names[Stored(d)] else s.durable[d])
  }

  function Digests(s: State): set<Digest> {
    set name | name in s.names && name.Stored? :: name.digest
  }

  function SyncDirectoryStep(s: State, hash: Hash, p: nat): State
    requires p in s.putters
  {
    Move(SyncShelf(s, hash(s.putters[p].bytes).shelf), p, Finished(true))
  }

  /** The temporary file of a failed put removed, or left behind. */
  function ClearStep(s: State, hash: Hash, p: nat, removed: bool): State
    requires p in s.putters && s.putters[p].phase.Clearing?
  {
    var name := TemporaryOf(s.putters[p], hash);
    Move(if removed then s.(names := s.names - {name}) else s, p, Finished(false))
  }

  function FailStep(s: State, p: nat): State
    requires p in s.putters
  {
    var phase := s.putters[p].phase;
    if phase.Filling? || phase.Ready? then Move(s, p, Clearing(phase.number, phase.inode))
    else if phase.Finished? || phase.Crashed? || phase.Clearing? then s
    else Move(s, p, Finished(false))
  }

  function Ended(putter: Putter): Putter {
    if putter.phase.Finished? then putter else putter.(phase := Crashed)
  }

  function CrashStep(s: State, pid: nat): State {
    s.(counters := s.counters - {pid},
       putters := map p | p in s.putters :: if s.putters[p].pid == pid then Ended(s.putters[p]) else s.putters[p])
  }

  /** Each stored entry is after a loss of power what it is now or what it was when last flushed. */
  ghost predicate LossAllowed(s: State, kept: set<Digest>, strays: map<Name, nat>, damage: map<nat, Bytes>) {
    && (forall d :: d in kept ==> Stored(d) in s.names)
    && (forall name :: name in strays ==> name.Temporary? && strays[name] < |s.data|)
    && forall i :: i in damage ==> i !in s.flushed
  }

  ghost function EntriesAfter(s: State, kept: set<Digest>): map<Name, nat>
    requires forall d :: d in kept ==> Stored(d) in s.names
  {
    map d | d in kept + s.durable.Keys :: Stored(d) := if d in kept then s.names[Stored(d)] else s.durable[d]
  }

  function Damaged(data: seq<Bytes>, damage: map<nat, Bytes>): seq<Bytes> {
    seq(|data|, i requires 0 <= i < |data| => if i in damage then damage[i] else data[i])
  }

  ghost function LossStep(s: State, kept: set<Digest>, strays: map<Name, nat>, damage: map<nat, Bytes>): State
    requires LossAllowed(s, kept, strays, damage)
  {
    s.(names := EntriesAfter(s, kept) + strays, data := Damaged(s.data, damage), counters := map[],
       putters := map p | p in s.putters :: Ended(s.putters[p]))
  }

  /** One step of the system; a step that is not enabled changes nothing. */
  ghost function Step(s: State, hash: Hash, a: Action): State {
    match a
    case Spawn(p, pid, bytes) => if p in s.putters then s else s.(putters := s.putters[p := Putter(pid, bytes, Asking)])
    case Crash(pid) => CrashStep(s, pid)
    case PowerLoss(kept, strays, damage) => if LossAllowed(s, kept, strays, damage) then LossStep(s, kept, strays, damage) else s
    case Damage(d, bytes) => s.(names := s.names[Stored(d) := |s.data|], data := s.data + [bytes])
    case Remove(d) => s.(names := s.names - {Stored(d)})
    case Ask(p) => if p in s.putters && s.putters[p].phase.Asking? then AskStep(s, hash, p) else s
    case Number(p) => if p in s.putters && s.putters[p].phase.Lacking? then NumberStep(s, p) else s
    case Create(p) => if p in s.putters && s.putters[p].phase.Numbered? then CreateStep(s, hash, p) else s
    case Write(p, count) => if p in s.putters && s.putters[p].phase.Filling? then WriteStep(s, p, count) else s
    case Sync(p) => if p in s.putters && s.putters[p].phase.Filling? then SyncStep(s, p) else s
    case Rename(p) => if p in s.putters && s.putters[p].phase.Ready? then RenameStep(s, hash, p) else s
    case SyncDirectory(p) =>
      if p in s.putters && (s.putters[p].phase.Found? || s.putters[p].phase.Placed?) then SyncDirectoryStep(s, hash, p) else s
    case Clear(p, removed) => if p in s.putters && s.putters[p].phase.Clearing? then ClearStep(s, hash, p, removed) else s
    case Fail(p) => if p in s.putters then FailStep(s, p) else s
  }

  predicate Foreign(a: Action) {
    a.Damage? || a.Remove?
  }

  // ---- The invariant

  /** Whether an inode is stored or was when its directory was last flushed. */
  ghost predicate Shown(s: State, i: nat) {
    || (exists d: Digest :: Stored(d) in s.names && s.names[Stored(d)] == i)
    || (exists d: Digest :: d in s.durable && s.durable[d] == i)
  }

  ghost predicate Prefix(a: Bytes, b: Bytes) {
    |a| <= |b| && a == b[..|a|]
  }

  ghost predicate Holds(s: State, hash: Hash, putter: Putter) {
    var phase := putter.phase;
    && (phase.Holding() ==>
          var name := TemporaryOf(putter, hash);
          name in s.names && s.names[name] == phase.inode && phase.inode < |s.data| && !Shown(s, phase.inode))
    && (phase.Filling? ==> Prefix(s.data[phase.inode], putter.bytes))
    && (phase.Ready? ==> s.data[phase.inode] == putter.bytes && phase.inode in s.flushed)
    && (phase.Found? || phase.Placed? ==> Stored(hash(putter.bytes)) in s.names)
    && (phase == Finished(true) ==> hash(putter.bytes) in s.durable)
  }

  /** Bytes that are flushed and hash to a digest. */
  ghost predicate Intact(s: State, hash: Hash, d: Digest, i: nat) {
    i < |s.data| && i in s.flushed && hash(s.data[i]) == d
  }

  ghost predicate WholeAt(s: State, hash: Hash, d: Digest) {
    && (Stored(d) in s.names ==> Intact(s, hash, d, s.names[Stored(d)]))
    && (d in s.durable ==> Intact(s, hash, d, s.durable[d]) && Stored(d) in s.names)
  }

  ghost predicate HeldApart(s: State, p: nat, q: nat)
    requires p in s.putters && q in s.putters
  {
    p != q && s.putters[p].phase.Holding() && s.putters[q].phase.Holding() ==> s.putters[p].phase.inode != s.putters[q].phase.inode
  }

  ghost predicate Safe(s: State, hash: Hash) {
    && (forall name :: name in s.names ==> s.names[name] < |s.data|)
    && (forall d: Digest :: WholeAt(s, hash, d))
    && (forall p :: p in s.putters ==> Holds(s, hash, s.putters[p]))
    && forall p, q :: p in s.putters && q in s.putters ==> HeldApart(s, p, q)
  }
}
