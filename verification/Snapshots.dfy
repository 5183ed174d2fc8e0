/** Publishing snapshots: concurrent writers step by step over names, inodes and bytes, with crashes and power loss. */
module Snapshots {
  import opened Common

  type Bytes = seq<bv8>

  /** The two files of a snapshot. */
  datatype File = Original | Json

  /** What one writer saves. */
  datatype Job = Job(markdown: Bytes, json: Bytes) {
    function Of(file: File): Bytes {
      match file case Original => markdown case Json => json
    }
  }

  datatype Name = Published(file: File) | Pending(of: File, pid: nat, number: nat)

  /** Where a writer stands in writing its current file. */
  datatype Phase =
    | Checking                                // about to look for an existing file
    | Absent                                  // no file found; about to draw a number
    | Numbered(number: nat)                   // about to create its pending file
    | Filling(number: nat, inode: nat)        // writing the pending file
    | Ready(number: nat, inode: nat)          // filled and flushed, about to link it
    | Linked(number: nat, inode: nat)         // linked, the directory not flushed yet
    | Meeting(number: nat, inode: nat)        // another file was there first
    | Cleaning(number: nat, inode: nat, ok: bool) // about to remove the pending file
    | Finished(ok: bool)
    | Crashed
  {
    predicate Holding() {
      Filling? || Ready? || Linked? || Meeting? || Cleaning?
    }
  }

  datatype Writer = Writer(pid: nat, job: Job, file: File, phase: Phase) {
    function Temporary(): Name
      requires phase.Numbered? || phase.Holding()
    {
      Pending(file, pid, phase.number)
    }

    function Content(): Bytes {
      job.Of(file)
    }
  }

  /**
   * The directory's names and the inodes' bytes; which inodes and which published entries are
   * flushed; each process's counter; and every writer ever started.
   */
  datatype State = State(
    names: map<Name, nat>, data: seq<Bytes>, flushed: set<nat>, synced: set<File>,
    counters: map<nat, nat>, writers: map<nat, Writer>)

  datatype Action =
    | Spawn(writer: nat, pid: nat, job: Job)
    | Check(writer: nat)
    | Number(writer: nat)
    | Create(writer: nat)
    | Write(writer: nat, count: nat)
    | Sync(writer: nat)
    | Link(writer: nat)
    | SyncEntries(writer: nat)
    | Meet(writer: nat)
    | Clean(writer: nat, removed: bool)
    | Fail(writer: nat)
    | Crash(pid: nat)
    | PowerLoss(lost: set<Name>, strays: map<Name, nat>, damage: map<nat, Bytes>)

  function Visible(s: State, file: File): Option<Bytes> {
    if Published(file) in s.names && s.names[Published(file)] < |s.data| then Some(s.data[s.names[Published(file)]]) else None
  }

  function Put(s: State, w: nat, phase: Phase): State
    requires w in s.writers
  {
    s.(writers := s.writers[w := s.writers[w].(phase := phase)])
  }

  /** A file done: the original is followed by the document, which is published last. */
  function Settled(s: State, w: nat): State
    requires w in s.writers
  {
    if s.writers[w].file.Original? then s.(writers := s.writers[w := s.writers[w].(file := Json, phase := Checking)])
    else Put(s, w, Finished(true))
  }

  /** `verify_existing` before anything is written: an equal file is kept, a different one refused. */
  function CheckStep(s: State, w: nat): State
    requires w in s.writers && s.writers[w].phase.Checking?
  {
    match Visible(s, s.writers[w].file)
    case Some(bytes) => if bytes == s.writers[w].Content() then Settled(s, w) else Put(s, w, Finished(false))
    case None => Put(s, w, Absent)
  }

  /** The per-process counter drawn, atomically. */
  function NumberStep(s: State, w: nat): State
    requires w in s.writers && s.writers[w].phase.Absent?
  {
    var pid := s.writers[w].pid;
    Put(s, w, Numbered(Drawn(s, pid))).(counters := s.counters[pid := Drawn(s, pid) + 1])
  }

  function Drawn(s: State, pid: nat): nat {
    if pid in s.counters then s.counters[pid] else 0
  }

  /** Exclusive creation of the pending file: a name that is taken refuses the writer. */
  function CreateStep(s: State, w: nat): State
    requires w in s.writers && s.writers[w].phase.Numbered?
  {
    var name := s.writers[w].Temporary();
    if name in s.names then Put(s, w, Finished(false))
    else
      Put(s, w, Filling(s.writers[w].phase.number, |s.data|)).(names := s.names[name := |s.data|], data := s.data + [[]])
  }

  /** Some more of the bytes written. */
  function WriteStep(s: State, w: nat, count: nat): State
    requires w in s.writers && s.writers[w].phase.Filling?
  {
    var (writer, i) := (s.writers[w], s.writers[w].phase.inode);
    if i < |s.data| && |s.data[i]| <= |writer.Content()| && count <= |writer.Content()| - |s.data[i]| then
      s.(data := s.data[i := s.data[i] + writer.Content()[|s.data[i]|..|s.data[i]| + count]])
    else s
  }

  /** The whole file written and flushed. */
  function SyncStep(s: State, w: nat): State
    requires w in s.writers && s.writers[w].phase.Filling?
  {
    var (writer, i) := (s.writers[w], s.writers[w].phase.inode);
    if i < |s.data| && |s.data[i]| == |writer.Content()| then
      Put(s, w, Ready(writer.phase.number, i)).(flushed := s.flushed + {i})
    else s
  }

  /** `link`: never replaces a name. */
  function LinkStep(s: State, w: nat): State
    requires w in s.writers && s.writers[w].phase.Ready?
  {
    var writer := s.writers[w];
    if writer.Temporary() !in s.names then Put(s, w, Cleaning(writer.phase.number, writer.phase.inode, false))
    else if Published(writer.file) in s.names then Put(s, w, Meeting(writer.phase.number, writer.phase.inode))
    else
      Put(s, w, Linked(writer.phase.number, writer.phase.inode)).(names := s.names[Published(writer.file) := s.names[writer.Temporary()]])
  }

  /** The directory flushed: every entry it holds now survives. */
  function SyncEntriesStep(s: State, w: nat): State
    requires w in s.writers && s.writers[w].phase.Linked?
  {
    var phase := s.writers[w].phase;
    Put(s, w, Cleaning(phase.number, phase.inode, true)).(synced := set f: File | Published(f) in s.names)
  }

  /** `verify_existing` after the link was refused. */
  function MeetStep(s: State, w: nat): State
    requires w in s.writers && s.writers[w].phase.Meeting?
  {
    var phase := s.writers[w].phase;
    Put(s, w, Cleaning(phase.number, phase.inode, Visible(s, s.writers[w].file) == Some(s.writers[w].Content())))
  }

  /** The pending file removed; a removal that fails refuses the writer. */
  function CleanStep(s: State, w: nat, removed: bool): State
    requires w in s.writers && s.writers[w].phase.Cleaning?
  {
    var name := s.writers[w].Temporary();
    var after := if removed then s.(names := s.names - {name}) else s;
    if removed && name in s.names && s.writers[w].phase.ok then Settled(after, w) else Put(after, w, Finished(false))
  }

  /** An error at the current step: a pending file of the writer is still to be removed. */
  function FailStep(s: State, w: nat): State
    requires w in s.writers
  {
    var phase := s.writers[w].phase;
    if phase.Filling? || phase.Ready? || phase.Linked? || phase.Meeting? then Put(s, w, Cleaning(phase.number, phase.inode, false))
    else if phase.Checking? || phase.Absent? || phase.Numbered? then Put(s, w, Finished(false))
    else s
  }

  function Ended(writer: Writer): Writer {
    if writer.phase.Finished? then writer else writer.(phase := Crashed)
  }

  /** A process ends; a later one with its number starts counting again. */
  function CrashStep(s: State, pid: nat): State {
    s.(counters := s.counters - {pid},
       writers := map w | w in s.writers :: if s.writers[w].pid == pid then Ended(s.writers[w]) else s.writers[w])
  }

  /** What a loss of power may do: it keeps flushed entries and flushed bytes, and nothing else for sure. */
  ghost predicate LossAllowed(s: State, lost: set<Name>, strays: map<Name, nat>, damage: map<nat, Bytes>) {
    && (forall file :: file in s.synced ==> Published(file) !in lost)
    && (forall name :: name in strays ==> name.Pending? && strays[name] < |s.data|)
    && forall i :: i in damage ==> i !in s.flushed
  }

  function Damaged(data: seq<Bytes>, damage: map<nat, Bytes>): seq<Bytes> {
    seq(|data|, i requires 0 <= i < |data| => if i in damage then damage[i] else data[i])
  }

  ghost function LossStep(s: State, lost: set<Name>, strays: map<Name, nat>, damage: map<nat, Bytes>): State {
    s.(names := (s.names - lost) + strays, data := Damaged(s.data, damage), counters := map[],
       writers := map w | w in s.writers :: Ended(s.writers[w]))
  }

  /** One step of the system; a step that is not enabled changes nothing. */
  ghost function Step(s: State, a: Action): State {
    match a
    case Spawn(w, pid, job) => if w in s.writers then s else s.(writers := s.writers[w := Writer(pid, job, Original, Checking)])
    case Crash(pid) => CrashStep(s, pid)
    case PowerLoss(lost, strays, damage) => if LossAllowed(s, lost, strays, damage) then LossStep(s, lost, strays, damage) else s
    case Check(w) => if w in s.writers && s.writers[w].phase.Checking? then CheckStep(s, w) else s
    case Number(w) => if w in s.writers && s.writers[w].phase.Absent? then NumberStep(s, w) else s
    case Create(w) => if w in s.writers && s.writers[w].phase.Numbered? then CreateStep(s, w) else s
    case Write(w, count) => if w in s.writers && s.writers[w].phase.Filling? then WriteStep(s, w, count) else s
    case Sync(w) => if w in s.writers && s.writers[w].phase.Filling? then SyncStep(s, w) else s
    case Link(w) => if w in s.writers && s.writers[w].phase.Ready? then LinkStep(s, w) else s
    case SyncEntries(w) => if w in s.writers && s.writers[w].phase.Linked? then SyncEntriesStep(s, w) else s
    case Meet(w) => if w in s.writers && s.writers[w].phase.Meeting? then MeetStep(s, w) else s
    case Clean(w, removed) => if w in s.writers && s.writers[w].phase.Cleaning? then CleanStep(s, w, removed) else s
    case Fail(w) => if w in s.writers then FailStep(s, w) else s
  }
}
