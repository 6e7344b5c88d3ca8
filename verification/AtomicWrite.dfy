/** The replace protocol of the model store, over a file system that may lose whatever was
    not yet synchronised when it crashes. */
module AtomicWrite {
  import opened Wrappers

  type Bytes = seq<bv8>

  /** A file: what a reader sees now, and whether that much is safe on the medium. */
  datatype File = File(data: Bytes, synced: bool)

  /** Files by inode number, the live directory, and its earlier versions since it was last
      synchronised. */
  datatype Fs = Fs(files: seq<File>, live: map<string, nat>, past: set<map<string, nat>>)

  predicate InRange(v: map<string, nat>, n: nat) {
    forall name :: name in v ==> v[name] < n
  }

  predicate Valid(fs: Fs) {
    InRange(fs.live, |fs.files|) && forall v :: v in fs.past ==> InRange(v, |fs.files|)
  }

  function Entry(v: map<string, nat>, name: string): Option<nat> {
    if name in v then Some(v[name]) else None
  }

  /** What `name` may refer to after a crash: its entry in any version since the last
      synchronisation, whatever the other names do. */
  function Entries(fs: Fs, name: string): set<Option<nat>> {
    {Entry(fs.live, name)} + set v | v in fs.past :: Entry(v, name)
  }

  /** A file not synchronised may read back as anything. */
  predicate ReadsAs(files: seq<File>, e: Option<nat>, content: Option<Bytes>) {
    if e.None? then content.None?
    else e.value < |files| && content.Some? && (files[e.value].synced ==> content.value == files[e.value].data)
  }

  /** A crash now may leave `name` with this content. */
  ghost predicate MayLeave(fs: Fs, name: string, content: Option<Bytes>) {
    exists e :: e in Entries(fs, name) && ReadsAs(fs.files, e, content)
  }

  function Content(fs: Fs, name: string): Option<Bytes>
    requires Valid(fs)
  {
    if name in fs.live then Some(fs.files[fs.live[name]].data) else None
  }

  // -- the system calls -----------------------------------------------------------

  /** The directory changes; a crash may undo the change. */
  function Relinked(fs: Fs, live: map<string, nat>): (r: Fs)
    requires Valid(fs) && InRange(live, |fs.files|)
    ensures Valid(r)
  {
    Fs(fs.files, live, fs.past + {fs.live})
  }

  /** O_CREAT | O_TRUNC: an existing file is emptied in place. */
  function Opened(fs: Fs, name: string): (r: Fs)
    requires Valid(fs)
    ensures Valid(r) && name in r.live
  {
    if name in fs.live then fs.(files := fs.files[fs.live[name] := File([], false)])
    else Relinked(fs.(files := fs.files + [File([], false)]), fs.live[name := |fs.files|])
  }

  function Written(fs: Fs, ino: nat, bytes: Bytes): Fs
    requires ino < |fs.files|
  {
    fs.(files := fs.files[ino := File(fs.files[ino].data + bytes, false)])
  }

  function Synced(fs: Fs, ino: nat): Fs
    requires ino < |fs.files|
  {
    fs.(files := fs.files[ino := fs.files[ino].(synced := true)])
  }

  function Renamed(fs: Fs, from: string, to: string): (r: Fs)
    requires Valid(fs) && from in fs.live
    ensures Valid(r)
  {
    Relinked(fs, (fs.live - {from})[to := fs.live[from]])
  }

  function Unlinked(fs: Fs, name: string): (r: Fs)
    requires Valid(fs)
    ensures Valid(r)
  {
    Relinked(fs, fs.live - {name})
  }

  function DirSynced(fs: Fs): Fs {
    fs.(past := {})
  }

  /** The operating system's view of the disk; `seen` collects every state a crash could
      have hit. */
  class Disk {
    var fs: Fs
    ghost var seen: seq<Fs>

    constructor (fs0: Fs)
      ensures fs == fs0 && seen == []
    {
      fs, seen := fs0, [];
    }

    method Open(name: string, ok: bool) returns (fd: Option<nat>)
      requires Valid(fs)
      modifies this
      ensures fd.Some? <==> ok
      ensures fs == if ok then Opened(old(fs), name) else old(fs)
      ensures ok ==> Entry(fs.live, name) == fd
      ensures seen == old(seen) + [fs]
    {
      fd := None;
      if ok {
        fs := Opened(fs, name);
        fd := Some(fs.live[name]);
      }
      seen := seen + [fs];
    }

    method Write(ino: nat, bytes: Bytes)
      requires Valid(fs) && ino < |fs.files|
      modifies this
      ensures fs == Written(old(fs), ino, bytes) && seen == old(seen) + [fs]
    {
      fs := Written(fs, ino, bytes);
      seen := seen + [fs];
    }

    method Fsync(ino: nat, ok: bool)
      requires Valid(fs) && ino < |fs.files|
      modifies this
      ensures fs == (if ok then Synced(old(fs), ino) else old(fs)) && seen == old(seen) + [fs]
    {
      if ok {
        fs := Synced(fs, ino);
      }
      seen := seen + [fs];
    }

    method Replace(from: string, to: string, ok: bool)
      requires Valid(fs) && from in fs.live
      modifies this
      ensures fs == (if ok then Renamed(old(fs), from, to) else old(fs)) && seen == old(seen) + [fs]
    {
      if ok {
        fs := Renamed(fs, from, to);
      }
      seen := seen + [fs];
    }

    method Unlink(name: string, ok: bool)
      requires Valid(fs)
      modifies this
      ensures fs == (if ok then Unlinked(old(fs), name) else old(fs)) && seen == old(seen) + [fs]
    {
      if ok {
        fs := Unlinked(fs, name);
      }
      seen := seen + [fs];
    }

    method SyncDir(ok: bool)
      requires Valid(fs)
      modifies this
      ensures fs == (if ok then DirSynced(old(fs)) else old(fs)) && seen == old(seen) + [fs]
    {
      if ok {
        fs := DirSynced(fs);
      }
      seen := seen + [fs];
    }
  }

  // -- where the target stands ------------------------------------------------------

  /** The target's possible entries and their files are as they were. */
  ghost predicate Untouched(fs: Fs, start: Fs, target: string) {
    && Valid(fs)
    && Entries(fs, target) == Entries(start, target) && Entry(fs.live, target) == Entry(start.live, target)
    && FilesKept(fs, start, target)
  }

  ghost predicate FilesKept(fs: Fs, start: Fs, target: string) {
    |start.files| <= |fs.files|
    && forall e :: e in Entries(start, target) && e.Some? && e.value < |start.files|
                   ==> fs.files[e.value] == start.files[e.value]
  }

  /** The temporary file is not one the target could turn out to be. */
  ghost predicate Private(fs: Fs, tmp: string, target: string) {
    tmp in fs.live ==> Some(fs.live[tmp]) !in Entries(fs, target)
  }

  /** The new file is complete, on the medium, and live under the target's name. */
  ghost predicate Placed(fs: Fs, start: Fs, target: string, data: Bytes) {
    && Valid(fs)
    && target in fs.live && fs.files[fs.live[target]] == File(data, true)
    && Entries(fs, target) == Entries(start, target) + {Some(fs.live[target])}
    && FilesKept(fs, start, target)
  }

  /** A crash in state `fs` leaves what the target could hold before, or the new bytes;
      readers see the old file or the new one. */
  ghost predicate OldOrNew(fs: Fs, start: Fs, target: string, data: Bytes)
    requires Valid(start)
  {
    && Valid(fs)
    && (forall c :: MayLeave(fs, target, c) ==> MayLeave(start, target, c) || c == Some(data))
    && (Content(fs, target) == Content(start, target) || Content(fs, target) == Some(data))
  }

  lemma EntriesValid(fs: Fs, name: string, e: Option<nat>)
    requires Valid(fs) && e in Entries(fs, name) && e.Some?
    ensures e.value < |fs.files|
  {
  }

  lemma UntouchedKeeps(fs: Fs, start: Fs, target: string)
    requires Valid(start) && Untouched(fs, start, target)
    ensures forall c :: MayLeave(fs, target, c) <==> MayLeave(start, target, c)
    ensures Content(fs, target) == Content(start, target)
  {
    assert Entry(start.live, target) in Entries(start, target);
    forall c, e | e in Entries(start, target)
      ensures ReadsAs(fs.files, e, c) <==> ReadsAs(start.files, e, c)
    {
      if e.Some? {
        EntriesValid(start, target, e);
      }
    }
  }

  lemma PlacedIsOldOrNew(fs: Fs, start: Fs, target: string, data: Bytes)
    requires Valid(start) && Placed(fs, start, target, data)
    ensures forall c :: MayLeave(fs, target, c) <==> MayLeave(start, target, c) || c == Some(data)
    ensures Content(fs, target) == Some(data)
  {
    forall c, e | e in Entries(start, target)
      ensures ReadsAs(fs.files, e, c) <==> ReadsAs(start.files, e, c)
    {
      if e.Some? {
        EntriesValid(start, target, e);
      }
    }
    var now := Some(fs.live[target]);
    assert now in Entries(fs, target) && ReadsAs(fs.files, now, Some(data));
  }

  // -- the steps of the protocol ------------------------------------------------------

  /** The temporary file `ino` is open and the target does not depend on it. */
  ghost predicate Staging(fs: Fs, start: Fs, tmp: string, target: string, ino: nat) {
    && Untouched(fs, start, target) && ino < |fs.files|
    && Entry(fs.live, tmp) == Some(ino) && Some(ino) !in Entries(start, target)
  }

  lemma OpenStages(start: Fs, tmp: string, target: string)
    requires Valid(start) && Private(start, tmp, target) && tmp != target
    ensures Staging(Opened(start, tmp), start, tmp, target, Opened(start, tmp).live[tmp])
  {
    var fs := Opened(start, tmp);
    if tmp !in start.live && Some(|start.files|) in Entries(start, target) {
      EntriesValid(start, target, Some(|start.files|));
    }
    assert Entries(fs, target) == Entries(start, target);
  }

  /** Changing the temporary file's bytes or their safety changes nothing about the target. */
  lemma TouchingKeepsStaging(fs: Fs, next: Fs, start: Fs, tmp: string, target: string, ino: nat, f: File)
    requires Staging(fs, start, tmp, target, ino) && next == fs.(files := fs.files[ino := f])
    ensures Staging(next, start, tmp, target, ino)
  {
  }

  lemma RenamePlaces(fs: Fs, start: Fs, tmp: string, target: string, ino: nat, data: Bytes)
    requires Staging(fs, start, tmp, target, ino) && fs.files[ino] == File(data, true) && tmp != target
    ensures Placed(Renamed(fs, tmp, target), start, target, data)
    ensures tmp !in Renamed(fs, tmp, target).live
  {
    var r := Renamed(fs, tmp, target);
    assert Entries(r, target) == Entries(fs, target) + {Some(ino)};
  }

  lemma UnlinkLeavesTarget(fs: Fs, start: Fs, tmp: string, target: string)
    requires Untouched(fs, start, target) && tmp != target
    ensures Untouched(Unlinked(fs, tmp), start, target)
  {
    assert Entries(Unlinked(fs, tmp), target) == Entries(fs, target);
  }

  lemma SyncedDirIsDurable(fs: Fs, start: Fs, target: string, data: Bytes)
    requires Valid(start) && Placed(fs, start, target, data)
    ensures forall c :: MayLeave(DirSynced(fs), target, c) <==> c == Some(data)
    ensures Content(DirSynced(fs), target) == Some(data)
  {
    var r := DirSynced(fs);
    assert Entries(r, target) == {Some(r.live[target])};
    assert ReadsAs(r.files, Some(r.live[target]), Some(data));
  }

  /** How each call of one run of the protocol turns out: a write takes some bytes or fails. */
  datatype Faults = Faults(open: bool, write: nat -> Option<nat>, fsync: bool, close: bool,
                           replace: bool, unlink: bool, openDir: bool, fsyncDir: bool, closeDir: bool)

  /** A write of n > 0 bytes takes at least one and at most all. */
  function Taken(k: nat, n: nat): (t: nat)
    requires n > 0
    ensures 1 <= t <= n
  {
    if k < 1 then 1 else if k < n then k else n
  }

  /** The write loop, from its k-th call on, gets through n more bytes. */
  predicate Writable(n: nat, write: nat -> Option<nat>, k: nat) {
    n == 0 || (write(k).Some? && Writable(n - Taken(write(k).value, n), write, k + 1))
  }

  /** Every call up to the rename goes through. */
  predicate Replaces(io: Faults, n: nat) {
    io.open && Writable(n, io.write, 0) && io.fsync && io.close && io.replace
  }

  ghost predicate AllOldOrNew(states: seq<Fs>, first: nat, start: Fs, target: string, data: Bytes)
    requires Valid(start)
  {
    forall k :: first <= k < |states| ==> OldOrNew(states[k], start, target, data)
  }

  /** The states added to `before` leave the old or the new content. */
  ghost predicate Passed(states: seq<Fs>, before: seq<Fs>, start: Fs, target: string, data: Bytes)
    requires Valid(start)
  {
    before <= states && AllOldOrNew(states, |before|, start, target, data)
  }

  lemma PassedOneMore(states: seq<Fs>, fs: Fs, before: seq<Fs>, start: Fs, target: string, data: Bytes)
    requires Valid(start) && Passed(states, before, start, target, data) && OldOrNew(fs, start, target, data)
    ensures Passed(states + [fs], before, start, target, data)
  {
  }

  /** Opens the temporary file. */
  method OpenTemp(disk: Disk, target: string, tmp: string, ok: bool, ghost data: Bytes) returns (fd: Option<nat>)
    requires Valid(disk.fs) && Private(disk.fs, tmp, target) && tmp != target
    modifies disk
    ensures fd.Some? <==> ok
    ensures fd.None? ==> disk.fs == old(disk.fs)
    ensures fd.Some? ==> Staging(disk.fs, old(disk.fs), tmp, target, fd.value) && disk.fs.files[fd.value].data == []
    ensures Passed(disk.seen, old(disk.seen), old(disk.fs), target, data)
    ensures Framed(disk.fs, old(disk.fs), tmp, target)
  {
    ghost var start := disk.fs;
    fd := disk.Open(tmp, ok);
    if ok {
      OpenStages(start, tmp, target);
    }
    UntouchedKeeps(disk.fs, start, target);
  }

  method Fill(disk: Disk, fd: nat, data: Bytes, io: Faults, ghost start: Fs, ghost tmp: string,
              ghost target: string, ghost before: seq<Fs>) returns (ok: bool)
    requires Valid(start) && Staging(disk.fs, start, tmp, target, fd) && disk.fs.files[fd].data == []
    requires Passed(disk.seen, before, start, target, data) && Framed(disk.fs, start, tmp, target)
    modifies disk
    ensures Staging(disk.fs, start, tmp, target, fd)
    ensures ok <==> Writable(|data|, io.write, 0) && io.fsync && io.close
    ensures ok ==> disk.fs.files[fd] == File(data, true)
    ensures Passed(disk.seen, before, start, target, data) && Framed(disk.fs, start, tmp, target)
  {
    var view, k := data, 0;
    while view != []
      invariant Staging(disk.fs, start, tmp, target, fd)
      invariant data == disk.fs.files[fd].data + view
      invariant Writable(|data|, io.write, 0) <==> Writable(|view|, io.write, k)
      invariant Passed(disk.seen, before, start, target, data) && Framed(disk.fs, start, tmp, target)
      decreases |view|
    {
      var outcome := io.write(k);
      if outcome.None? {
        return false;
      }
      var written := Taken(outcome.value, |view|);
      ghost var was, states := disk.fs, disk.seen;
      disk.Write(fd, view[..written]);
      TouchingKeepsStaging(was, disk.fs, start, tmp, target, fd, disk.fs.files[fd]);
      UntouchedKeeps(disk.fs, start, target);
      PassedOneMore(states, disk.fs, before, start, target, data);
      view := view[written..];
      k := k + 1;
    }
    ghost var was, states := disk.fs, disk.seen;
    disk.Fsync(fd, io.fsync);
    TouchingKeepsStaging(was, disk.fs, start, tmp, target, fd, disk.fs.files[fd]);
    UntouchedKeeps(disk.fs, start, target);
    PassedOneMore(states, disk.fs, before, start, target, data);
    ok := io.fsync && io.close;
  }

  /** Names other than these two refer to what they did. */
  ghost predicate Framed(fs: Fs, start: Fs, tmp: string, target: string) {
    forall name :: name != tmp && name != target ==> Entry(fs.live, name) == Entry(start.live, name)
  }

  lemma RenameFrames(fs: Fs, start: Fs, tmp: string, target: string)
    requires Valid(fs) && tmp in fs.live && Framed(fs, start, tmp, target)
    ensures Framed(Renamed(fs, tmp, target), start, tmp, target)
  {
    forall name | name != tmp && name != target
      ensures Entry(Renamed(fs, tmp, target).live, name) == Entry(start.live, name)
    {
      assert Entry(fs.live, name) == Entry(start.live, name);
    }
  }

  function TempName(target: string, pid: string): string {
    "." + target + "." + pid + ".tmp"
  }

  /** Puts the filled temporary file in the target's place. */
  method Commit(disk: Disk, target: string, tmp: string, fd: nat, data: Bytes, ok: bool, ghost start: Fs,
                ghost before: seq<Fs>)
    requires Valid(start) && tmp != target && Staging(disk.fs, start, tmp, target, fd)
    requires Passed(disk.seen, before, start, target, data)
    requires disk.fs.files[fd] == File(data, true) && Framed(disk.fs, start, tmp, target)
    modifies disk
    ensures !ok ==> disk.fs == old(disk.fs)
    ensures ok ==> Placed(disk.fs, start, target, data) && tmp !in disk.fs.live
    ensures Passed(disk.seen, before, start, target, data) && Framed(disk.fs, start, tmp, target)
  {
    ghost var staged, states := disk.fs, disk.seen;
    disk.Replace(tmp, target, ok);
    if ok {
      RenameFrames(staged, start, tmp, target);
      RenamePlaces(staged, start, tmp, target, fd, data);
      PlacedIsOldOrNew(disk.fs, start, target, data);
    } else {
      UntouchedKeeps(disk.fs, start, target);
    }
    PassedOneMore(states, disk.fs, before, start, target, data);
  }

  /** Removes the temporary file after a failure. */
  method RollBack(disk: Disk, target: string, tmp: string, ok: bool, ghost start: Fs, ghost data: Bytes,
                  ghost before: seq<Fs>)
    requires Valid(start) && tmp != target && Untouched(disk.fs, start, target)
    requires Passed(disk.seen, before, start, target, data)
    requires Private(disk.fs, tmp, target) && Framed(disk.fs, start, tmp, target)
    modifies disk
    ensures Untouched(disk.fs, start, target) && Private(disk.fs, tmp, target)
    ensures ok ==> tmp !in disk.fs.live
    ensures Passed(disk.seen, before, start, target, data) && Framed(disk.fs, start, tmp, target)
  {
    ghost var states := disk.seen;
    UnlinkLeavesTarget(disk.fs, start, tmp, target);
    disk.Unlink(tmp, ok);
    UntouchedKeeps(disk.fs, start, target);
    PassedOneMore(states, disk.fs, before, start, target, data);
  }

  /** Up to and including the rename; on a failure the temporary file is removed. */
  method ReplaceFile(disk: Disk, target: string, tmp: string, data: Bytes, io: Faults) returns (ok: bool)
    requires Valid(disk.fs) && Private(disk.fs, tmp, target) && tmp != target
    modifies disk
    ensures ok <==> Replaces(io, |data|)
    ensures Passed(disk.seen, old(disk.seen), old(disk.fs), target, data)
    ensures !ok ==> Untouched(disk.fs, old(disk.fs), target) && Private(disk.fs, tmp, target)
    ensures ok ==> Placed(disk.fs, old(disk.fs), target, data) && tmp !in disk.fs.live
    ensures !ok && io.open && io.unlink ==> tmp !in disk.fs.live
    ensures Framed(disk.fs, old(disk.fs), tmp, target)
  {
    ghost var start, before := disk.fs, disk.seen;
    var fd := OpenTemp(disk, target, tmp, io.open, data);
    if fd.None? {
      return false;
    }
    ok := Fill(disk, fd.value, data, io, start, tmp, target, before);
    if ok {
      Commit(disk, target, tmp, fd.value, data, io.replace, start, before);
      ok := io.replace;
    }
    if !ok {
      RollBack(disk, target, tmp, io.unlink, start, data, before);
    }
  }

  /** Nothing of the target still waits for the medium: a crash leaves what readers see. */
  ghost predicate Settled(fs: Fs, target: string)
    requires Valid(fs)
  {
    forall c :: MayLeave(fs, target, c) <==> c == Content(fs, target)
  }

  /** The directory was synchronised after the new file came into place. */
  ghost predicate Durable(fs: Fs, target: string, data: Bytes) {
    Valid(fs) && Content(fs, target) == Some(data) && Settled(fs, target)
  }

  /** Writes `data` to `target` by way of a temporary file. In every state on the way a crash
      leaves the complete old or the complete new bytes. Without the rename the target is as
      it was; with it readers see the new bytes, and they survive any crash once the
      directory is synchronised, which the result does not report. A failed close of the
      directory is reported although the new file is in place. */
  method WriteAtomic(disk: Disk, target: string, pid: string, data: Bytes, io: Faults) returns (ok: bool)
    requires Valid(disk.fs) && Private(disk.fs, TempName(target, pid), target)
    modifies disk
    ensures Private(disk.fs, TempName(target, pid), target)
    ensures ok <==> io.open && Writable(|data|, io.write, 0) && io.fsync && io.close && io.replace
                    && (io.openDir ==> io.closeDir)
    ensures Passed(disk.seen, old(disk.seen), old(disk.fs), target, data)
    ensures OldOrNew(disk.fs, old(disk.fs), target, data)
    ensures !Replaces(io, |data|) ==> Untouched(disk.fs, old(disk.fs), target)
    ensures Replaces(io, |data|) && io.openDir && io.fsyncDir ==> Durable(disk.fs, target, data)
    ensures Replaces(io, |data|) && !(io.openDir && io.fsyncDir) ==> Placed(disk.fs, old(disk.fs), target, data)
    ensures Replaces(io, |data|) ==> Content(disk.fs, target) == Some(data)
    ensures Replaces(io, |data|) || (io.open && io.unlink) ==> TempName(target, pid) !in disk.fs.live
    ensures Framed(disk.fs, old(disk.fs), TempName(target, pid), target)
  {
    var tmp := TempName(target, pid);
    assert |tmp| > |target|;
    ghost var start := disk.fs;
    ok := ReplaceFile(disk, target, tmp, data, io);
    if !ok {
      UntouchedKeeps(disk.fs, start, target);
      return false;
    }
    PlacedIsOldOrNew(disk.fs, start, target, data);
    if !io.openDir {
      return true;
    }
    SyncedDirIsDurable(disk.fs, start, target, data);
    disk.SyncDir(io.fsyncDir);
    ok := io.closeDir;
  }

  lemma WritableAtOnce(n: nat, write: nat -> Option<nat>)
    requires write(0) == Some(n)
    ensures Writable(n, write, 0)
  {
    if n > 0 {
      assert Writable(n - n, write, 1);
    }
  }

  /** Without a failing call all bytes are written, however they are split. */
  lemma {:induction false} NoFailureWritesAll(n: nat, write: nat -> Option<nat>, k: nat)
    requires forall i: nat :: write(i).Some?
    ensures Writable(n, write, k)
    decreases n
  {
    if n > 0 {
      NoFailureWritesAll(n - Taken(write(k).value, n), write, k + 1);
    }
  }

  /** When every call takes one byte and the m-th fails, exactly m bytes can be written. */
  lemma {:induction false} OneByteACall(n: nat, write: nat -> Option<nat>, k: nat, m: nat)
    requires k <= m && write(m).None? && forall i: nat :: k <= i < m ==> write(i) == Some(1)
    ensures Writable(n, write, k) <==> n <= m - k
    decreases n
  {
    if n > 0 && k < m {
      OneByteACall(n - 1, write, k + 1, m);
    }
  }

  /** A failed close of the directory makes the call fail after the file was replaced. */
  method FailureMayReplace(disk: Disk, target: string, pid: string, data: Bytes) returns (ok: bool)
    requires Valid(disk.fs) && Private(disk.fs, TempName(target, pid), target)
    modifies disk
    ensures !ok && Valid(disk.fs) && Content(disk.fs, target) == Some(data)
  {
    var io := Faults(true, (k: nat) => Some(|data|), true, true, true, true, true, true, false);
    WritableAtOnce(|data|, io.write);
    ok := WriteAtomic(disk, target, pid, data, io);
  }

  // -- a durable start --------------------------------------------------------------------

  lemma SyncedIsSettled(fs: Fs, target: string)
    requires Valid(fs) && fs.past == {} && (target in fs.live ==> fs.files[fs.live[target]].synced)
    ensures Settled(fs, target)
  {
    var e := Entry(fs.live, target);
    assert Entries(fs, target) == {e} && ReadsAs(fs.files, e, Content(fs, target));
  }

  /** From a settled start every state on the way leaves exactly the old or the new bytes, with
      nothing older among them. */
  lemma OldBytesOrNewBytes(states: seq<Fs>, first: nat, start: Fs, target: string, data: Bytes)
    requires Valid(start) && Settled(start, target) && AllOldOrNew(states, first, start, target, data)
    ensures forall k, c :: first <= k < |states| && MayLeave(states[k], target, c) ==>
      c == Content(start, target) || c == Some(data)
  {
  }
}
