/** The observer that keeps the model file current: which snapshots reach the file, how often
    it writes, and what a shutdown leaves. */
module Persister {
  import opened Wrappers
  import opened AtomicWrite

  /** The solver's memory; `seeded` while the loaded model has not been applied yet. */
  datatype Memory = Memory(seeded: bool, lastTs: Option<real>, content: string)

  datatype Snapshot = Snapshot(memory: Memory, wall: real)

  /** What one tick shows the observer; a memory that is not a mapping is absent. */
  datatype Tick = Tick(memory: Option<Memory>, bays: Option<string>, settle: Option<string>, settleRaises: bool)

  /** The document's bytes, or nothing when it cannot be built. */
  type Encoder = (Snapshot, Option<string>, Option<string>) -> Option<Bytes>

  datatype Attempt = Attempt(at: real, onTick: bool)

  /** A snapshot and the settle timers of the same tick. */
  datatype Record = Record(snapshot: Snapshot, settle: Option<string>)

  /** What the ticks have shown: the captures, and the bay views since the start, none among
      them. */
  datatype Shown = Shown(captures: set<Record>, views: set<Option<string>>)

  /** The bytes are the document of a capture with a bay view that was shown. */
  ghost predicate FromCapture(shown: Shown, encode: Encoder, c: Option<Bytes>) {
    c.Some? && exists p, b :: p in shown.captures && b in shown.views && encode(p.snapshot, b, p.settle) == c
  }

  /** Whatever a crash leaves in the file was there at the start or is such a document. */
  ghost predicate Sourced(fs: Fs, start: Fs, target: string, shown: Shown, encode: Encoder) {
    && AtomicWrite.Valid(fs)
    && forall c :: MayLeave(fs, target, c) ==> MayLeave(start, target, c) || FromCapture(shown, encode, c)
  }

  /** An on-tick attempt is at least `interval` after the attempt before it, or after the
      start. */
  ghost predicate Spaced(attempts: seq<Attempt>, start: real, interval: real) {
    forall i :: 0 <= i < |attempts| ==> SpacedAt(attempts, start, interval, i)
  }

  ghost predicate SpacedAt(attempts: seq<Attempt>, start: real, interval: real, i: nat)
    requires i < |attempts|
  {
    && Previous(attempts, start, i) <= attempts[i].at
    && (attempts[i].onTick ==> attempts[i].at - Previous(attempts, start, i) >= interval)
  }

  function Previous(attempts: seq<Attempt>, start: real, i: nat): real
    requires i <= |attempts|
  {
    if i == 0 then start else attempts[i - 1].at
  }

  /** Then it is at least `interval` after every earlier attempt. */
  lemma {:induction false} SpacedFromAll(attempts: seq<Attempt>, start: real, interval: real, i: nat, j: nat)
    requires Spaced(attempts, start, interval) && i < j < |attempts|
    ensures attempts[i].at <= attempts[j].at
    ensures attempts[j].onTick ==> attempts[j].at - attempts[i].at >= interval
    decreases j
  {
    assert SpacedAt(attempts, start, interval, j);
    if i < j - 1 {
      SpacedFromAll(attempts, start, interval, i, j - 1);
    }
  }

  lemma SpacedOneMore(attempts: seq<Attempt>, start: real, interval: real, a: Attempt)
    requires Spaced(attempts, start, interval) && Previous(attempts, start, |attempts|) <= a.at
    requires a.onTick ==> a.at - Previous(attempts, start, |attempts|) >= interval
    ensures Spaced(attempts + [a], start, interval)
  {
    var more := attempts + [a];
    forall i | 0 <= i < |more| ensures SpacedAt(more, start, interval, i) {
      assert Previous(more, start, i) == Previous(attempts, start, i);
      if i < |attempts| {
        assert SpacedAt(attempts, start, interval, i);
      }
    }
  }

  lemma WriteIsSourced(fs: Fs, was: Fs, start: Fs, target: string, shown: Shown, encode: Encoder, data: Bytes)
    requires Sourced(was, start, target, shown, encode) && OldOrNew(fs, was, target, data)
    requires FromCapture(shown, encode, Some(data))
    ensures Sourced(fs, start, target, shown, encode)
  {
  }

  lemma MoreShown(fs: Fs, start: Fs, target: string, shown: Shown, more: Shown, encode: Encoder)
    requires Sourced(fs, start, target, shown, encode)
    requires shown.captures <= more.captures && shown.views <= more.views
    ensures Sourced(fs, start, target, more, encode)
  {
    forall c | FromCapture(shown, encode, c) ensures FromCapture(more, encode, c) {
    }
  }

  class ModelPersister {
    const disk: Disk
    const target: string
    const pid: string
    const interval: real
    const encode: Encoder
    var writes: nat
    var errors: nat
    var lastWrite: real
    var snapshot: Option<Snapshot>
    var bays: Option<string>
    var settle: Option<string>
    var dirty: bool
    ghost const start: Fs
    ghost const began: real
    ghost var shown: Shown
    ghost var attempts: seq<Attempt>

    ghost predicate AllSourced()
      reads this, disk
    {
      && Sourced(disk.fs, start, target, shown, encode)
      && forall k :: 0 <= k < |disk.seen| ==> Sourced(disk.seen[k], start, target, shown, encode)
    }

    /** The disk is accounted for in every state it went through. */
    ghost predicate DiskValid()
      reads this, disk
    {
      AtomicWrite.Valid(disk.fs) && Private(disk.fs, TempName(target, pid), target) && AllSourced()
    }

    /** What would be written is one capture with a view that was shown, and the seed of an
        unapplied model is never captured. */
    ghost predicate Captured()
      reads this
    {
      && (forall p :: p in shown.captures ==> !p.snapshot.memory.seeded)
      && (snapshot.Some? ==> Record(snapshot.value, settle) in shown.captures) && bays in shown.views
      && (dirty ==> snapshot.Some?)
    }

    ghost predicate Paced()
      reads this
    {
      Spaced(attempts, began, interval) && lastWrite == Previous(attempts, began, |attempts|)
    }

    /** On top of that every attempt is counted, and a clean observer's file is the newest
        snapshot. */
    ghost predicate Valid()
      reads this, disk
    {
      && DiskValid() && Captured() && Paced() && |attempts| == writes + errors
      && (!dirty && snapshot.Some? ==> Current())
    }

    /** The file holds the document of the newest capture. */
    ghost predicate Current()
      requires AtomicWrite.Valid(disk.fs) && snapshot.Some?
      reads this, disk
    {
      && Content(disk.fs, target).Some?
      && exists b :: b in shown.views && encode(snapshot.value, b, settle) == Content(disk.fs, target)
    }

    constructor (disk: Disk, target: string, pid: string, interval: real, encode: Encoder, now: real)
      requires AtomicWrite.Valid(disk.fs) && disk.seen == [] && Private(disk.fs, TempName(target, pid), target)
      ensures Valid() && this.disk == disk && start == disk.fs && began == now
      ensures !dirty && snapshot.None? && shown == Shown({}, {None}) && attempts == []
    {
      this.disk, this.target, this.pid, this.interval, this.encode := disk, target, pid, interval, encode;
      writes, errors, lastWrite := 0, 0, now;
      snapshot, bays, settle, dirty := None, None, None, false;
      start, began, shown, attempts := disk.fs, now, Shown({}, {None}), [];
    }

    /** The tick carries a memory to which the loaded model has been applied. */
    static predicate Applied(t: Tick) {
      t.memory.Some? && !t.memory.value.seeded
    }

    /** What this tick adds to what was shown before. */
    static function ShownBy(shown: Shown, t: Tick, wall: real): Shown {
      if !Applied(t) then shown
      else
        Shown(if t.settleRaises then shown.captures
              else shown.captures + {Record(Snapshot(t.memory.value, wall), t.settle)},
              if t.bays.Some? then shown.views + {t.bays} else shown.views)
    }

    ghost method Show(more: Shown)
      requires DiskValid() && shown.captures <= more.captures && shown.views <= more.views
      modifies this`shown
      ensures DiskValid() && shown == more
    {
      MoreShown(disk.fs, start, target, shown, more, encode);
      forall k | 0 <= k < |disk.seen| ensures Sourced(disk.seen[k], start, target, more, encode) {
        MoreShown(disk.seen[k], start, target, shown, more, encode);
      }
      shown := more;
    }

    method Capture(t: Tick, wall: real) returns (raised: bool)
      requires Valid()
      modifies this`snapshot, this`bays, this`settle, this`dirty, this`shown
      ensures Valid() && shown == ShownBy(old(shown), t, wall)
      ensures raised <==> t.memory.Some? && !t.memory.value.seeded && t.settleRaises
      ensures if t.memory.Some? && !t.memory.value.seeded && !t.settleRaises
        then dirty && snapshot == Some(Snapshot(t.memory.value, wall)) && settle == t.settle
        else dirty == old(dirty) && snapshot == old(snapshot) && settle == old(settle)
      ensures bays == if t.memory.Some? && !t.memory.value.seeded && t.bays.Some? then t.bays else old(bays)
    {
      raised := false;
      Show(ShownBy(shown, t, wall));
      if t.memory.None? || t.memory.value.seeded {
        return;
      }
      if t.bays.Some? {
        bays := t.bays;
      }
      if t.settleRaises {
        return true;
      }
      settle := t.settle;
      snapshot := Some(Snapshot(t.memory.value, wall));
      dirty := true;
    }

    /** The disk's part of a save. */
    method Store(data: Bytes, io: Faults) returns (ok: bool)
      requires DiskValid() && Captured()
      requires snapshot.Some? && encode(snapshot.value, bays, settle) == Some(data)
      modifies disk
      ensures DiskValid()
      ensures ok == (Replaces(io, |data|) && (io.openDir ==> io.closeDir))
      ensures ok ==> Content(disk.fs, target) == Some(data)
      ensures Content(disk.fs, target) == old(Content(disk.fs, target)) || Content(disk.fs, target) == Some(data)
      ensures !Replaces(io, |data|) ==> Untouched(disk.fs, old(disk.fs), target)
    {
      ghost var was, seen := disk.fs, |disk.seen|;
      ok := WriteAtomic(disk, target, pid, data, io);
      assert FromCapture(shown, encode, Some(data)) by {
        assert Record(snapshot.value, settle) in shown.captures;
      }
      WriteIsSourced(disk.fs, was, start, target, shown, encode, data);
      forall k | 0 <= k < |disk.seen| ensures Sourced(disk.seen[k], start, target, shown, encode) {
        if k >= seen {
          WriteIsSourced(disk.seen[k], was, start, target, shown, encode, data);
        } else {
          assert disk.seen[k] == old(disk.seen)[k];
        }
      }
    }

    /** The stamp of an attempt. */
    method Begin(now: real, onTick: bool)
      requires Paced() && lastWrite <= now && (onTick ==> now - lastWrite >= interval)
      modifies this`lastWrite, this`attempts
      ensures Paced() && lastWrite == now && attempts == old(attempts) + [Attempt(now, onTick)]
    {
      SpacedOneMore(attempts, began, interval, Attempt(now, onTick));
      lastWrite := now;
      attempts := attempts + [Attempt(now, onTick)];
    }

    /** The write of an attempt. */
    method Finish(io: Faults) returns (ok: bool)
      requires DiskValid() && Captured() && snapshot.Some? && (!dirty ==> Current())
      modifies this`writes, this`errors, this`dirty, disk
      ensures DiskValid() && Captured() && (!dirty ==> Current())
      ensures ok ==> !dirty && Content(disk.fs, target) == encode(snapshot.value, bays, settle)
      ensures ok ==> writes == old(writes) + 1 && errors == old(errors)
      ensures !ok ==> dirty == old(dirty) && writes == old(writes) && errors == old(errors) + 1
      ensures var data := encode(snapshot.value, bays, settle);
        ok <==> data.Some? && Replaces(io, |data.value|) && (io.openDir ==> io.closeDir)
      ensures !ok && (io.openDir ==> io.closeDir) ==> Untouched(disk.fs, old(disk.fs), target)
    {
      var data := encode(snapshot.value, bays, settle);
      if data.None? {
        errors := errors + 1;
        return false;
      }
      ok := Store(data.value, io);
      if !ok {
        errors := errors + 1;
        return false;
      }
      writes := writes + 1;
      dirty := false;
    }

    method Save(now: real, onTick: bool, io: Faults) returns (ok: bool)
      requires Valid() && lastWrite <= now && (onTick ==> now - lastWrite >= interval)
      modifies this`writes, this`errors, this`lastWrite, this`dirty, this`attempts, disk
      ensures Valid()
      ensures snapshot.None? ==> !ok && disk.fs == old(disk.fs) && attempts == old(attempts)
      ensures snapshot.Some? ==> attempts == old(attempts) + [Attempt(now, onTick)] && lastWrite == now
      ensures ok ==> !dirty && Current() && Content(disk.fs, target) == encode(snapshot.value, bays, settle)
      ensures ok ==> writes == old(writes) + 1 && errors == old(errors)
      ensures !ok ==> dirty == old(dirty) && writes == old(writes)
      ensures !ok && snapshot.Some? ==> errors == old(errors) + 1
      ensures snapshot.Some? ==>
        var data := encode(snapshot.value, bays, settle);
        ok <==> data.Some? && Replaces(io, |data.value|) && (io.openDir ==> io.closeDir)
      ensures !ok && (io.openDir ==> io.closeDir) ==> Untouched(disk.fs, old(disk.fs), target)
    {
      if snapshot.None? {
        return false;
      }
      Begin(now, onTick);
      ok := Finish(io);
    }

    method OnTick(t: Tick, wall: real, due: real, now: real, io: Faults)
      requires Valid() && lastWrite <= due <= now
      modifies this`writes, this`errors, this`lastWrite, this`dirty, this`attempts, disk
      modifies this`snapshot, this`bays, this`settle, this`shown
      ensures Valid() && shown == ShownBy(old(shown), t, wall) && old(attempts) <= attempts
      ensures t.memory.Some? && !t.memory.value.seeded && !t.settleRaises ==>
        snapshot == Some(Snapshot(t.memory.value, wall)) && settle == t.settle
      ensures if (if t.memory.Some? && !t.memory.value.seeded then !t.settleRaises else old(dirty))
                 && due - old(lastWrite) >= interval
        then attempts == old(attempts) + [Attempt(now, true)] && lastWrite == now
             && (errors == old(errors) ==> !dirty && snapshot.Some? && Current())
        else attempts == old(attempts) && disk.fs == old(disk.fs)
    {
      var raised := Capture(t, wall);
      if !raised && dirty && due - lastWrite >= interval {
        var ok := Save(now, true, io);
      }
    }

    /** After a shutdown without an error the newest snapshot is in the file. */
    method Close(now: real, io: Faults) returns (ok: bool)
      requires Valid() && lastWrite <= now
      modifies this`writes, this`errors, this`lastWrite, this`dirty, this`attempts, disk
      ensures Valid() && old(attempts) <= attempts
      ensures errors == old(errors) && snapshot.Some? ==> Current()
      ensures ok ==> old(dirty) && Content(disk.fs, target) == encode(snapshot.value, bays, settle)
      ensures !old(dirty) ==> !ok && disk.fs == old(disk.fs) && attempts == old(attempts)
      ensures old(dirty) ==> attempts == old(attempts) + [Attempt(now, false)]
      ensures old(dirty) ==> (ok <==> errors == old(errors))
    {
      if !dirty {
        return false;
      }
      ok := Save(now, false, io);
    }
  }
}
