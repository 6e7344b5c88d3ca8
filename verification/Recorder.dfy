/** The rotating recording: `path` is file 0 and `path.i` is file i, one record per line. */
module Recorder {
  import opened Strings
  import opened Wrappers

  // -- text and lines ---------------------------------------------------------------

  function Text(line: string): string {
    line + "\n"
  }

  function Join(lines: seq<string>): string {
    if lines == [] then "" else Join(lines[..|lines| - 1]) + Text(lines[|lines| - 1])
  }

  /** The complete lines of a text. */
  function Split(text: string): seq<string> {
    if text == "" then []
    else
      var rest := Split(text[1..]);
      if text[0] == '\n' then [""] + rest
      else if rest == [] then []
      else [[text[0]] + rest[0]] + rest[1..]
  }

  predicate OneLine(line: string) {
    '\n' !in line
  }

  lemma {:induction false} SplitFirst(line: string, text: string)
    requires OneLine(line)
    ensures Split(Text(line) + text) == [line] + Split(text)
  {
    var all := Text(line) + text;
    if line == "" {
      assert all[1..] == text;
    } else {
      SplitFirst(line[1..], text);
      assert all[1..] == Text(line[1..]) + text;
      assert [line[0]] + line[1..] == line;
    }
  }

  lemma {:induction false} JoinSplits(a: seq<string>, b: seq<string>)
    ensures Join(a + b) == Join(a) + Join(b)
  {
    if b == [] {
      assert a + b == a;
    } else {
      var k := |b| - 1;
      JoinSplits(a, b[..k]);
      assert (a + b)[..|a + b| - 1] == a + b[..k];
      Associative(Join(a), Join(b[..k]), Text(b[k]));
    }
  }

  /** A file reads back as the lines written to it. */
  lemma {:induction false} ReadBack(lines: seq<string>)
    requires forall line :: line in lines ==> OneLine(line)
    ensures Split(Join(lines)) == lines
  {
    if lines != [] {
      ReadBack(lines[1..]);
      JoinSplits(lines[..1], lines[1..]);
      assert lines[..1] + lines[1..] == lines;
      assert lines[..1][..0] == [];
      assert Join(lines[..1]) == Text(lines[0]);
      SplitFirst(lines[0], Join(lines[1..]));
    }
  }

  // -- the set of files ---------------------------------------------------------------

  function Get<T>(files: map<nat, seq<T>>, i: nat): seq<T> {
    if i in files then files[i] else []
  }

  /** Files n down to 0, one after the other. */
  function OldestFirst<T>(files: map<nat, seq<T>>, n: nat): seq<T> {
    if n == 0 then Get(files, 0) else Get(files, n) + OldestFirst(files, n - 1)
  }

  /** Every file one place up, the last one gone, an empty file in front. */
  function Shifted<T>(files: map<nat, seq<T>>, n: nat): map<nat, seq<T>> {
    Raised(files, n)[0 := []]
  }

  function Raised<T>(files: map<nat, seq<T>>, n: nat): map<nat, seq<T>> {
    if n == 0 then map[]
    else
      var r := Raised(files, n - 1);
      if n - 1 in files then r[n := files[n - 1]] else r
  }

  lemma {:induction false} RaisedAt<T>(files: map<nat, seq<T>>, n: nat, j: nat)
    ensures j in Raised(files, n) <==> 0 < j <= n && j - 1 in files
    ensures j in Raised(files, n) ==> Raised(files, n)[j] == files[j - 1]
  {
    if n > 0 {
      RaisedAt(files, n - 1, j);
    }
  }

  lemma ShiftedAt<T>(files: map<nat, seq<T>>, n: nat, j: nat)
    ensures j in Shifted(files, n) <==> j == 0 || (j <= n && j - 1 in files)
    ensures j in Shifted(files, n) ==> Shifted(files, n)[j] == if j == 0 then [] else files[j - 1]
  {
    RaisedAt(files, n, j);
  }

  lemma {:induction false} ShiftedTail<T>(files: map<nat, seq<T>>, n: nat, k: nat)
    requires 0 < k <= n
    ensures OldestFirst(Shifted(files, n), k) == OldestFirst(files, k - 1)
  {
    ShiftedAt(files, n, k);
    if k > 1 {
      ShiftedTail(files, n, k - 1);
    }
  }

  /** A rotation loses the oldest file and nothing else. */
  lemma ShiftDropsOldest<T>(files: map<nat, seq<T>>, n: nat)
    ensures OldestFirst(files, n) == Get(files, n) + OldestFirst(Shifted(files, n), n)
  {
    if n > 0 {
      ShiftedTail(files, n, n);
    }
  }

  lemma {:induction false} AppendToNewest<T>(files: map<nat, seq<T>>, n: nat, text: seq<T>)
    ensures OldestFirst(files[0 := Get(files, 0) + text], n) == OldestFirst(files, n) + text
  {
    if n > 0 {
      AppendToNewest(files, n - 1, text);
      assert Get(files[0 := Get(files, 0) + text], n) == Get(files, n);
    }
  }

  /** At most n + 1 files exist. */
  lemma {:induction false} FewFiles<T>(files: map<nat, T>, n: nat)
    requires forall i :: i in files ==> i <= n
    ensures |files| <= n + 1
    decreases n
  {
    var fewer := files - {n};
    if n == 0 {
      assert fewer == map[];
    } else {
      FewFiles(fewer, n - 1);
    }
    assert files.Keys <= fewer.Keys + {n};
    Subset(files.Keys, fewer.Keys + {n});
    assert |files| == |files.Keys| && |fewer| == |fewer.Keys|;
  }

  lemma {:induction false} Subset<T>(a: set<T>, b: set<T>)
    requires a <= b
    ensures |a| <= |b|
  {
    if a != {} {
      var x :| x in a;
      Subset(a - {x}, b - {x});
    }
  }

  lemma {:induction false} NoFiles<T>(n: nat)
    ensures OldestFirst<T>(map[], n) == []
  {
    if n > 0 {
      NoFiles<T>(n - 1);
    }
  }

  /** Midway through the renames: files above i + 1 have moved up, i + 1 is free. */
  ghost predicate Moving<T>(files: map<nat, seq<T>>, was: map<nat, seq<T>>, i: nat, n: nat) {
    && (forall j: nat {:trigger Source(j, i)} :: j in files <==> j <= n && j != i + 1 && Source(j, i) in was)
    && (forall j: nat {:trigger Source(j, i)} :: j in files ==> Source(j, i) in was && files[j] == was[Source(j, i)])
  }

  function Source(j: nat, i: nat): nat {
    if j <= i then j else j - 1
  }

  lemma OneMove<T>(files: map<nat, seq<T>>, was: map<nat, seq<T>>, i: nat, n: nat)
    requires Moving(files, was, i, n) && 0 < i < n
    ensures Moving(if i in files then (files - {i})[i + 1 := files[i]] else files, was, i - 1, n)
  {
    var next := if i in files then (files - {i})[i + 1 := files[i]] else files;
    forall j: nat
      ensures j in next <==> j <= n && j != i && Source(j, i - 1) in was
      ensures j in next ==> next[j] == was[Source(j, i - 1)]
    {
      assert j in files <==> j <= n && j != i + 1 && Source(j, i) in was;
      assert i in files <==> i <= n && Source(i, i) in was;
    }
  }

  lemma MovesEnd<T>(files: map<nat, seq<T>>, was: map<nat, seq<T>>, n: nat)
    requires n > 0 && Moving(files, was, 0, n) && 0 in was
    ensures 0 in files && (files - {0})[1 := files[0]][0 := []] == Shifted(was, n)
  {
    assert 0 in files <==> 0 <= n && 0 != 1 && Source(0, 0) in was;
    var last := (files - {0})[1 := files[0]][0 := []];
    forall j: nat
      ensures j in last <==> j in Shifted(was, n)
      ensures j in last ==> last[j] == Shifted(was, n)[j]
    {
      ShiftedAt(was, n, j);
      if j > 1 {
        assert j in files <==> j <= n && j != 1 && Source(j, 0) in was;
      }
    }
  }

  /** A file may pass `maxBytes` by its last line only. */
  predicate Fits(lines: seq<string>, maxBytes: int) {
    lines == [] || |Join(lines[..|lines| - 1])| < maxBytes
  }

  /** Every line ever written, how many of them are gone, and the lines of each file. */
  datatype Log = Log(lines: seq<string>, dropped: nat, parts: map<nat, seq<string>>)

  ghost predicate InDepth<T>(files: map<nat, T>, n: nat) {
    forall i :: i in files ==> i <= n
  }

  /** Each file is the text of its part. */
  ghost predicate Faithful(files: map<nat, string>, parts: map<nat, seq<string>>) {
    && parts.Keys == files.Keys
    && forall i :: i in files ==> files[i] == Join(parts[i])
  }

  /** The parts are, oldest first, the lines written without the first `dropped`. */
  ghost predicate Accounted(log: Log, n: nat) {
    && log.dropped <= |log.lines| && OldestFirst(log.parts, n) == log.lines[log.dropped..]
    && forall line :: line in log.lines ==> OneLine(line)
  }

  ghost predicate AllFit(parts: map<nat, seq<string>>, maxBytes: int) {
    maxBytes > 0 ==> forall i :: i in parts ==> Fits(parts[i], maxBytes)
  }

  /** The newest file with one more line. */
  function Grown<T>(files: map<nat, seq<T>>, text: seq<T>): map<nat, seq<T>> {
    files[0 := Get(files, 0) + text]
  }

  lemma GrowKeepsFaithful(files: map<nat, string>, parts: map<nat, seq<string>>, line: string)
    requires Faithful(files, parts)
    ensures Faithful(Grown(files, Text(line)), Grown(parts, [line]))
  {
    var newest := Get(parts, 0) + [line];
    assert newest[..|newest| - 1] == Get(parts, 0);
    assert Get(files, 0) == Join(Get(parts, 0));
    assert Join(newest) == Get(files, 0) + Text(line);
  }

  lemma GrowKeepsAccounts(log: Log, n: nat, line: string)
    requires Accounted(log, n) && OneLine(line)
    ensures Accounted(Log(log.lines + [line], log.dropped, Grown(log.parts, [line])), n)
  {
    AppendToNewest(log.parts, n, [line]);
    assert (log.lines + [line])[log.dropped..] == log.lines[log.dropped..] + [line];
  }

  lemma ShiftKeepsFaithful(files: map<nat, string>, parts: map<nat, seq<string>>, n: nat)
    requires Faithful(files, parts)
    ensures Faithful(Shifted(files, n), Shifted(parts, n)) && InDepth(Shifted(files, n), n)
  {
    forall j: nat
      ensures j in Shifted(parts, n) <==> j in Shifted(files, n)
      ensures j in Shifted(files, n) ==> j <= n && Shifted(files, n)[j] == Join(Shifted(parts, n)[j])
    {
      ShiftedAt(files, n, j);
      ShiftedAt(parts, n, j);
      if 0 < j && j - 1 in files {
        assert files[j - 1] == Join(parts[j - 1]);
      }
    }
  }

  lemma ShiftKeepsAccounts(log: Log, n: nat, next: Log)
    requires Accounted(log, n)
    requires next == Log(log.lines, log.dropped + |Get(log.parts, n)|, Shifted(log.parts, n))
    ensures Accounted(next, n)
  {
    ShiftDropsOldest(log.parts, n);
  }

  /** The files hold, oldest first, the lines written so far without the first `dropped`; each
      fits but for its last line, and the newest fits altogether. */
  ghost predicate Sound(files: map<nat, string>, log: Log, n: nat, maxBytes: int) {
    && InDepth(files, n)
    && Faithful(files, log.parts) && Accounted(log, n) && AllFit(log.parts, maxBytes)
    && (maxBytes > 0 ==> |Get(files, 0)| < maxBytes)
  }

  /** The line takes the newest file to the size limit. */
  predicate Full(files: map<nat, string>, line: string, maxBytes: int) {
    maxBytes > 0 && |Get(files, 0)| + |line| + 1 >= maxBytes
  }

  /** The files after one more text, rotated when it filled the newest. */
  function After<T>(files: map<nat, seq<T>>, text: seq<T>, full: bool, n: nat): map<nat, seq<T>> {
    if full then Shifted(Grown(files, text), n) else Grown(files, text)
  }

  /** The log after one more line; a rotation drops the oldest part. */
  function Logged(log: Log, line: string, full: bool, n: nat): Log {
    var grown := Grown(log.parts, [line]);
    Log(log.lines + [line], log.dropped + if full then |Get(grown, n)| else 0, After(log.parts, [line], full, n))
  }

  lemma LineKeepsSound(files: map<nat, string>, log: Log, n: nat, maxBytes: int, line: string)
    requires Sound(files, log, n, maxBytes) && OneLine(line)
    ensures var full := Full(files, line, maxBytes);
      Sound(After(files, Text(line), full, n), Logged(log, line, full, n), n, maxBytes)
  {
    var kept := Log(log.lines + [line], log.dropped, Grown(log.parts, [line]));
    GrowKeepsFaithful(files, log.parts, line);
    GrowKeepsAccounts(log, n, line);
    if Full(files, line, maxBytes) {
      ShiftKeepsFaithful(Grown(files, Text(line)), kept.parts, n);
      ShiftKeepsAccounts(kept, n, Logged(log, line, true, n));
      ShiftKeepsFit(kept.parts, n, maxBytes);
    }
  }

  lemma ShiftKeepsFit(parts: map<nat, seq<string>>, n: nat, maxBytes: int)
    requires AllFit(parts, maxBytes)
    ensures AllFit(Shifted(parts, n), maxBytes)
  {
    if maxBytes > 0 {
      forall j | j in Shifted(parts, n) ensures Fits(Shifted(parts, n)[j], maxBytes) {
        ShiftedAt(parts, n, j);
      }
    }
  }

  // -- how much is kept -----------------------------------------------------------------

  /** A file leaves the newest place only when it has reached the limit, and lines are dropped
      only when every place is taken. */
  ghost predicate Filled(files: map<nat, string>, dropped: nat, n: nat, maxBytes: int) {
    && (forall i, j: nat :: j < i && i in files ==> j in files)
    && (forall i :: i in files && i > 0 ==> maxBytes > 0 && |files[i]| >= maxBytes)
    && (dropped > 0 ==> maxBytes > 0 && forall i: nat :: 0 < i <= n ==> i in files)
  }

  lemma LineKeepsFilled(files: map<nat, string>, log: Log, n: nat, maxBytes: int, line: string)
    requires Sound(files, log, n, maxBytes) && Filled(files, log.dropped, n, maxBytes)
    ensures var full := Full(files, line, maxBytes);
      Filled(After(files, Text(line), full, n), Logged(log, line, full, n).dropped, n, maxBytes)
  {
    if Full(files, line, maxBytes) {
      var grown := Grown(files, Text(line));
      forall j: nat
        ensures j in Shifted(grown, n) <==> j == 0 || (j <= n && j - 1 in grown)
        ensures j in Shifted(grown, n) && j > 0 ==> |Shifted(grown, n)[j]| >= maxBytes
      {
        ShiftedAt(grown, n, j);
      }
      if Get(Grown(log.parts, [line]), n) != [] && n > 0 {
        assert n in files;
      }
    }
  }

  /** No line is dropped while less than `n` times the limit is kept, nor at all without a
      limit. */
  lemma KeepsEnough(files: map<nat, string>, dropped: nat, n: nat, maxBytes: int)
    requires Filled(files, dropped, n, maxBytes) && dropped > 0
    ensures maxBytes > 0 && |OldestFirst(files, n)| >= n * maxBytes
  {
    FilledIsLong(files, n, maxBytes);
  }

  lemma {:induction false} FilledIsLong(files: map<nat, string>, n: nat, maxBytes: int)
    requires forall i: nat :: 0 < i <= n ==> i in files && |files[i]| >= maxBytes
    ensures |OldestFirst(files, n)| >= n * maxBytes
  {
    if n > 0 {
      FilledIsLong(files, n - 1, maxBytes);
      assert n * maxBytes == (n - 1) * maxBytes + maxBytes;
    }
  }

  // -- what the files say ---------------------------------------------------------------

  lemma {:induction false} FilesJoinParts(files: map<nat, string>, parts: map<nat, seq<string>>, n: nat)
    requires Faithful(files, parts)
    ensures OldestFirst(files, n) == Join(OldestFirst(parts, n))
  {
    assert Get(files, n) == Join(Get(parts, n));
    if n > 0 {
      FilesJoinParts(files, parts, n - 1);
      JoinSplits(Get(parts, n), OldestFirst(parts, n - 1));
    }
  }

  /** Reading path.n, ..., path.1, path in order gives the last lines ever written, in order
      and each once. */
  lemma RecordingIsSuffix(files: map<nat, string>, log: Log, n: nat, maxBytes: int)
    requires Sound(files, log, n, maxBytes)
    ensures Split(OldestFirst(files, n)) == log.lines[log.dropped..]
    ensures |files| <= n + 1
  {
    FilesJoinParts(files, log.parts, n);
    ReadBack(log.lines[log.dropped..]);
    FewFiles(files, n);
  }

  /** Every file is smaller than the limit plus its last line. */
  lemma FilesAreSmall(files: map<nat, string>, log: Log, n: nat, maxBytes: int, i: nat)
    requires Sound(files, log, n, maxBytes) && maxBytes > 0 && i in files && files[i] != ""
    ensures log.parts[i] != [] && |files[i]| < maxBytes + |Text(log.parts[i][|log.parts[i]| - 1])|
  {
    var lines := log.parts[i];
    assert Fits(lines, maxBytes) && files[i] == Join(lines);
  }

  // -- the recorder -------------------------------------------------------------------

  class Recorder {
    const maxBytes: int
    const backups: nat
    var files: map<nat, string>
    var open: bool
    var closed: bool
    ghost var log: Log

    /** The files account for every line, and between writes the newest is below the limit. */
    ghost predicate Valid()
      reads this
    {
      && (open ==> 0 in files) && Sound(files, log, backups, maxBytes)
      && Filled(files, log.dropped, backups, maxBytes)
    }

    constructor (maxBytes: int, backups: nat)
      ensures Valid() && files == map[] && log.lines == [] && !closed
      ensures this.maxBytes == maxBytes && this.backups == backups
    {
      this.maxBytes, this.backups := maxBytes, backups;
      files, open, closed := map[], false, false;
      log := Log([], 0, map[]);
      NoFiles<string>(backups);
    }

    /** The files shift by one; at depth 0 the only file starts again. */
    method Rotate()
      requires 0 in files && InDepth(files, backups)
      modifies this`files, this`open
      ensures open && files == Shifted(old(files), backups)
    {
      open := false;
      if backups > 0 {
        if backups in files {
          files := files - {backups};
        }
        var i := backups - 1;
        while i > 0
          invariant 0 <= i < backups && Moving(files, old(files), i, backups)
        {
          OneMove(files, old(files), i, backups);
          if i in files {
            files := (files - {i})[i + 1 := files[i]];
          }
          i := i - 1;
        }
        MovesEnd(files, old(files), backups);
        files := (files - {0})[1 := files[0]];
      } else {
        files := files - {0};
      }
      files := files[0 := ""];
      open := true;
    }

    /** Appends to the newest file, which is opened when needed. */
    method Emit(text: string)
      requires open ==> 0 in files
      modifies this`files, this`open
      ensures open && files == Grown(old(files), text)
    {
      if !open {
        if 0 !in files {
          files := files[0 := ""];
        }
        open := true;
      }
      files := files[0 := files[0] + text];
    }

    method WriteLine(line: string)
      requires (open ==> 0 in files) && InDepth(files, backups)
      modifies this`files, this`open
      ensures open && 0 in files && files == After(old(files), Text(line), Full(old(files), line, maxBytes), backups)
    {
      Emit(Text(line));
      if maxBytes > 0 && |files[0]| >= maxBytes {
        Rotate();
      }
    }

    method OnTick(record: Option<string>)
      requires Valid() && (record.Some? ==> OneLine(record.value))
      modifies this`files, this`open, this`log
      ensures Valid()
      ensures closed || record.None? ==> files == old(files) && log == old(log)
      ensures !closed && record.Some? ==>
        && files == After(old(files), Text(record.value), Full(old(files), record.value, maxBytes), backups)
        && log == Logged(old(log), record.value, Full(old(files), record.value, maxBytes), backups)
      ensures !closed && record.Some? ==>
        var newest := Get(old(files), 0) + record.value + "\n";
        if maxBytes > 0 && |newest| >= maxBytes then
          files[0] == "" && (backups > 0 ==> 1 in files && files[1] == newest)
        else
          files == old(files)[0 := newest]
    {
      if !closed && record.Some? {
        LineKeepsFilled(files, log, backups, maxBytes, record.value);
        Associative(Get(files, 0), record.value, "\n");
        ShiftedAt(Grown(files, Text(record.value)), backups, 0);
        ShiftedAt(Grown(files, Text(record.value)), backups, 1);
        LineKeepsSound(files, log, backups, maxBytes, record.value);
        log := Logged(log, record.value, Full(files, record.value, maxBytes), backups);
        WriteLine(record.value);
      }
    }

    method Close()
      requires Valid()
      modifies this`open, this`closed
      ensures Valid() && closed && !open
    {
      open, closed := false, true;
    }
  }
}
