/** Cutting a recording into runs of usable, closely spaced samples. */
module SampleChunks {

  datatype Sample = Sample(ts: real, ok: bool)

  /** Sample j follows its predecessor forward in time and within the gap. */
  predicate Linked(samples: seq<Sample>, j: nat, maxGap: real) {
    0 < j < |samples| && 0.0 < samples[j].ts - samples[j - 1].ts <= maxGap
  }

  /** Samples a .. a + n - 1 are usable and linked. */
  ghost predicate Usable(samples: seq<Sample>, a: nat, n: nat, maxGap: real) {
    && a + n <= |samples|
    && (forall j :: a <= j < a + n ==> samples[j].ok)
    && (forall j :: a < j < a + n ==> Linked(samples, j, maxGap))
  }

  ghost predicate Overlap(a: nat, b: nat, n: nat) {
    a < b + n && b < a + n
  }

  /** Chunks of n samples each, in order and apart from one another. */
  ghost predicate Placed(samples: seq<Sample>, chunks: seq<seq<Sample>>, starts: seq<nat>, n: nat, maxGap: real) {
    && |starts| == |chunks|
    && (forall c :: 0 <= c < |starts| ==>
          Usable(samples, starts[c], n, maxGap) && chunks[c] == samples[starts[c]..starts[c] + n])
    && (forall c, d :: 0 <= c < d < |starts| ==> starts[c] + n <= starts[d])
  }

  /** A window is met by a chunk. */
  ghost predicate Met(starts: seq<nat>, a: nat, n: nat) {
    exists c :: 0 <= c < |starts| && Overlap(starts[c], a, n)
  }

  /** No usable window of n samples within the first `upto` is left beside the chunks. */
  ghost predicate NoneLeft(samples: seq<Sample>, starts: seq<nat>, n: nat, upto: nat, maxGap: real) {
    forall a: nat :: a + n <= upto && Usable(samples, a, n, maxGap) ==> Met(starts, a, n)
  }

  /** Chunks of n samples, disjoint and in order, that leave no usable window beside them. */
  ghost predicate Chunked(samples: seq<Sample>, chunks: seq<seq<Sample>>, n: nat, maxGap: real) {
    exists starts: seq<nat> :: Complete(samples, chunks, starts, n, maxGap)
  }

  ghost predicate Complete(samples: seq<Sample>, chunks: seq<seq<Sample>>, starts: seq<nat>, n: nat, maxGap: real) {
    Placed(samples, chunks, starts, n, maxGap) && NoneLeft(samples, starts, n, |samples|, maxGap)
  }

  /** The run from `s` up to `i` cannot be extended backwards, except into the last chunk. */
  ghost predicate Fresh(samples: seq<Sample>, starts: seq<nat>, s: nat, i: nat, n: nat, maxGap: real) {
    || s == 0
    || (0 < s <= |samples| && !samples[s - 1].ok)
    || (0 < s < |samples| && s < i && !Linked(samples, s, maxGap))
    || (starts != [] && s == starts[|starts| - 1] + n)
  }

  /** A window that ends inside a run too short to be one meets the chunk the run follows. */
  lemma ShortRunLeavesNone(samples: seq<Sample>, starts: seq<nat>, s: nat, i: nat, n: nat, maxGap: real)
    requires n > 0 && s <= i <= |samples| && i - s < n
    requires Fresh(samples, starts, s, i, n, maxGap)
    requires i > 0 && NoneLeft(samples, starts, n, i - 1, maxGap)
    ensures NoneLeft(samples, starts, n, i, maxGap)
  {
    forall a: nat | a + n <= i && Usable(samples, a, n, maxGap) ensures Met(starts, a, n) {
      if a + n == i {
        assert a < s && samples[s - 1].ok;
        if s < i {
          assert Linked(samples, s, maxGap);
        }
        assert Overlap(starts[|starts| - 1], a, n);
      }
    }
  }

  /** The run is the usable stretch from `s` up to `i`. */
  ghost predicate RunIs(samples: seq<Sample>, run: seq<Sample>, s: nat, i: nat, maxGap: real) {
    s <= i <= |samples| && run == samples[s..i] && Usable(samples, s, i - s, maxGap)
  }

  /** The run goes on with this sample. */
  predicate Continues(run: seq<Sample>, s: Sample, maxGap: real) {
    s.ok && (run == [] || 0.0 < s.ts - run[|run| - 1].ts <= maxGap)
  }

  function NextRun(run: seq<Sample>, s: Sample, maxGap: real): seq<Sample> {
    if Continues(run, s, maxGap) then run + [s] else if s.ok then [s] else []
  }

  function NextStart(run: seq<Sample>, s: Sample, start: nat, i: nat, maxGap: real): nat {
    if Continues(run, s, maxGap) then start else if s.ok then i else i + 1
  }

  lemma RunStep(samples: seq<Sample>, starts: seq<nat>, run: seq<Sample>, start: nat, i: nat, n: nat, maxGap: real)
    requires i < |samples| && RunIs(samples, run, start, i, maxGap) && Fresh(samples, starts, start, i, n, maxGap)
    ensures var next := NextStart(run, samples[i], start, i, maxGap);
      && start <= next && RunIs(samples, NextRun(run, samples[i], maxGap), next, i + 1, maxGap)
      && Fresh(samples, starts, next, i + 1, n, maxGap)
  {
  }

  lemma PlaceOneMore(samples: seq<Sample>, chunks: seq<seq<Sample>>, starts: seq<nat>, n: nat, maxGap: real,
                     run: seq<Sample>, s: nat)
    requires Placed(samples, chunks, starts, n, maxGap) && RunIs(samples, run, s, s + n, maxGap)
    requires starts != [] ==> starts[|starts| - 1] + n <= s
    ensures Placed(samples, chunks + [run], starts + [s], n, maxGap)
  {
    var more := starts + [s];
    forall c, d | 0 <= c < d < |more| ensures more[c] + n <= more[d] {
      if d == |starts| && c < d - 1 {
        assert starts[c] + n <= starts[d - 1];
      }
    }
  }

  lemma MoreStarts(samples: seq<Sample>, starts: seq<nat>, s: nat, n: nat, upto: nat, maxGap: real)
    requires n > 0 && NoneLeft(samples, starts, n, upto, maxGap)
    ensures NoneLeft(samples, starts + [s], n, upto, maxGap)
    ensures upto + 1 == s + n ==> NoneLeft(samples, starts + [s], n, upto + 1, maxGap)
  {
    var more := starts + [s];
    forall a: nat | Met(starts, a, n) ensures Met(more, a, n) {
      var c :| 0 <= c < |starts| && Overlap(starts[c], a, n);
      assert more[c] == starts[c];
    }
    if upto + 1 == s + n {
      assert more[|starts|] == s && Overlap(s, s, n);
    }
  }

  /** The loop's state: the current run and where it starts, the chunks so far and where they
      start. */
  datatype State = State(run: seq<Sample>, start: nat, chunks: seq<seq<Sample>>, starts: seq<nat>)

  ghost predicate Kept(samples: seq<Sample>, st: State, i: nat, n: nat, maxGap: real) {
    && i - st.start < n && RunIs(samples, st.run, st.start, i, maxGap)
    && Fresh(samples, st.starts, st.start, i, n, maxGap)
    && Placed(samples, st.chunks, st.starts, n, maxGap)
    && (st.starts != [] ==> st.starts[|st.starts| - 1] + n <= st.start)
    && NoneLeft(samples, st.starts, n, i, maxGap)
  }

  function Taken(st: State, s: Sample, i: nat, n: nat, maxGap: real): State {
    var run, start := NextRun(st.run, s, maxGap), NextStart(st.run, s, st.start, i, maxGap);
    if |run| == n then State([], i + 1, st.chunks + [run], st.starts + [start])
    else State(run, start, st.chunks, st.starts)
  }

  lemma CompletedIsKept(samples: seq<Sample>, st: State, run: seq<Sample>, start: nat, i: nat, end: nat, n: nat,
                        maxGap: real, next: State)
    requires n > 0 && end == i + 1 == start + n <= |samples| && RunIs(samples, run, start, end, maxGap)
    requires Placed(samples, st.chunks, st.starts, n, maxGap) && NoneLeft(samples, st.starts, n, i, maxGap)
    requires st.starts != [] ==> st.starts[|st.starts| - 1] + n <= start
    requires next == State([], end, st.chunks + [run], st.starts + [start])
    ensures Kept(samples, next, end, n, maxGap)
  {
    MoreStarts(samples, st.starts, start, n, i, maxGap);
    PlaceOneMore(samples, st.chunks, st.starts, n, maxGap, run, start);
  }

  lemma ContinuedIsKept(samples: seq<Sample>, st: State, run: seq<Sample>, start: nat, i: nat, end: nat, n: nat,
                        maxGap: real, next: State)
    requires n > 0 && end == i + 1 <= |samples| && end - start < n && RunIs(samples, run, start, end, maxGap)
    requires Placed(samples, st.chunks, st.starts, n, maxGap) && NoneLeft(samples, st.starts, n, i, maxGap)
    requires st.starts != [] ==> st.starts[|st.starts| - 1] + n <= start
    requires Fresh(samples, st.starts, start, end, n, maxGap)
    requires next == State(run, start, st.chunks, st.starts)
    ensures Kept(samples, next, end, n, maxGap)
  {
    ShortRunLeavesNone(samples, st.starts, start, end, n, maxGap);
  }

  lemma TakingKeeps(samples: seq<Sample>, st: State, i: nat, end: nat, n: nat, maxGap: real, next: State)
    requires n > 0 && end == i + 1 <= |samples| && Kept(samples, st, i, n, maxGap)
    requires next == Taken(st, samples[i], i, n, maxGap)
    ensures Kept(samples, next, end, n, maxGap)
  {
    RunStep(samples, st.starts, st.run, st.start, i, n, maxGap);
    var run, start := NextRun(st.run, samples[i], maxGap), NextStart(st.run, samples[i], st.start, i, maxGap);
    RunLength(samples, run, start, end, maxGap);
    if |run| == n {
      CompletedIsKept(samples, st, run, start, i, end, n, maxGap, next);
    } else {
      ContinuedIsKept(samples, st, run, start, i, end, n, maxGap, next);
    }
  }

  lemma RunLength(samples: seq<Sample>, run: seq<Sample>, s: nat, i: nat, maxGap: real)
    requires RunIs(samples, run, s, i, maxGap)
    ensures |run| == i - s
  {
  }

  method Extend(run: seq<Sample>, s: Sample, maxGap: real) returns (r: seq<Sample>)
    ensures r == NextRun(run, s, maxGap)
  {
    if s.ok && (run == [] || 0.0 < s.ts - run[|run| - 1].ts <= maxGap) {
      r := run + [s];
    } else {
      r := if s.ok then [s] else [];
    }
  }

  lemma StartIsKept(samples: seq<Sample>, st: State, n: nat, maxGap: real)
    requires n > 0 && st == State([], 0, [], [])
    ensures Kept(samples, st, 0, n, maxGap)
  {
  }

  /** Runs of `horizon` + 1 usable samples: they are disjoint, in order, and every usable
      window of that length meets one of them. */
  method Chunks(samples: seq<Sample>, horizon: nat, maxGap: real) returns (chunks: seq<seq<Sample>>)
    ensures Chunked(samples, chunks, horizon + 1, maxGap)
  {
    var run: seq<Sample> := [];
    chunks := [];
    var n := horizon + 1;
    ghost var st := State([], 0, [], []);
    StartIsKept(samples, st, n, maxGap);
    for i := 0 to |samples|
      invariant Kept(samples, st, i, n, maxGap)
      invariant st.run == run && st.chunks == chunks
    {
      var s := samples[i];
      ghost var next := Taken(st, s, i, n, maxGap);
      TakingKeeps(samples, st, i, i + 1, n, maxGap, next);
      st := next;
      run := Extend(run, s, maxGap);
      if |run| == n {
        chunks := chunks + [run];
        run := [];
      }
    }
    assert Complete(samples, chunks, st.starts, n, maxGap);
  }
}
