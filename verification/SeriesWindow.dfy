/** The sliding series the association scores are computed from. */
module SeriesWindow {

  const SAMPLE_S := 30.0
  const EPS := 0.000000001

  /** One recording: its time, the bays and zones it covers and their values. */
  datatype Entry<T> = Entry(t: real, names: set<string>, row: T)

  /** The first entry still inside the window. */
  function First<T>(s: seq<Entry<T>>, ts: real, window: real): (i: nat)
    ensures i <= |s|
  {
    if s == [] || ts - s[0].t <= window then 0 else 1 + First(s[1..], ts, window)
  }

  /** A clock that went back starts over, and so do other bays or zones. */
  function Usable<T>(s: seq<Entry<T>>, c: Entry<T>): seq<Entry<T>> {
    if s != [] && (c.t < s[|s| - 1].t || c.names != s[|s| - 1].names) then [] else s
  }

  /** No recording is due yet. */
  predicate TooSoon<T>(s: seq<Entry<T>>, ts: real) {
    s != [] && ts - s[|s| - 1].t < SAMPLE_S - EPS
  }

  /** One call: a recording when one is due, with the old ones trimmed to the window. */
  function Record<T>(s: seq<Entry<T>>, c: Entry<T>, window: real): seq<Entry<T>> {
    var u := Usable(s, c);
    if TooSoon(u, c.t) then u else u[First(u, c.t, window)..] + [c]
  }

  // -- runs ------------------------------------------------------------------------

  function State<T>(calls: seq<Entry<T>>, window: real): seq<Entry<T>> {
    if calls == [] then []
    else Record(State(calls[..|calls| - 1], window), calls[|calls| - 1], window)
  }

  /** Every recording since the clock last went back or the names changed, never trimmed. */
  function All<T>(calls: seq<Entry<T>>): seq<Entry<T>> {
    if calls == [] then [] else Kept(All(calls[..|calls| - 1]), calls[|calls| - 1])
  }

  function Kept<T>(s: seq<Entry<T>>, c: Entry<T>): seq<Entry<T>> {
    var u := Usable(s, c);
    if TooSoon(u, c.t) then u else u + [c]
  }

  /** The part of a series inside the window before its last entry. */
  function Recent<T>(s: seq<Entry<T>>, window: real): seq<Entry<T>> {
    if s == [] then [] else s[First(s, s[|s| - 1].t, window)..]
  }

  /** Entries before the first are outside the window, the first is inside. */
  lemma {:induction false} FirstCuts<T>(s: seq<Entry<T>>, ts: real, window: real)
    ensures var f := First(s, ts, window);
      && (forall i :: 0 <= i < f ==> ts - s[i].t > window)
      && (f < |s| ==> ts - s[f].t <= window)
  {
    if s != [] && ts - s[0].t > window {
      FirstCuts(s[1..], ts, window);
      forall i | 0 <= i < First(s, ts, window) ensures ts - s[i].t > window {
        if i > 0 {
          assert s[1..][i - 1] == s[i];
        }
      }
    }
  }

  /** Cutting early what is outside anyway changes no later cut. */
  lemma {:induction false} FirstAfterCut<T>(s: seq<Entry<T>>, k: nat, ts: real, window: real)
    requires k <= |s| && forall i :: 0 <= i < k ==> ts - s[i].t > window
    ensures First(s, ts, window) == k + First(s[k..], ts, window)
    decreases k
  {
    if k > 0 {
      var rest := s[1..];
      forall i | 0 <= i < k - 1 ensures ts - rest[i].t > window {
        assert rest[i] == s[i + 1];
      }
      FirstAfterCut(rest, k - 1, ts, window);
      assert rest[k - 1..] == s[k..];
    }
  }

  /** A new entry of this very moment is inside, whatever is outside. */
  lemma {:induction false} FirstOfPush<T>(s: seq<Entry<T>>, c: Entry<T>, window: real)
    requires window >= 0.0
    ensures First(s + [c], c.t, window) == First(s, c.t, window)
  {
    if s != [] && c.t - s[0].t > window {
      FirstOfPush(s[1..], c, window);
      assert (s + [c])[1..] == s[1..] + [c];
    }
  }

  /** A trimmed series ends like the untrimmed one. */
  lemma RecentEnd<T>(all: seq<Entry<T>>, window: real)
    requires all != [] && window >= 0.0
    ensures Recent(all, window) != []
    ensures Recent(all, window)[|Recent(all, window)| - 1] == all[|all| - 1]
    ensures all[|all| - 1].t - Recent(all, window)[0].t <= window
  {
    var k, last := |all| - 1, all[|all| - 1];
    FirstCuts(all, last.t, window);
    assert last.t - all[k].t <= window;
  }

  /** Cutting, then adding and cutting again, is adding and cutting once. */
  lemma CutAndPush<T>(all: seq<Entry<T>>, s: seq<Entry<T>>, k: nat, c: Entry<T>, window: real)
    requires window >= 0.0 && k <= |all| && s == all[k..]
    requires forall i :: 0 <= i < k ==> c.t - all[i].t > window
    ensures s[First(s, c.t, window)..] + [c] == (all + [c])[First(all + [c], c.t, window)..]
  {
    FirstAfterCut(all, k, c.t, window);
    FirstOfPush(all, c, window);
    var f := First(all, c.t, window);
    assert (all + [c])[f..] == all[f..] + [c];
  }

  /** A series and its trim are restarted together, and wait together. */
  lemma TrimDecidesAlike<T>(all: seq<Entry<T>>, s: seq<Entry<T>>, c: Entry<T>)
    requires all != [] && s != [] && s[|s| - 1] == all[|all| - 1]
    ensures (Usable(all, c) == all && Usable(s, c) == s) || Usable(all, c) == Usable(s, c) == []
    ensures TooSoon(all, c.t) <==> TooSoon(s, c.t)
  {
  }

  /** A recording cuts the trimmed series as it would the untrimmed one. */
  lemma PushTrims<T>(all: seq<Entry<T>>, c: Entry<T>, window: real)
    requires window >= 0.0 && all != [] && all[|all| - 1].t <= c.t
    ensures var s := Recent(all, window); s[First(s, c.t, window)..] + [c] == Recent(all + [c], window)
  {
    var last := all[|all| - 1].t;
    FirstCuts(all, last, window);
    CutAndPush(all, Recent(all, window), First(all, last, window), c, window);
  }

  /** One call on the trimmed series is the trim of the call on the untrimmed one. */
  lemma RecordTrims<T>(all: seq<Entry<T>>, c: Entry<T>, window: real)
    requires window >= 0.0
    ensures Record(Recent(all, window), c, window) == Recent(Kept(all, c), window)
  {
    if all != [] {
      RecentEnd(all, window);
      TrimDecidesAlike(all, Recent(all, window), c);
      if Usable(all, c) == all && !TooSoon(all, c.t) {
        PushTrims(all, c, window);
      }
    }
  }

  /** Trimming at every recording leaves exactly the recordings since the clock last went
      back, or the names changed, that lie inside the window before the last of them. */
  lemma {:induction false} SeriesIsRecentHistory<T>(calls: seq<Entry<T>>, window: real)
    requires window >= 0.0
    ensures State(calls, window) == Recent(All(calls), window)
  {
    if calls != [] {
      SeriesIsRecentHistory(calls[..|calls| - 1], window);
      RecordTrims(All(calls[..|calls| - 1]), calls[|calls| - 1], window);
    }
  }

  /** Every entry covers the same bays and zones. */
  ghost predicate SameNames<T>(s: seq<Entry<T>>) {
    forall i, j :: 0 <= i < |s| && 0 <= j < |s| ==> s[i].names == s[j].names
  }

  lemma RecordKeepsShape<T>(s: seq<Entry<T>>, c: Entry<T>, window: real)
    requires SameNames(s)
    ensures SameNames(Record(s, c, window))
  {
  }

  lemma {:induction false} SeriesHasOneShape<T>(calls: seq<Entry<T>>, window: real)
    ensures SameNames(State(calls, window))
  {
    if calls != [] {
      var rest := State(calls[..|calls| - 1], window);
      SeriesHasOneShape(calls[..|calls| - 1], window);
      RecordKeepsShape(rest, calls[|calls| - 1], window);
    }
  }

  /** Every entry is a recording period after the one before it. */
  predicate Spaced<T>(s: seq<Entry<T>>) {
    |s| <= 1 || (s[|s| - 1].t - s[|s| - 2].t >= SAMPLE_S - EPS && Spaced(s[..|s| - 1]))
  }

  lemma {:induction false} SeriesIsSpaced<T>(calls: seq<Entry<T>>)
    ensures Spaced(All(calls))
  {
    if calls != [] {
      var rest, c := calls[..|calls| - 1], calls[|calls| - 1];
      SeriesIsSpaced(rest);
      var u := Usable(All(rest), c);
      assert (u + [c])[..|u|] == u;
    }
  }

  lemma {:induction false} TailIsSpaced<T>(s: seq<Entry<T>>, k: nat)
    requires Spaced(s) && k < |s|
    ensures Spaced(s[k..])
    ensures (|s| - 1 - k) as real * (SAMPLE_S - EPS) <= s[|s| - 1].t - s[k].t
    decreases |s|
  {
    if k < |s| - 1 {
      var rest, n := s[..|s| - 1], |s| - 1 - k;
      TailIsSpaced(rest, k);
      assert s[k..][..n] == rest[k..];
      assert n as real * (SAMPLE_S - EPS) == (n - 1) as real * (SAMPLE_S - EPS) + (SAMPLE_S - EPS);
    }
  }

  /** So it is never longer than the window holds. */
  lemma SeriesIsBounded<T>(calls: seq<Entry<T>>, window: real)
    requires window >= 0.0 && State(calls, window) != []
    ensures Spaced(State(calls, window))
    ensures (|State(calls, window)| - 1) as real * (SAMPLE_S - EPS) <= window
  {
    SeriesIsRecentHistory(calls, window);
    SeriesIsSpaced(calls);
    var all := All(calls);
    RecentEnd(all, window);
    TailIsSpaced(all, First(all, all[|all| - 1].t, window));
  }

  /** What one call makes of the recordings since the last restart: a clock that went back or
      other names restart them, and otherwise the call is recorded exactly when at least the
      recording period has passed, to within a nanosecond. */
  lemma RecordedExactly<T>(calls: seq<Entry<T>>, k: nat)
    requires |calls| == k + 1
    ensures var all, c := All(calls[..k]), calls[k];
      All(calls) == if all == [] then [c]
                    else if c.t < all[|all| - 1].t || c.names != all[|all| - 1].names then [c]
                    else if c.t - all[|all| - 1].t >= 30.0 - 0.000000001 then all + [c]
                    else all
  {
    var all, c := All(calls[..k]), calls[k];
    assert [] + [c] == [c];
  }

  /** The series in force holds every recording since the last restart that is at most `window`
      older than the last one, and no other. */
  lemma SeriesIsWindow<T>(calls: seq<Entry<T>>, window: real) returns (cut: nat)
    requires window >= 0.0
    ensures cut <= |All(calls)| && State(calls, window) == All(calls)[cut..]
    ensures var all := All(calls);
      forall i :: 0 <= i < |all| ==>
        (i < cut ==> all[|all| - 1].t - all[i].t > window) && (i == cut ==> all[|all| - 1].t - all[i].t <= window)
  {
    var all := All(calls);
    SeriesIsRecentHistory(calls, window);
    cut := 0;
    if all != [] {
      cut := First(all, all[|all| - 1].t, window);
      FirstCuts(all, all[|all| - 1].t, window);
    }
  }
}
