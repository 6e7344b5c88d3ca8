/** A mark that follows the latest of the moments at which something held. */
module Marks {
  import opened Wrappers

  ghost predicate InOrder(times: seq<real>) {
    forall i, j :: 0 <= i < j < |times| ==> times[i] <= times[j]
  }

  /** `mark` is the time of the latest k < n with p(k), and none exists when it is None. */
  ghost predicate MarksLatest(times: seq<real>, n: nat, mark: Option<real>, p: int -> bool)
    requires n <= |times|
  {
    match mark
    case None => forall k :: 0 <= k < n ==> !p(k)
    case Some(t) =>
      && (exists k :: 0 <= k < n && p(k) && times[k] == t)
      && (forall k :: 0 <= k < n && p(k) ==> times[k] <= t)
  }

  ghost predicate NoneWithin(times: seq<real>, k: nat, p: int -> bool, window: real)
    requires k < |times|
  {
    forall i :: 0 <= i < k && p(i) ==> times[k] - times[i] >= window
  }

  /** A mark that starts empty, moves to k when p(k) holds, and stays otherwise. */
  ghost predicate Follows(times: seq<real>, marks: seq<Option<real>>, p: int -> bool) {
    && |marks| == |times| + 1 && marks[0] == None
    && forall k :: 0 <= k < |times| ==> Moves(times, marks, p, k)
  }

  ghost predicate Moves(times: seq<real>, marks: seq<Option<real>>, p: int -> bool, k: nat)
    requires k < |times| && |marks| == |times| + 1
  {
    marks[k + 1] == if p(k) then Some(times[k]) else marks[k]
  }

  lemma {:induction false} FollowsLatest(times: seq<real>, marks: seq<Option<real>>, p: int -> bool, n: nat)
    requires InOrder(times) && Follows(times, marks, p) && n <= |times|
    ensures MarksLatest(times, n, marks[n], p)
  {
    if n > 0 {
      FollowsLatest(times, marks, p, n - 1);
      assert Moves(times, marks, p, n - 1);
    }
  }

  /** The latest is within the window exactly when any is. */
  lemma LatestDecides(times: seq<real>, k: nat, mark: Option<real>, p: int -> bool, window: real)
    requires InOrder(times) && k < |times| && MarksLatest(times, k, mark, p)
    ensures (mark.Some? ==> !(0.0 <= times[k] - mark.value < window)) <==> NoneWithin(times, k, p, window)
  {
  }
}
