/** The CI shard scheduler: longest-processing-time-first packing of test files, and
    Graham's makespan guarantee for it against every other sharding of the same files. */
module ShardScheduler {

  datatype TestFile = TestFile(name: string, weight: nat)

  // -- loads of an assignment of jobs to buckets ----------------------------------

  function Total(s: seq<nat>): nat {
    if s == [] then 0 else Total(s[..|s| - 1]) + s[|s| - 1]
  }

  /** Sum of the weights assigned to bucket m; a[i] is the bucket of job i. */
  function Load(w: seq<nat>, a: seq<nat>, m: nat): nat
    requires |w| == |a|
  {
    if w == [] then 0
    else
      var k := |w| - 1;
      Load(w[..k], a[..k], m) + if a[k] == m then w[k] else 0
  }

  function Loads(w: seq<nat>, a: seq<nat>, n: nat): (r: seq<nat>)
    requires |w| == |a|
    ensures |r| == n && forall m :: 0 <= m < n ==> r[m] == Load(w, a, m)
  {
    seq(n, m requires 0 <= m < n => Load(w, a, m))
  }

  predicate Within(a: seq<nat>, n: nat) {
    forall i :: 0 <= i < |a| ==> a[i] < n
  }

  lemma {:induction false} TotalUpdate(s: seq<nat>, j: nat, x: nat)
    requires j < |s|
    ensures Total(s[j := x]) == Total(s) - s[j] + x
  {
    var k := |s| - 1;
    if j == k {
      assert s[j := x][..k] == s[..k];
    } else {
      assert s[j := x][..k] == s[..k][j := x];
      TotalUpdate(s[..k], j, x);
    }
  }

  lemma {:induction false} TotalZeros(s: seq<nat>)
    requires forall i :: 0 <= i < |s| ==> s[i] == 0
    ensures Total(s) == 0
  {
    if s != [] {
      TotalZeros(s[..|s| - 1]);
    }
  }

  lemma LoadsPush(w: seq<nat>, a: seq<nat>, n: nat)
    requires |w| == |a| > 0 && Within(a, n)
    ensures var k := |w| - 1;
      var before := Loads(w[..k], a[..k], n);
      Loads(w, a, n) == before[a[k] := before[a[k]] + w[k]]
  {
  }

  /** Every job lands in exactly one bucket. */
  lemma {:induction false} LoadsTotal(w: seq<nat>, a: seq<nat>, n: nat)
    requires |w| == |a| && Within(a, n)
    ensures Total(Loads(w, a, n)) == Total(w)
  {
    if w == [] {
      TotalZeros(Loads(w, a, n));
    } else {
      var k := |w| - 1;
      LoadsTotal(w[..k], a[..k], n);
      LoadsPush(w, a, n);
      var before := Loads(w[..k], a[..k], n);
      TotalUpdate(before, a[k], before[a[k]] + w[k]);
    }
  }

  lemma {:induction false} TotalAtLeast(s: seq<nat>, x: nat)
    requires forall m :: 0 <= m < |s| ==> x <= s[m]
    ensures |s| * x <= Total(s)
  {
    if s != [] {
      var k := |s| - 1;
      TotalAtLeast(s[..k], x);
      assert (k + 1) * x == k * x + x;
    }
  }

  lemma {:induction false} TotalAtMost(s: seq<nat>, x: nat)
    requires forall m :: 0 <= m < |s| ==> s[m] <= x
    ensures Total(s) <= |s| * x
  {
    if s != [] {
      var k := |s| - 1;
      TotalAtMost(s[..k], x);
      assert (k + 1) * x == k * x + x;
    }
  }

  // -- the counting argument -----------------------------------------------------

  /** The first q jobs count double. */
  function Charge(jobs: nat, q: nat): (c: seq<nat>)
    ensures |c| == jobs && forall i :: 0 <= i < jobs ==> c[i] == if i < q then 2 else 1
  {
    seq(jobs, i => if i < q then 2 else 1)
  }

  lemma {:induction false} ChargeTotal(jobs: nat, q: nat)
    requires q <= jobs
    ensures Total(Charge(jobs, q)) == jobs + q
    decreases jobs
  {
    if jobs > 0 {
      var k := jobs - 1;
      if q == jobs {
        assert Charge(jobs, q)[..k] == Charge(k, k);
        ChargeTotal(k, k);
      } else {
        assert Charge(jobs, q)[..k] == Charge(k, q);
        ChargeTotal(k, q);
      }
    }
  }

  /** A bucket that is charged at most one holds at most one job, and not a big one. */
  lemma {:induction false} LowCharge(w: seq<nat>, a: seq<nat>, q: nat, m: nat, top: nat)
    requires |w| == |a|
    requires forall i :: q <= i < |w| ==> w[i] <= top
    ensures Load(Charge(|w|, q), a, m) == 0 ==> Load(w, a, m) == 0
    ensures Load(Charge(|w|, q), a, m) <= 1 ==> Load(w, a, m) <= top
  {
    if w != [] {
      var k := |w| - 1;
      assert Charge(|w|, q)[..k] == Charge(k, q);
      LowCharge(w[..k], a[..k], q, m, top);
    }
  }

  /** The least weight a bucket of the given charge can have, when the first q jobs weigh
      at least `big` and every job at least x. */
  function Floor(charge: nat, big: nat, x: nat): nat {
    if charge == 0 then 0
    else if charge == 1 then x
    else if charge == 2 then if big < 2 * x then big else 2 * x
    else if big + x < 3 * x then big + x else 3 * x
  }

  lemma {:induction false} HighCharge(w: seq<nat>, a: seq<nat>, q: nat, m: nat, big: nat, x: nat)
    requires |w| == |a| && x <= big
    requires forall i :: 0 <= i < |w| ==> x <= w[i]
    requires forall i :: 0 <= i < |w| && i < q ==> big <= w[i]
    ensures Floor(Load(Charge(|w|, q), a, m), big, x) <= Load(w, a, m)
  {
    if w != [] {
      var k := |w| - 1;
      assert Charge(|w|, q)[..k] == Charge(k, q);
      HighCharge(w[..k], a[..k], q, m, big, x);
    }
  }

  lemma BucketChargedBelow(jobs: nat, a: seq<nat>, n: nat, q: nat, limit: nat) returns (m: nat)
    requires |a| == jobs && Within(a, n) && q <= jobs && jobs + q < n * limit
    ensures m < n && Load(Charge(jobs, q), a, m) < limit
  {
    var loads := Loads(Charge(jobs, q), a, n);
    LoadsTotal(Charge(jobs, q), a, n);
    ChargeTotal(jobs, q);
    if forall i :: 0 <= i < n ==> limit <= loads[i] {
      TotalAtLeast(loads, limit);
      assert false;
    }
    m :| 0 <= m < n && loads[m] < limit;
  }

  lemma BucketChargedAbove(jobs: nat, a: seq<nat>, n: nat, q: nat, limit: nat) returns (m: nat)
    requires |a| == jobs && Within(a, n) && q <= jobs && n * limit < jobs + q
    ensures m < n && limit < Load(Charge(jobs, q), a, m)
  {
    var loads := Loads(Charge(jobs, q), a, n);
    LoadsTotal(Charge(jobs, q), a, n);
    ChargeTotal(jobs, q);
    if forall i :: 0 <= i < n ==> loads[i] <= limit {
      TotalAtMost(loads, limit);
      assert false;
    }
    m :| 0 <= m < n && limit < loads[m];
  }

  // -- one greedy placement against any other assignment -------------------------

  predicate Descending(w: seq<nat>) {
    forall i, j :: 0 <= i < j < |w| ==> w[i] >= w[j]
  }

  ghost predicate AllAtLeast(w: seq<nat>, a: seq<nat>, n: nat, least: nat)
    requires |w| == |a|
  {
    forall m :: 0 <= m < n ==> least <= Load(w, a, m)
  }

  /** Job k (the last of w) goes on a bucket of load `least`, the smallest of the earlier
      assignment a. b is any assignment of all of w, `worst` its heaviest bucket. */
  ghost predicate Placement(w: seq<nat>, n: nat, a: seq<nat>, least: nat, b: seq<nat>, worst: nat) {
    && n > 0 && |w| > 0 && Descending(w)
    && |a| == |w| - 1 && Within(a, n)
    && |b| == |w| && Within(b, n)
    && AllAtLeast(w[..|w| - 1], a, n, least)
    && (forall m :: 0 <= m < n ==> Load(w, b, m) <= worst)
  }

  /** A job heavier than a third of the optimum never makes greedy exceed the optimum. */
  lemma HeavyJob(w: seq<nat>, n: nat, a: seq<nat>, least: nat, b: seq<nat>, worst: nat)
    requires Placement(w, n, a, least, b, worst) && 3 * w[|w| - 1] > worst
    ensures least + w[|w| - 1] <= worst
  {
    var k := |w| - 1;
    var x := w[k];
    if k < n {
      var m := BucketChargedBelow(k, a, n, 0, 1);
      LowCharge(w[..k], a, 0, m, w[0]);
      assert x <= Load(w, b, b[k]);
    } else if k + 1 > 2 * n {
      var m := BucketChargedAbove(k + 1, b, n, 0, 2);
      HighCharge(w, b, 0, m, 2 * x, x);
      assert false;
    } else {
      var q := 2 * n - k - 1;
      var light := BucketChargedBelow(k, a, n, q, 2);
      LowCharge(w[..k], a, q, light, w[q]);
      var full := BucketChargedAbove(k + 1, b, n, q + 1, 2);
      HighCharge(w, b, q + 1, full, w[q], x);
      assert Load(w, b, full) <= worst;
    }
  }

  lemma AverageBound(w: seq<nat>, n: nat, a: seq<nat>, least: nat, b: seq<nat>, worst: nat)
    requires Placement(w, n, a, least, b, worst)
    ensures n * least + w[|w| - 1] <= n * worst
  {
    var k := |w| - 1;
    TotalAtLeast(Loads(w[..k], a, n), least);
    LoadsTotal(w[..k], a, n);
    TotalAtMost(Loads(w, b, n), worst);
    LoadsTotal(w, b, n);
  }

  /** load is at most (4/3 - 1/(3n)) worst. */
  predicate WithinGraham(n: nat, load: nat, worst: nat) {
    3 * n * load <= (4 * n - 1) * worst
  }

  lemma PlacementBound(w: seq<nat>, n: nat, a: seq<nat>, least: nat, b: seq<nat>, worst: nat)
    requires Placement(w, n, a, least, b, worst)
    ensures WithinGraham(n, least + w[|w| - 1], worst)
  {
    var x := w[|w| - 1];
    if 3 * x > worst {
      HeavyJob(w, n, a, least, b, worst);
      GrahamHeavy(n, least + x, worst);
    } else {
      AverageBound(w, n, a, least, b, worst);
      GrahamLight(n, least, x, worst);
    }
  }

  lemma GrahamHeavy(n: nat, load: nat, worst: nat)
    requires n > 0 && load <= worst
    ensures WithinGraham(n, load, worst)
  {
    assert 3 * n * load <= 3 * n * worst;
    assert (4 * n - 1) * worst == 3 * n * worst + (n - 1) * worst;
  }

  lemma GrahamLight(n: nat, least: nat, x: nat, worst: nat)
    requires n > 0 && 3 * x <= worst && n * least + x <= n * worst
    ensures WithinGraham(n, least + x, worst)
  {
    var p, q, r := n * least, n * x, n * worst;
    assert (n - 1) * (3 * x) <= (n - 1) * worst by {
      MultiplyBoth(n - 1, 3 * x, worst);
    }
    assert (n - 1) * (3 * x) == 3 * q - 3 * x && (n - 1) * worst == r - worst;
    assert 3 * n * (least + x) == 3 * p + 3 * q && (4 * n - 1) * worst == 4 * r - worst;
  }

  lemma MultiplyBoth(c: nat, x: nat, y: nat)
    requires x <= y
    ensures c * x <= c * y
  {
  }

  // -- the greedy assignment ------------------------------------------------------

  /** The first bucket of smallest total. */
  function ArgMin(totals: seq<nat>): (i: nat)
    requires totals != []
    ensures i < |totals|
    ensures forall m :: 0 <= m < |totals| ==> totals[i] <= totals[m]
    ensures forall m :: 0 <= m < i ==> totals[i] < totals[m]
  {
    var k := |totals| - 1;
    if k == 0 then 0
    else
      var j := ArgMin(totals[..k]);
      if totals[k] < totals[j] then k else j
  }

  function Greedy(w: seq<nat>, n: nat): (a: seq<nat>)
    requires n > 0
    ensures |a| == |w| && Within(a, n)
  {
    if w == [] then []
    else
      var rest := w[..|w| - 1];
      var before := Greedy(rest, n);
      before + [ArgMin(Loads(rest, before, n))]
  }

  /** Graham's bound: 4/3 - 1/(3n) times the heaviest bucket of any other assignment. */
  lemma {:induction false} GreedyBound(w: seq<nat>, n: nat, b: seq<nat>, worst: nat, m: nat)
    requires n > 0 && Descending(w) && |b| == |w| && Within(b, n) && m < n
    requires forall i :: 0 <= i < n ==> Load(w, b, i) <= worst
    ensures WithinGraham(n, Load(w, Greedy(w, n), m), worst)
  {
    if w == [] {
      GrahamHeavy(n, 0, worst);
    } else {
      var k := |w| - 1;
      var rest, before := w[..k], Greedy(w[..k], n);
      var a := Greedy(w, n);
      assert a[..k] == before;
      forall i | 0 <= i < n ensures Load(rest, b[..k], i) <= worst {
        assert Load(rest, b[..k], i) <= Load(w, b, i);
      }
      if a[k] == m {
        PlacementBound(w, n, before, Load(rest, before, m), b, worst);
      } else {
        GreedyBound(rest, n, b[..k], worst, m);
      }
    }
  }

  /** The bound is attained: five files of weights 3, 3, 2, 2, 2 on two shards. */
  lemma GreedyBoundIsTight(w: seq<nat>, best: seq<nat>)
    requires w == [3, 3, 2, 2, 2] && best == [0, 0, 1, 1, 1]
    ensures Loads(w, Greedy(w, 2), 2) == [7, 5] && Loads(w, best, 2) == [6, 6]
    ensures 3 * 2 * 7 == (4 * 2 - 1) * 6
  {
    GreedyLoads(w);
    BestLoads(w, best);
  }

  lemma GreedyLoads(w: seq<nat>)
    requires w == [3, 3, 2, 2, 2]
    ensures Loads(w, Greedy(w, 2), 2) == [7, 5]
  {
    var w0: seq<nat> := [];
    var w2, w4 := w0 + [3] + [3], w0 + [3] + [3] + [2] + [2];
    TwoPushes(w0, 3, 3, 0, 0);
    TwoPushes(w2, 2, 2, 3, 3);
    GreedyPush(w4, 2, 5, 5);
    assert w4 + [2] == w;
  }

  /** Two equal jobs on two equal loads go one to each. */
  lemma TwoPushes(w: seq<nat>, a: nat, b: nat, x: nat, y: nat)
    requires GreedyAt(w, x, y) && x == y && a == b > 0
    ensures GreedyAt(w + [a] + [b], x + a, y + b)
  {
    GreedyPush(w, a, x, y);
    GreedyPush(w + [a], b, x + a, y);
  }

  lemma BestLoads(w: seq<nat>, a: seq<nat>)
    requires w == [3, 3, 2, 2, 2] && a == [0, 0, 1, 1, 1]
    ensures Loads(w, a, 2) == [6, 6]
  {
    LoadsPush(w[..1], a[..1], 2);
    LoadsPush(w[..2], a[..2], 2);
    LoadsPush(w[..3], a[..3], 2);
    LoadsPush(w[..4], a[..4], 2);
    LoadsPush(w, a, 2);
    Prefixes(w);
    Prefixes(a);
  }

  lemma Prefixes(s: seq<nat>)
    requires |s| == 5
    ensures s[..1][..0] == [] && s[..2][..1] == s[..1]
    ensures s[..3][..2] == s[..2] && s[..4][..3] == s[..3]
  {
  }

  ghost predicate GreedyAt(w: seq<nat>, x: nat, y: nat) {
    Loads(w, Greedy(w, 2), 2) == [x, y]
  }

  lemma GreedyPush(w: seq<nat>, job: nat, x: nat, y: nat)
    requires GreedyAt(w, x, y)
    ensures if y < x then GreedyAt(w + [job], x, y + job) else GreedyAt(w + [job], x + job, y)
  {
    assert (w + [job])[..|w|] == w;
  }

  // -- the files, sorted --------------------------------------------------------

  /** Python's string order, by code point. */
  predicate NameAtMost(a: string, b: string) {
    if a == [] then true
    else if b == [] then false
    else a[0] < b[0] || (a[0] == b[0] && NameAtMost(a[1..], b[1..]))
  }

  /** The sort key (-weight, name). */
  predicate Precedes(f: TestFile, g: TestFile) {
    f.weight > g.weight || (f.weight == g.weight && NameAtMost(f.name, g.name))
  }

  function Insert(f: TestFile, s: seq<TestFile>): (r: seq<TestFile>)
    ensures multiset(r) == multiset{f} + multiset(s)
  {
    if s == [] || Precedes(f, s[0]) then
      assert [f] + s == [f] + s;
      [f] + s
    else
      assert s == [s[0]] + s[1..];
      [s[0]] + Insert(f, s[1..])
  }

  function Sorted(files: seq<TestFile>): (r: seq<TestFile>)
    ensures multiset(r) == multiset(files)
  {
    if files == [] then []
    else
      assert files == [files[0]] + files[1..];
      Insert(files[0], Sorted(files[1..]))
  }

  ghost predicate Ordered(s: seq<TestFile>) {
    forall i :: 0 <= i < |s| - 1 ==> Precedes(s[i], s[i + 1])
  }

  lemma NamesTotal(a: string, b: string)
    ensures NameAtMost(a, b) || NameAtMost(b, a)
  {
  }

  lemma {:induction false} InsertOrdered(f: TestFile, s: seq<TestFile>)
    requires Ordered(s)
    ensures Ordered(Insert(f, s))
    ensures Insert(f, s)[0] == f || (s != [] && Insert(f, s)[0] == s[0])
  {
    if s == [] || Precedes(f, s[0]) {
      var r := [f] + s;
      forall i | 0 <= i < |r| - 1 ensures Precedes(r[i], r[i + 1]) {
        assert i > 0 ==> r[i] == s[i - 1] && r[i + 1] == s[i - 1 + 1];
      }
    } else {
      NamesTotal(f.name, s[0].name);
      forall i | 0 <= i < |s[1..]| - 1 ensures Precedes(s[1..][i], s[1..][i + 1]) {
        assert s[1..][i] == s[i + 1] && s[1..][i + 1] == s[i + 1 + 1];
      }
      InsertOrdered(f, s[1..]);
      var t := Insert(f, s[1..]);
      var r := [s[0]] + t;
      assert s[1..] != [] ==> Precedes(s[0], s[0 + 1]);
      forall i | 0 <= i < |r| - 1 ensures Precedes(r[i], r[i + 1]) {
        assert i > 0 ==> r[i] == t[i - 1] && r[i + 1] == t[i - 1 + 1];
      }
    }
  }

  lemma {:induction false} SortedOrdered(files: seq<TestFile>)
    ensures Ordered(Sorted(files))
  {
    if files != [] {
      SortedOrdered(files[1..]);
      InsertOrdered(files[0], Sorted(files[1..]));
    }
  }

  /** Names compare as strings do: by the first character in which they differ, and a prefix
      comes first. */
  lemma {:induction false} NameOrder(a: string, b: string)
    ensures NameAtMost(a, b) <==> a <= b || exists k :: FirstLess(a, b, k)
  {
    if a != [] && b != [] {
      NameOrder(a[1..], b[1..]);
      assert a <= b <==> a[0] == b[0] && a[1..] <= b[1..];
      if k :| FirstLess(a, b, k) {
        if k > 0 {
          assert a[..k][0] == b[..k][0] && a[..k][1..] == a[1..][..k - 1] && b[..k][1..] == b[1..][..k - 1];
          assert FirstLess(a[1..], b[1..], k - 1);
        }
      }
      if a[0] < b[0] {
        assert FirstLess(a, b, 0);
      }
      if a[0] == b[0] && exists k :: FirstLess(a[1..], b[1..], k) {
        var k :| FirstLess(a[1..], b[1..], k);
        assert a[..k + 1] == [a[0]] + a[1..][..k] && b[..k + 1] == [b[0]] + b[1..][..k];
        assert FirstLess(a, b, k + 1);
      }
    }
  }

  predicate FirstLess(a: string, b: string, k: int) {
    0 <= k < |a| && k < |b| && a[..k] == b[..k] && a[k] < b[k]
  }

  lemma {:induction false} NamesTransitive(a: string, b: string, c: string)
    requires NameAtMost(a, b) && NameAtMost(b, c)
    ensures NameAtMost(a, c)
  {
    if a != [] {
      if a[0] == b[0] == c[0] {
        NamesTransitive(a[1..], b[1..], c[1..]);
      }
    }
  }

  /** Heavier files come first, and of equally heavy ones the earlier name, all through. */
  lemma {:induction false} SortedThroughout(files: seq<TestFile>, i: nat, j: nat)
    requires i < j < |Sorted(files)|
    ensures var f, g := Sorted(files)[i], Sorted(files)[j];
      f.weight > g.weight || (f.weight == g.weight && NameAtMost(f.name, g.name))
    decreases j
  {
    SortedOrdered(files);
    assert Precedes(Sorted(files)[j - 1], Sorted(files)[j - 1 + 1]);
    if i < j - 1 {
      var f, g, h := Sorted(files)[i], Sorted(files)[j - 1], Sorted(files)[j];
      SortedThroughout(files, i, j - 1);
      if f.weight == g.weight == h.weight {
        NamesTransitive(f.name, g.name, h.name);
      }
    }
  }

  /** The bound is 4/3 - 1/(3n) of the other makespan. */
  lemma GrahamMeans(n: nat, load: nat, worst: nat)
    requires n > 0
    ensures WithinGraham(n, load, worst)
      <==> load as real <= (4.0 / 3.0 - 1.0 / (3.0 * n as real)) * worst as real
  {
    var m, l, w := n as real, load as real, worst as real;
    GrahamScaled(m, l, w, 4.0 / 3.0 - 1.0 / (3.0 * m));
    assert (3 * n * load) as real == 3.0 * m * l && ((4 * n - 1) * worst) as real == (4.0 * m - 1.0) * w;
  }

  lemma GrahamScaled(m: real, l: real, w: real, c: real)
    requires m > 0.0 && c == 4.0 / 3.0 - 1.0 / (3.0 * m)
    ensures 3.0 * m * l <= (4.0 * m - 1.0) * w <==> l <= c * w
  {
    assert 3.0 * m * c == 4.0 * m - 1.0;
    assert 3.0 * m * (c * w) == (4.0 * m - 1.0) * w;
    var gap := c * w - l;
    assert 3.0 * m * gap == (4.0 * m - 1.0) * w - 3.0 * m * l;
    if gap >= 0.0 {
      assert 3.0 * m * gap >= 0.0;
    } else {
      assert 3.0 * m * gap < 0.0;
    }
  }

  function Weights(s: seq<TestFile>): (w: seq<nat>)
    ensures |w| == |s| && forall i :: 0 <= i < |s| ==> w[i] == s[i].weight
  {
    seq(|s|, i requires 0 <= i < |s| => s[i].weight)
  }

  lemma OrderedDescends(s: seq<TestFile>)
    requires Ordered(s)
    ensures Descending(Weights(s))
  {
    forall i, j | 0 <= i < j < |s| ensures s[i].weight >= s[j].weight {
      DescendsTo(s, i, j);
    }
  }

  lemma {:induction false} DescendsTo(s: seq<TestFile>, i: nat, j: nat)
    requires Ordered(s) && i < j < |s|
    ensures s[i].weight >= s[j].weight
    decreases j
  {
    assert Precedes(s[j - 1], s[j - 1 + 1]);
    if i < j - 1 {
      DescendsTo(s, i, j - 1);
    }
  }

  // -- shardings of the files ---------------------------------------------------

  function Weight(bucket: seq<TestFile>): nat {
    Total(Weights(bucket))
  }

  ghost function Pooled(buckets: seq<seq<TestFile>>): multiset<TestFile> {
    if buckets == [] then multiset{}
    else Pooled(buckets[..|buckets| - 1]) + multiset(buckets[|buckets| - 1])
  }

  /** n buckets that together hold exactly the files. */
  ghost predicate Sharding(files: seq<TestFile>, buckets: seq<seq<TestFile>>, n: nat) {
    |buckets| == n && Pooled(buckets) == multiset(files)
  }

  /** Taking f out of bucket j takes one f out of the pool. */
  lemma {:induction false} PooledRemove(buckets: seq<seq<TestFile>>, j: nat, b: seq<TestFile>, f: TestFile)
    requires j < |buckets| && multiset(buckets[j]) == multiset(b) + multiset{f}
    ensures Pooled(buckets) == Pooled(buckets[j := b]) + multiset{f}
  {
    var k := |buckets| - 1;
    var after := buckets[j := b];
    if j == k {
      assert after[..k] == buckets[..k];
    } else {
      assert after[..k] == buckets[..k][j := b];
      PooledRemove(buckets[..k], j, b, f);
    }
  }

  lemma PooledPush(buckets: seq<seq<TestFile>>, i: nat, f: TestFile)
    requires i < |buckets|
    ensures Pooled(buckets[i := buckets[i] + [f]]) == Pooled(buckets) + multiset{f}
  {
    var after := buckets[i := buckets[i] + [f]];
    PooledRemove(after, i, buckets[i], f);
    assert after[i := buckets[i]] == buckets;
  }

  lemma {:induction false} PooledHolds(buckets: seq<seq<TestFile>>, f: TestFile) returns (j: nat)
    requires f in Pooled(buckets)
    ensures j < |buckets| && f in buckets[j]
  {
    var k := |buckets| - 1;
    if f in buckets[k] {
      j := k;
    } else {
      j := PooledHolds(buckets[..k], f);
    }
  }

  lemma {:induction false} WeightRemove(b: seq<TestFile>, p: nat)
    requires p < |b|
    ensures Weight(b) == Weight(b[..p] + b[p + 1..]) + b[p].weight
  {
    var k := |b| - 1;
    assert Weights(b)[..k] == Weights(b[..k]);
    if p == k {
      assert b[..p] + b[p + 1..] == b[..k];
    } else {
      var r := b[..p] + b[p + 1..];
      assert r[..k - 1] == b[..k][..p] + b[..k][p + 1..];
      assert Weights(r)[..k - 1] == Weights(r[..k - 1]);
      assert r[k - 1] == b[k];
      WeightRemove(b[..k], p);
    }
  }

  /** Any sharding is an assignment of the sorted files with the same bucket weights. */
  lemma {:induction false} ShardingAsAssignment(s: seq<TestFile>, buckets: seq<seq<TestFile>>, n: nat)
    returns (a: seq<nat>)
    requires Sharding(s, buckets, n)
    ensures |a| == |s| && Within(a, n)
    ensures forall m :: 0 <= m < n ==> Load(Weights(s), a, m) == Weight(buckets[m])
  {
    if s == [] {
      a := [];
      forall m | 0 <= m < n ensures Weight(buckets[m]) == 0 {
        if buckets[m] != [] {
          BucketInPool(buckets, m, buckets[m][0]);
          assert false;
        }
      }
    } else {
      var k := |s| - 1;
      var j, rest := TakeOut(s, buckets, n);
      var before := ShardingAsAssignment(s[..k], buckets[j := rest], n);
      a := before + [j];
      assert a[..k] == before && Weights(s)[..k] == Weights(s[..k]);
      forall m | 0 <= m < n ensures Load(Weights(s), a, m) == Weight(buckets[m]) {
        assert Load(Weights(s[..k]), before, m) == Weight(buckets[j := rest][m]);
      }
    }
  }

  lemma RemoveAt(b: seq<TestFile>, p: nat)
    requires p < |b|
    ensures multiset(b) == multiset(b[..p] + b[p + 1..]) + multiset{b[p]}
  {
    assert b == b[..p] + [b[p]] + b[p + 1..];
  }

  /** The last sorted file comes out of one bucket; the rest is a sharding of the rest. */
  lemma TakeOut(s: seq<TestFile>, buckets: seq<seq<TestFile>>, n: nat)
    returns (j: nat, rest: seq<TestFile>)
    requires s != [] && Sharding(s, buckets, n)
    ensures j < n && Sharding(s[..|s| - 1], buckets[j := rest], n)
    ensures Weight(buckets[j]) == Weight(rest) + s[|s| - 1].weight
  {
    var k := |s| - 1;
    assert s == s[..k] + [s[k]];
    assert s[k] in multiset(s);
    j := PooledHolds(buckets, s[k]);
    var b := buckets[j];
    var p :| 0 <= p < |b| && b[p] == s[k];
    rest := b[..p] + b[p + 1..];
    RemoveAt(b, p);
    PooledRemove(buckets, j, rest, s[k]);
    assert multiset(s) == multiset(s[..k]) + multiset{s[k]};
    assert Pooled(buckets[j := rest]) == Pooled(buckets) - multiset{s[k]} == multiset(s[..k]);
    WeightRemove(b, p);
  }

  lemma {:induction false} BucketInPool(buckets: seq<seq<TestFile>>, m: nat, f: TestFile)
    requires m < |buckets| && f in buckets[m]
    ensures f in Pooled(buckets)
  {
    if m < |buckets| - 1 {
      BucketInPool(buckets[..|buckets| - 1], m, f);
    }
  }

  // -- the scheduler --------------------------------------------------------------

  /** As many shards as asked for, but none without a file, and at least one. */
  function ShardCount(shards: int, files: nat): (n: nat)
    ensures n > 0
    ensures 1 <= shards && 1 <= files ==> n <= shards && n <= files && (n == shards || n == files)
    ensures shards < 1 || files < 1 ==> n == 1
  {
    var least := if shards < files then shards else files;
    if 1 < least then least else 1
  }

  /** The files assigned to bucket m, heaviest first. */
  function Picked(s: seq<TestFile>, a: seq<nat>, m: nat): seq<TestFile>
    requires |s| == |a|
  {
    if s == [] then []
    else
      var k := |s| - 1;
      Picked(s[..k], a[..k], m) + if a[k] == m then [s[k]] else []
  }

  function Picks(s: seq<TestFile>, a: seq<nat>, n: nat): (r: seq<seq<TestFile>>)
    requires |s| == |a|
    ensures |r| == n && forall m :: 0 <= m < n ==> r[m] == Picked(s, a, m)
  {
    seq(n, m requires 0 <= m < n => Picked(s, a, m))
  }

  lemma {:induction false} PickedWeight(s: seq<TestFile>, a: seq<nat>, m: nat)
    requires |s| == |a|
    ensures Weight(Picked(s, a, m)) == Load(Weights(s), a, m)
  {
    if s != [] {
      var k := |s| - 1;
      PickedWeight(s[..k], a[..k], m);
      assert Weights(s)[..k] == Weights(s[..k]);
      if a[k] == m {
        WeightAppend(Picked(s[..k], a[..k], m), s[k]);
      } else {
        assert Picked(s, a, m) == Picked(s[..k], a[..k], m);
      }
    }
  }

  lemma PicksPush(s: seq<TestFile>, a: seq<nat>, n: nat)
    requires |s| == |a| > 0 && Within(a, n)
    ensures var k := |s| - 1;
      var before := Picks(s[..k], a[..k], n);
      Picks(s, a, n) == before[a[k] := before[a[k]] + [s[k]]]
  {
    var k := |s| - 1;
    var before := Picks(s[..k], a[..k], n);
    forall m | 0 <= m < n
      ensures Picked(s, a, m) == before[a[k] := before[a[k]] + [s[k]]][m]
    {
      assert m != a[k] ==> before[m] + [] == before[m];
    }
  }

  lemma {:induction false} PicksAreSharding(s: seq<TestFile>, a: seq<nat>, n: nat)
    requires |s| == |a| && Within(a, n)
    ensures Sharding(s, Picks(s, a, n), n)
  {
    if s == [] {
      PooledNothing(Picks(s, a, n));
    } else {
      var k := |s| - 1;
      PicksAreSharding(s[..k], a[..k], n);
      PicksPush(s, a, n);
      PooledPush(Picks(s[..k], a[..k], n), a[k], s[k]);
      MultisetPush(s);
    }
  }

  lemma MultisetPush(s: seq<TestFile>)
    requires s != []
    ensures multiset(s) == multiset(s[..|s| - 1]) + multiset{s[|s| - 1]}
  {
    assert s == s[..|s| - 1] + [s[|s| - 1]];
  }

  function GreedyOf(s: seq<TestFile>, n: nat): (a: seq<nat>)
    requires n > 0
    ensures |a| == |s| && Within(a, n)
  {
    Greedy(Weights(s), n)
  }

  /** One more file: it goes to the bucket of smallest total. */
  lemma GreedyOfPush(s: seq<TestFile>, f: TestFile, n: nat, totals: seq<nat>)
    requires n > 0 && totals == Loads(Weights(s), GreedyOf(s, n), n)
    ensures var i := ArgMin(totals);
      && GreedyOf(s + [f], n) == GreedyOf(s, n) + [i]
      && Loads(Weights(s + [f]), GreedyOf(s + [f], n), n) == totals[i := totals[i] + f.weight]
  {
    var w := Weights(s + [f]);
    assert w[..|s|] == Weights(s);
    var a := GreedyOf(s + [f], n);
    assert a[..|s|] == GreedyOf(s, n);
    LoadsPush(w, a, n);
  }

  lemma PicksOfPush(s: seq<TestFile>, f: TestFile, n: nat, a: seq<nat>, i: nat)
    requires |a| == |s| && Within(a, n) && i < n
    ensures var before := Picks(s, a, n);
      Picks(s + [f], a + [i], n) == before[i := before[i] + [f]]
  {
    assert (s + [f])[..|s|] == s && (a + [i])[..|s|] == a;
    PicksPush(s + [f], a + [i], n);
  }

  /** The packing loop, over the files heaviest first. */
  method Pack(weighted: seq<TestFile>, n: nat) returns (buckets: seq<seq<TestFile>>)
    requires n > 0
    ensures buckets == Picks(weighted, GreedyOf(weighted, n), n)
  {
    buckets := seq(n, i => []);
    var totals := seq(n, i => 0);
    ghost var done: seq<TestFile> := [];
    for k := 0 to |weighted|
      invariant done == weighted[..k]
      invariant totals == Loads(Weights(done), GreedyOf(done, n), n)
      invariant buckets == Picks(done, GreedyOf(done, n), n)
    {
      var f, i := weighted[k], ArgMin(totals);
      GreedyOfPush(done, f, n, totals);
      PicksOfPush(done, f, n, GreedyOf(done, n), i);
      buckets := buckets[i := buckets[i] + [f]];
      totals := totals[i := totals[i] + f.weight];
      done := done + [f];
    }
    assert done == weighted;
  }

  /** The shards are the files, and no other sharding into as many buckets has a heaviest
      bucket lighter than 3n / (4n - 1) times this one's heaviest. */
  method ShardFiles(files: seq<TestFile>, shards: int) returns (buckets: seq<seq<TestFile>>)
    ensures Sharding(files, buckets, ShardCount(shards, |files|))
    ensures 1 <= shards <= |files| ==> |buckets| == shards
    ensures 1 <= |files| < shards ==> |buckets| == |files|
    ensures forall other: seq<seq<TestFile>>, worst: nat, m: nat ::
      Sharding(files, other, |buckets|) && Heaviest(other, worst) && m < |buckets| ==>
        WithinGraham(|buckets|, Weight(buckets[m]), worst)
    ensures var s := Sorted(files);
      buckets == Picks(s, GreedyOf(s, |buckets|), |buckets|)
  {
    var n := ShardCount(shards, |files|);
    var weighted := Sorted(files);
    buckets := Pack(weighted, n);
    PicksAreSharding(weighted, GreedyOf(weighted, n), n);
    forall other: seq<seq<TestFile>>, worst: nat, m: nat
      | Sharding(files, other, n) && Heaviest(other, worst) && m < n
      ensures WithinGraham(n, Weight(buckets[m]), worst)
    {
      MakespanBound(files, other, n, worst, m);
      PickedWeight(weighted, GreedyOf(weighted, n), m);
    }
  }

  ghost predicate Heaviest(buckets: seq<seq<TestFile>>, worst: nat) {
    forall m :: 0 <= m < |buckets| ==> Weight(buckets[m]) <= worst
  }

  lemma {:induction false} PooledNothing(buckets: seq<seq<TestFile>>)
    requires forall m :: 0 <= m < |buckets| ==> buckets[m] == []
    ensures Pooled(buckets) == multiset{}
  {
    if buckets != [] {
      PooledNothing(buckets[..|buckets| - 1]);
    }
  }

  lemma WeightAppend(b: seq<TestFile>, f: TestFile)
    ensures Weight(b + [f]) == Weight(b) + f.weight
  {
    assert Weights(b + [f])[..|b|] == Weights(b);
  }

  lemma MakespanBound(files: seq<TestFile>, other: seq<seq<TestFile>>, n: nat, worst: nat, m: nat)
    requires n > 0 && Sharding(files, other, n) && Heaviest(other, worst) && m < n
    ensures var w := Weights(Sorted(files));
      WithinGraham(n, Load(w, Greedy(w, n), m), worst)
  {
    var s := Sorted(files);
    SortedOrdered(files);
    OrderedDescends(s);
    var b := ShardingAsAssignment(s, other, n);
    GreedyBound(Weights(s), n, b, worst, m);
  }
}
