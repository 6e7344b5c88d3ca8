/** Serial-to-bay matching: greedy acceptance by descending score, and the count of
    consecutive acceptances an association needs. */
module Associate {
  type Serial = string
  type BayName = string

  /** The score of every scored (serial, bay) pair. */
  type Scores = map<(Serial, BayName), real>

  const CONFIRM_EVALUATIONS := 3

  // -- the order-free rule ---------------------------------------------------------

  /** (s, b) scores enough and beats, by the margin, 0 and every rival of its row and column. */
  ghost predicate Wins(scores: Scores, minCorr: real, margin: real, s: Serial, b: BayName) {
    && (s, b) in scores
    && scores[(s, b)] >= minCorr
    && scores[(s, b)] >= margin
    && (forall p :: p in scores && p.0 == s && p.1 != b ==> scores[(s, b)] - scores[p] >= margin)
    && (forall p :: p in scores && p.0 != s && p.1 == b ==> scores[(s, b)] - scores[p] >= margin)
  }

  ghost predicate Matches(out: map<BayName, Serial>, scores: Scores, minCorr: real, margin: real) {
    && (forall b :: b in out ==> Wins(scores, minCorr, margin, out[b], b))
    && (forall s, b :: Wins(scores, minCorr, margin, s, b) ==> b in out && out[b] == s)
  }

  predicate Injective(m: map<BayName, Serial>) {
    forall b, c :: b in m && c in m && m[b] == m[c] ==> b == c
  }

  /** Two winners never share a serial or a bay. */
  lemma WinnersApart(scores: Scores, minCorr: real, margin: real,
                     s: Serial, b: BayName, t: Serial, c: BayName)
    requires margin > 0.0
    requires Wins(scores, minCorr, margin, s, b) && Wins(scores, minCorr, margin, t, c)
    ensures (s == t <==> b == c)
  {
    assert (s, b) in scores && (t, c) in scores;
    assert (s, b).0 == s && (t, c).0 == t && (s, b).1 == b && (t, c).1 == c;
  }

  lemma MatchIsInjective(out: map<BayName, Serial>, scores: Scores, minCorr: real, margin: real)
    requires margin > 0.0 && Matches(out, scores, minCorr, margin)
    ensures Injective(out)
  {
    forall b, c | b in out && c in out && out[b] == out[c] ensures b == c {
      WinnersApart(scores, minCorr, margin, out[b], b, out[c], c);
    }
  }

  /** The rule leaves no choice, so neither the order of equal scores nor the taken sets of
      the greedy loop can matter. */
  lemma MatchIsUnique(m: map<BayName, Serial>, n: map<BayName, Serial>,
                      scores: Scores, minCorr: real, margin: real)
    requires Matches(m, scores, minCorr, margin) && Matches(n, scores, minCorr, margin)
    ensures m == n
  {
    forall b | b in m ensures b in n && n[b] == m[b] {
      assert Wins(scores, minCorr, margin, m[b], b);
    }
    forall b | b in n ensures b in m && m[b] == n[b] {
      assert Wins(scores, minCorr, margin, n[b], b);
    }
  }

  // -- the greedy loop ---------------------------------------------------------------

  /** `order` lists every scored pair, best score first, equal scores in any order. */
  ghost predicate Ranking(order: seq<(Serial, BayName)>, scores: Scores) {
    && (forall p :: p in order <==> p in scores)
    && (forall i, j :: 0 <= i < j < |order| ==> order[i] != order[j] && scores[order[i]] >= scores[order[j]])
  }

  /** A rival of (s, b): in its row (another bay) or in its column (another serial). */
  predicate Rival(p: (Serial, BayName), s: Serial, b: BayName, row: bool) {
    if row then p.0 == s && p.1 != b else p.0 != s && p.1 == b
  }

  /** The largest of 0 and the scores of the row rivals (or the column rivals) of (s, b). */
  function RunnerUp(order: seq<(Serial, BayName)>, scores: Scores, s: Serial, b: BayName, row: bool): (r: real)
    requires forall p :: p in order ==> p in scores
    ensures r >= 0.0
    ensures forall p :: p in order && Rival(p, s, b, row) ==> r >= scores[p]
    ensures r == 0.0 || (exists p :: p in order && Rival(p, s, b, row) && r == scores[p])
  {
    if order == [] then 0.0
    else
      var best := RunnerUp(order[1..], scores, s, b, row);
      if Rival(order[0], s, b, row) && scores[order[0]] > best then scores[order[0]] else best
  }

  /** The acceptance test of the loop is the order-free rule. */
  lemma TestIsRule(order: seq<(Serial, BayName)>, scores: Scores, minCorr: real, margin: real,
                   s: Serial, b: BayName)
    requires Ranking(order, scores) && (s, b) in scores && scores[(s, b)] >= minCorr
    ensures Wins(scores, minCorr, margin, s, b) <==>
      && scores[(s, b)] - RunnerUp(order, scores, s, b, true) >= margin
      && scores[(s, b)] - RunnerUp(order, scores, s, b, false) >= margin
  {
    var x, y := RunnerUp(order, scores, s, b, true), RunnerUp(order, scores, s, b, false);
    if Wins(scores, minCorr, margin, s, b) {
      if x != 0.0 {
        var p :| p in order && Rival(p, s, b, true) && x == scores[p];
      }
      if y != 0.0 {
        var p :| p in order && Rival(p, s, b, false) && y == scores[p];
      }
    } else if scores[(s, b)] - x >= margin && scores[(s, b)] - y >= margin {
      forall p | p in scores && p.0 == s && p.1 != b ensures scores[(s, b)] - scores[p] >= margin {
        assert p in order && Rival(p, s, b, true);
      }
      forall p | p in scores && p.0 != s && p.1 == b ensures scores[(s, b)] - scores[p] >= margin {
        assert p in order && Rival(p, s, b, false);
      }
      assert false;
    }
  }

  /** After the first k pairs: only winners are out, and every winner among them is. */
  ghost predicate Progress(out: map<BayName, Serial>, order: seq<(Serial, BayName)>, k: nat,
                           scores: Scores, minCorr: real, margin: real)
    requires k <= |order|
  {
    && (forall b :: b in out ==> Wins(scores, minCorr, margin, out[b], b))
    && (forall i :: 0 <= i < k && Wins(scores, minCorr, margin, order[i].0, order[i].1) ==>
         order[i].1 in out && out[order[i].1] == order[i].0)
  }

  /** Taking a winner, or passing over a pair that is no winner or is already out. */
  lemma ProgressStep(out: map<BayName, Serial>, order: seq<(Serial, BayName)>, k: nat,
                     scores: Scores, minCorr: real, margin: real)
    requires k < |order| && Progress(out, order, k, scores, minCorr, margin)
    ensures var (s, b) := order[k];
      && (Wins(scores, minCorr, margin, s, b) && b !in out ==>
           Progress(out[b := s], order, k + 1, scores, minCorr, margin))
      && (!Wins(scores, minCorr, margin, s, b) || (b in out && out[b] == s) ==>
           Progress(out, order, k + 1, scores, minCorr, margin))
  {
  }

  method Assign(scores: Scores, order: seq<(Serial, BayName)>, minCorr: real, margin: real)
    returns (out: map<BayName, Serial>)
    requires margin > 0.0 && Ranking(order, scores)
    ensures Matches(out, scores, minCorr, margin)
  {
    out := map[];
    var takenSerials: set<Serial>, takenBays: set<BayName> := {}, {};
    var k := 0;
    while k < |order|
      invariant 0 <= k <= |order|
      invariant takenBays == out.Keys && takenSerials == out.Values
      invariant Progress(out, order, k, scores, minCorr, margin)
    {
      var (s, b) := order[k];
      if scores[(s, b)] < minCorr {
        break;
      }
      ProgressStep(out, order, k, scores, minCorr, margin);
      if s in takenSerials || b in takenBays {
        TakenMeansBeaten(out, scores, minCorr, margin, s, b);
      } else {
        var accepted := Accepts(scores, order, minCorr, margin, s, b);
        if accepted {
          ValuesUpdate(out, b, s);
          out := out[b := s];
          takenSerials := takenSerials + {s};
          takenBays := takenBays + {b};
        }
      }
      k := k + 1;
    }
    EveryWinnerOut(out, order, k, scores, minCorr, margin);
  }

  /** The margin test of one pair. */
  method Accepts(scores: Scores, order: seq<(Serial, BayName)>, minCorr: real, margin: real,
                 s: Serial, b: BayName) returns (accepted: bool)
    requires Ranking(order, scores) && (s, b) in scores && scores[(s, b)] >= minCorr
    ensures accepted <==> Wins(scores, minCorr, margin, s, b)
  {
    TestIsRule(order, scores, minCorr, margin, s, b);
    var runnerSerial := RunnerUp(order, scores, s, b, true);
    var runnerBay := RunnerUp(order, scores, s, b, false);
    var runner := if runnerSerial < runnerBay then runnerBay else runnerSerial;
    accepted := scores[(s, b)] - runner >= margin;
  }

  /** Behind the first pair below the threshold there are no winners. */
  lemma EveryWinnerOut(out: map<BayName, Serial>, order: seq<(Serial, BayName)>, k: nat,
                       scores: Scores, minCorr: real, margin: real)
    requires k <= |order| && Ranking(order, scores)
    requires Progress(out, order, k, scores, minCorr, margin)
    requires k < |order| ==> scores[order[k]] < minCorr
    ensures Matches(out, scores, minCorr, margin)
  {
    forall s, b | Wins(scores, minCorr, margin, s, b) ensures b in out && out[b] == s {
      var i := PlaceOf(order, scores, (s, b));
      if k <= i {
        BelowTheCut(order, scores, k, i, minCorr);
        assert false;
      }
    }
  }

  lemma BelowTheCut(order: seq<(Serial, BayName)>, scores: Scores, k: nat, i: nat, minCorr: real)
    requires Ranking(order, scores) && k <= i < |order| && scores[order[k]] < minCorr
    ensures scores[order[i]] < minCorr
  {
  }

  lemma PlaceOf(order: seq<(Serial, BayName)>, scores: Scores, p: (Serial, BayName)) returns (i: nat)
    requires Ranking(order, scores) && p in scores
    ensures i < |order| && order[i] == p
  {
    assert p in order;
    i :| 0 <= i < |order| && order[i] == p;
  }

  /** A pair the loop skips because its serial or bay is taken would have been refused. */
  lemma TakenMeansBeaten(out: map<BayName, Serial>, scores: Scores, minCorr: real, margin: real,
                         s: Serial, b: BayName)
    requires margin > 0.0 && (s in out.Values || b in out)
    requires forall c :: c in out ==> Wins(scores, minCorr, margin, out[c], c)
    ensures Wins(scores, minCorr, margin, s, b) ==> b in out && out[b] == s
  {
    if Wins(scores, minCorr, margin, s, b) {
      var c :| c in out && (out[c] == s || c == b);
      WinnersApart(scores, minCorr, margin, s, b, out[c], c);
    }
  }

  lemma ValuesUpdate(m: map<BayName, Serial>, b: BayName, s: Serial)
    requires b !in m
    ensures m[b := s].Values == m.Values + {s}
  {
    var n := m[b := s];
    assert n[b] == s;
    forall v | v in m.Values ensures v in n.Values {
      var c :| c in m && m[c] == v;
      assert n[c] == v;
    }
  }

  // -- consecutive acceptances -------------------------------------------------------

  type Pending = map<BayName, (Serial, int)>

  function CountOf(pending: Pending, b: BayName, s: Serial): (c: int)
    ensures c >= 1
  {
    if b in pending && pending[b].0 == s then
      (if pending[b].1 < 0 then 0 else pending[b].1) + 1
    else 1
  }

  /** The pairs still counting, and those whose count reached the limit. */
  function Confirm(pending: Pending, accepted: map<BayName, Serial>): (r: (Pending, map<BayName, Serial>))
    ensures forall b :: b in r.0 <==> b in accepted && CountOf(pending, b, accepted[b]) < CONFIRM_EVALUATIONS
    ensures forall b :: b in r.1 <==> b in accepted && CountOf(pending, b, accepted[b]) >= CONFIRM_EVALUATIONS
  {
    (map b | b in accepted && CountOf(pending, b, accepted[b]) < CONFIRM_EVALUATIONS ::
       (accepted[b], CountOf(pending, b, accepted[b])),
     map b | b in accepted && CountOf(pending, b, accepted[b]) >= CONFIRM_EVALUATIONS :: accepted[b])
  }
}
