/** The pairing order of the nested loop in generateAllGroupMatches
    (src/lib/services/tournament-service.ts:70-85): for i = 0, 1, ... and then
    for j = i + 1, ..., n - 1, the pair of positions (i, j) of the player
    listing. */
module RoundRobin {

  datatype Pair = Pair(first: nat, second: nat)

  /** The pairs (i, j) for lo <= j < hi, in increasing j. */
  function RowSegment(i: nat, lo: nat, hi: nat): (r: seq<Pair>)
    requires lo <= hi
    ensures |r| == hi - lo
    ensures forall k :: 0 <= k < |r| ==> r[k] == Pair(i, lo + k)
  {
    seq(hi - lo, k requires 0 <= k < hi - lo => Pair(i, lo + k))
  }

  /** The pairs the loop visits while its outer index runs over 0 .. i - 1. */
  function PairsBefore(n: nat, i: nat): seq<Pair>
    requires i <= n
  {
    if i == 0 then [] else PairsBefore(n, i - 1) + RowSegment(i - 1, i, n)
  }

  /** Every pair the full loop visits, in visiting order. */
  function Schedule(n: nat): seq<Pair> {
    PairsBefore(n, n)
  }

  /** `p` comes strictly before `q` in the loop's visiting order. */
  predicate Before(p: Pair, q: Pair) {
    p.first < q.first || (p.first == q.first && p.second < q.second)
  }

  /** Row i - 1 holds n - i pairs, so the first i rows hold i(2n - i - 1)/2. */
  lemma {:induction false} PairsBeforeLength(n: nat, i: nat)
    requires i <= n
    ensures 2 * |PairsBefore(n, i)| == i * (2 * n - i - 1)
  {
    if i > 0 {
      PairsBeforeLength(n, i - 1);
      var w := 2 * n - i;
      assert (i - 1) * w == i * w - w;
      assert i * (w - 1) == i * w - i;
    }
  }

  /** The loop visits exactly the pairs of positions (a, b) with a < b < n
      whose first position is below i. */
  lemma {:induction false} PairsBeforeMembers(n: nat, i: nat)
    requires i <= n
    ensures forall p :: p in PairsBefore(n, i) <==> p.first < i && p.first < p.second < n
  {
    if i > 0 {
      PairsBeforeMembers(n, i - 1);
      var row := RowSegment(i - 1, i, n);
      forall p: Pair | p.first == i - 1 && i <= p.second < n ensures p in row {
        assert row[p.second - i] == p;
      }
    }
  }

  /** The visiting order is strictly increasing, so no pair is visited twice. */
  lemma {:induction false} PairsBeforeOrdered(n: nat, i: nat)
    requires i <= n
    ensures forall s, t :: 0 <= s < t < |PairsBefore(n, i)| ==>
              Before(PairsBefore(n, i)[s], PairsBefore(n, i)[t])
  {
    if i > 0 {
      PairsBeforeOrdered(n, i - 1);
      PairsBeforeMembers(n, i - 1);
      var prev := PairsBefore(n, i - 1);
      var row := RowSegment(i - 1, i, n);
      forall s, t | 0 <= s < t < |prev + row| ensures Before((prev + row)[s], (prev + row)[t]) {
        if s < |prev| && t >= |prev| {
          assert prev[s] in prev;
          assert (prev + row)[t] == row[t - |prev|];
        }
      }
    }
  }

  /** How many pairs the loop visits before its outer index reaches i:
      row i - 1 contributes the n - i pairs (i - 1, j) with i <= j < n. */
  function RowStart(n: nat, i: nat): nat
    requires i <= n
  {
    if i == 0 then 0 else RowStart(n, i - 1) + (n - i)
  }

  lemma {:induction false} RowStartIsLength(n: nat, i: nat)
    requires i <= n
    ensures |PairsBefore(n, i)| == RowStart(n, i)
  {
    if i > 0 {
      RowStartIsLength(n, i - 1);
    }
  }

  /** What the loop has visited by some outer index is a prefix of what it
      has visited by any later one. */
  lemma {:induction false} PairsBeforePrefix(n: nat, i: nat, k: nat)
    requires i <= k <= n
    ensures |PairsBefore(n, i)| <= |PairsBefore(n, k)|
    ensures forall t :: 0 <= t < |PairsBefore(n, i)| ==> PairsBefore(n, k)[t] == PairsBefore(n, i)[t]
  {
    if i < k {
      PairsBeforePrefix(n, i, k - 1);
    }
  }

  /** The pair (i, j) is visited at step RowStart(n, i) + (j - i - 1). */
  lemma ScheduleAt(n: nat, i: nat, j: nat)
    requires i < j < n
    ensures RowStart(n, i) + (j - i - 1) < |Schedule(n)|
    ensures Schedule(n)[RowStart(n, i) + (j - i - 1)] == Pair(i, j)
  {
    RowStartIsLength(n, i);
    PairsBeforePrefix(n, i + 1, n);
    var row := RowSegment(i, i + 1, n);
    assert PairsBefore(n, i + 1) == PairsBefore(n, i) + row;
    assert PairsBefore(n, i + 1)[RowStart(n, i) + (j - i - 1)] == row[j - i - 1];
  }

  /** Every visited pair joins a lower position to a higher one. */
  lemma ScheduleBounds(n: nat, t: nat)
    requires t < |Schedule(n)|
    ensures Schedule(n)[t].first < Schedule(n)[t].second < n
  {
    PairsBeforeMembers(n, n);
    assert Schedule(n)[t] in Schedule(n);
  }

  /** A pair visited before step k joins a lower position to a higher one
      and comes before the pair of step k. */
  lemma ScheduleEarlier(n: nat, t: nat, k: nat)
    requires t < k < |Schedule(n)|
    ensures Schedule(n)[t].first < Schedule(n)[t].second < n
    ensures Before(Schedule(n)[t], Schedule(n)[k])
  {
    PairsBeforeMembers(n, n);
    PairsBeforeOrdered(n, n);
    assert Schedule(n)[t] in Schedule(n);
  }

  /** The schedule of n players has n(n-1)/2 pairs: each pair a < b < n
      exactly once, in the loop's order. */
  lemma ScheduleFacts(n: nat)
    ensures 2 * |Schedule(n)| == n * (n - 1)
    ensures forall p :: p in Schedule(n) <==> p.first < p.second < n
    ensures forall s, t :: 0 <= s < t < |Schedule(n)| ==> Before(Schedule(n)[s], Schedule(n)[t])
    ensures forall s, t :: 0 <= s < t < |Schedule(n)| ==> Schedule(n)[s] != Schedule(n)[t]
  {
    PairsBeforeLength(n, n);
    PairsBeforeMembers(n, n);
    PairsBeforeOrdered(n, n);
  }
}
