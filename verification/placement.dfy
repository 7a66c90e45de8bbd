/** Random placement with minimum separation (`getSeparatedPosition` in
    src/App.tsx). Each candidate takes two draws of the sample stream, x
    then y, mapped to `8 + sample * 84`. */
module Placement {
  import opened GameTypes
  import opened Randomness

  /** The minimum separation is 12%; `sqrt(d) < 12` exactly when `d < 144`. */
  const MinDistanceSq: real := 144.0
  const MaxAttempts: nat := 50


  /** The candidate drawn from samples `at` and `at + 1`: 8% margin, 84%
      span on each axis. */
  function Candidate(rand: Samples, at: nat): Point {
    Point(8.0 + rand(at) * 84.0, 8.0 + rand(at + 1) * 84.0)
  }

  /** Inside the placement area: [8, 92) on each axis. */
  predicate InMargin(p: Point) {
    8.0 <= p.x < 92.0 && 8.0 <= p.y < 92.0
  }

  /** The scan of the accumulator: some position lies closer than the
      minimum distance to `p` (the loop stops at the first such position). */
  predicate TooClose(p: Point, placed: seq<Point>)
    decreases |placed|
  {
    |placed| > 0 && (Near(p, placed[0]) || TooClose(p, placed[1..]))
  }

  /** The scan finds a close position exactly when one exists. */
  lemma {:induction false} TooCloseMeans(p: Point, placed: seq<Point>)
    ensures TooClose(p, placed) <==> exists j :: 0 <= j < |placed| && Near(p, placed[j])
    decreases |placed|
  {
    if |placed| > 0 {
      TooCloseMeans(p, placed[1..]);
      if exists j :: 0 <= j < |placed| && Near(p, placed[j]) {
        var j :| 0 <= j < |placed| && Near(p, placed[j]);
        if j > 0 {
          assert placed[1..][j - 1] == placed[j];
        }
      }
    }
  }

  predicate Near(p: Point, q: Point) {
    SqDist(p, q) < MinDistanceSq
  }

  /** One call's outcome: the position, the next unused draw, and whether the
      position passed the separation check (false for the fallback). */
  datatype Draw = Draw(pos: Point, next: nat, accepted: bool)

  lemma CandidateInMargin(rand: Samples, at: nat)
    requires UnitSamples(rand)
    ensures InMargin(Candidate(rand, at))
  {
    var u, v := rand(at), rand(at + 1);
    assert 0.0 <= u * 84.0 < 84.0;
    assert 0.0 <= v * 84.0 < 84.0;
  }

  /** Attempts `attempt..49` starting at draw `cursor`, then the fallback. */
  function TryFrom(placed: seq<Point>, rand: Samples, cursor: nat, attempt: nat): (d: Draw)
    requires attempt <= MaxAttempts
    ensures cursor + 2 <= d.next <= cursor + 2 * (MaxAttempts - attempt) + 2
    ensures d.pos == Candidate(rand, d.next - 2)
    ensures d.accepted ==> !TooClose(d.pos, placed)
    ensures RunRejected(placed, rand, cursor, d.next - 2)
    ensures !d.accepted ==> d.next == cursor + 2 * (MaxAttempts - attempt) + 2
    decreases MaxAttempts - attempt
  {
    if attempt == MaxAttempts then
      Draw(Candidate(rand, cursor), cursor + 2, false)
    else
      var c := Candidate(rand, cursor);
      if !TooClose(c, placed) then Draw(c, cursor + 2, true)
      else TryFrom(placed, rand, cursor + 2, attempt + 1)
  }

  /** The candidates drawn at `cursor`, `cursor + 2`, ... before draw
      `stop` were all too close. */
  predicate RunRejected(placed: seq<Point>, rand: Samples, cursor: nat, stop: nat)
    decreases stop - cursor
  {
    cursor >= stop || (TooClose(Candidate(rand, cursor), placed) && RunRejected(placed, rand, cursor + 2, stop))
  }

  /** In a rejected run, candidate `k` in particular was too close. */
  lemma {:induction false} RunRejectedAt(placed: seq<Point>, rand: Samples, cursor: nat, stop: nat, k: nat)
    requires RunRejected(placed, rand, cursor, stop)
    requires cursor + 2 * k < stop
    ensures TooClose(Candidate(rand, cursor + 2 * k), placed)
    decreases k
  {
    if k > 0 {
      RunRejectedAt(placed, rand, cursor + 2, stop, k - 1);
      assert cursor + 2 * k == (cursor + 2) + 2 * (k - 1);
    }
  }

  /** `getSeparatedPosition()` against the accumulator `placed`, drawing from
      `cursor` on. The caller appends the result to the accumulator. */
  function SeparatedPosition(placed: seq<Point>, rand: Samples, cursor: nat): Draw {
    TryFrom(placed, rand, cursor, 0)
  }

  /** What one call promises: between 2 and 102 draws, a position inside
      the margin, separation from every accumulated position when accepted,
      the first such candidate when accepted, and the fallback only after
      all 50 candidates were rejected. */
  lemma SeparatedPositionSpec(placed: seq<Point>, rand: Samples, cursor: nat)
    requires UnitSamples(rand)
    ensures var d := SeparatedPosition(placed, rand, cursor);
            && cursor + 2 <= d.next <= cursor + 2 * MaxAttempts + 2
            && InMargin(d.pos)
            && (d.accepted ==> forall j :: 0 <= j < |placed| ==> SqDist(d.pos, placed[j]) >= MinDistanceSq)
            && RunRejected(placed, rand, cursor, d.next - 2)
            && (!d.accepted ==> d.next == cursor + 2 * MaxAttempts + 2)
  {
    var d := SeparatedPosition(placed, rand, cursor);
    CandidateInMargin(rand, d.next - 2);
    TooCloseMeans(d.pos, placed);
  }

  /** A fallback position is drawn only when every one of the 50 candidates
      was too close to an accumulated position. */
  lemma FallbackOnlyAfterAllRejected(placed: seq<Point>, rand: Samples, cursor: nat, k: nat)
    requires !SeparatedPosition(placed, rand, cursor).accepted
    requires k < MaxAttempts
    ensures TooClose(Candidate(rand, cursor + 2 * k), placed)
  {
    FallbackRun(placed, rand, cursor);
    RunRejectedAt(placed, rand, cursor, cursor + 2 * MaxAttempts, k);
  }

  /** Positions for `n` slots in order, sharing one accumulator. */
  datatype Batch = Batch(points: seq<Point>, accepted: seq<bool>, placed: seq<Point>, next: nat)

  /** Every accepted position of a batch passed the separation check
      against everything accumulated before it. */
  predicate BatchSeparated(placed: seq<Point>, points: seq<Point>, accepted: seq<bool>)
    requires |points| == |accepted|
  {
    forall i {:trigger accepted[i]} :: 0 <= i < |points| && accepted[i] ==> !TooClose(points[i], placed + points[..i])
  }

  predicate AllInMargin(points: seq<Point>) {
    forall i :: 0 <= i < |points| ==> InMargin(points[i])
  }

  /** In a separated batch, an accepted position keeps `MinDistance` from
      every position accumulated before it, one pair at a time. */
  lemma BatchSeparatedPairs(placed: seq<Point>, points: seq<Point>, accepted: seq<bool>, k: nat, j: nat)
    requires |points| == |accepted|
    requires BatchSeparated(placed, points, accepted)
    requires k < |points| && accepted[k]
    requires j < |placed| + k
    ensures SqDist((placed + points)[|placed| + k], (placed + points)[j]) >= MinDistanceSq
  {
    var all := placed + points;
    assert !TooClose(points[k], placed + points[..k]);
    assert placed + points[..k] == all[..|placed| + k];
    TooCloseMeans(points[k], all[..|placed| + k]);
    assert all[..|placed| + k][j] == all[j];
  }

  /** `n` successive calls of `getSeparatedPosition`, each appending its
      result (accepted or fallback) to the accumulator: call `n` runs after
      the first `n - 1` calls. */
  function PlaceAll(placed: seq<Point>, rand: Samples, cursor: nat, n: nat): (b: Batch)
    ensures |b.points| == n && |b.accepted| == n
    ensures b.placed == placed + b.points
    ensures cursor + 2 * n <= b.next
    ensures BatchSeparated(placed, b.points, b.accepted)
    ensures UnitSamples(rand) ==> AllInMargin(b.points)
    decreases n
  {
    if n == 0 then Batch([], [], placed, cursor)
    else
      var b := PlaceAll(placed, rand, cursor, n - 1);
      var d := SeparatedPosition(b.placed, rand, b.next);
      SeparatedPositionSound(b.placed, rand, b.next);
      Extend(placed, b, d, UnitSamples(rand));
      Append(b, d)
  }

  /** The batch after one more call with outcome `d`. */
  function Append(b: Batch, d: Draw): Batch {
    Batch(b.points + [d.pos], b.accepted + [d.accepted], b.placed + [d.pos], d.next)
  }

  /** What a call's outcome contributes to the batch invariants. */
  lemma SeparatedPositionSound(placed: seq<Point>, rand: Samples, cursor: nat)
    ensures var d := SeparatedPosition(placed, rand, cursor);
            && cursor + 2 <= d.next
            && (d.accepted ==> !TooClose(d.pos, placed))
            && (UnitSamples(rand) ==> InMargin(d.pos))
  {
    var d := SeparatedPosition(placed, rand, cursor);
    if UnitSamples(rand) {
      CandidateInMargin(rand, d.next - 2);
    }
  }

  /** Appending an outcome that passed its own check keeps the invariants. */
  lemma Extend(placed: seq<Point>, b: Batch, d: Draw, unit: bool)
    requires |b.points| == |b.accepted| && b.placed == placed + b.points
    requires BatchSeparated(placed, b.points, b.accepted)
    requires b.next + 2 <= d.next
    requires d.accepted ==> !TooClose(d.pos, b.placed)
    requires unit ==> AllInMargin(b.points) && InMargin(d.pos)
    ensures var e := Append(b, d);
            && |e.points| == |b.points| + 1 && |e.accepted| == |b.accepted| + 1
            && e.placed == placed + e.points
            && b.next + 2 <= e.next
            && BatchSeparated(placed, e.points, e.accepted)
            && (unit ==> AllInMargin(e.points))
  {
    var pts := b.points + [d.pos];
    assert pts[..|b.points|] == b.points;
    forall i | 0 <= i < |b.points|
      ensures pts[..i] == b.points[..i]
    {
    }
  }

  /** Later calls never revise earlier entries: the first `m` entries of a
      batch of `n` calls are the batch of `m` calls. */
  lemma {:induction false} PlaceAllPrefix(placed: seq<Point>, rand: Samples, cursor: nat, n: nat, m: nat)
    requires m <= n
    ensures var b, a := PlaceAll(placed, rand, cursor, n), PlaceAll(placed, rand, cursor, m);
            b.points[..m] == a.points && b.accepted[..m] == a.accepted
    decreases n
  {
    var b := PlaceAll(placed, rand, cursor, n);
    if m == n {
      assert b.points[..m] == b.points;
      assert b.accepted[..m] == b.accepted;
    } else {
      PlaceAllPrefix(placed, rand, cursor, n - 1, m);
      var p := PlaceAll(placed, rand, cursor, n - 1);
      PlaceAllStep(placed, rand, cursor, n);
      AppendKeepsPrefix(p, SeparatedPosition(p.placed, rand, p.next), PlaceAll(placed, rand, cursor, m), m);
    }
  }

  /** One more call appends its outcome to the batch. */
  lemma PlaceAllStep(placed: seq<Point>, rand: Samples, cursor: nat, n: nat)
    requires n > 0
    ensures var p := PlaceAll(placed, rand, cursor, n - 1);
            PlaceAll(placed, rand, cursor, n) == Append(p, SeparatedPosition(p.placed, rand, p.next))
  {
  }

  /** Appending an outcome leaves the earlier entries alone. */
  lemma AppendKeepsPrefix(b: Batch, d: Draw, a: Batch, m: nat)
    requires m <= |b.points| && m <= |b.accepted|
    requires b.points[..m] == a.points && b.accepted[..m] == a.accepted
    ensures Append(b, d).points[..m] == a.points
    ensures Append(b, d).accepted[..m] == a.accepted
  {
    assert (b.points + [d.pos])[..m] == b.points[..m];
    assert (b.accepted + [d.accepted])[..m] == b.accepted[..m];
  }

  /** Entry `i` of a batch is the outcome of the `i`-th call: one
      `getSeparatedPosition` against the accumulator holding the entries
      before it, drawing where the first `i` calls stopped. */
  lemma PlaceAllCalls(placed: seq<Point>, rand: Samples, cursor: nat, n: nat, i: nat)
    requires i < n
    ensures var b, a := PlaceAll(placed, rand, cursor, n), PlaceAll(placed, rand, cursor, i);
            var d := SeparatedPosition(placed + b.points[..i], rand, a.next);
            b.points[i] == d.pos && b.accepted[i] == d.accepted
  {
    var b, a := PlaceAll(placed, rand, cursor, n), PlaceAll(placed, rand, cursor, i);
    var c := PlaceAll(placed, rand, cursor, i + 1);
    PlaceAllPrefix(placed, rand, cursor, n, i + 1);
    PlaceAllPrefix(placed, rand, cursor, n, i);
    PlaceAllStep(placed, rand, cursor, i + 1);
    assert b.points[i] == b.points[..i + 1][i] == c.points[i];
    assert b.accepted[i] == b.accepted[..i + 1][i] == c.accepted[i];
  }

  /** A batch entry is a fallback only when all 50 candidates of its call,
      drawn from `c` on, were too close to the accumulator at that point. */
  lemma PlaceAllFallbacks(placed: seq<Point>, rand: Samples, cursor: nat, n: nat, i: nat) returns (c: nat)
    requires i < n && !PlaceAll(placed, rand, cursor, n).accepted[i]
    ensures c == PlaceAll(placed, rand, cursor, i).next
    ensures RunRejected(placed + PlaceAll(placed, rand, cursor, n).points[..i], rand, c, c + 2 * MaxAttempts)
  {
    c := PlaceAll(placed, rand, cursor, i).next;
    PlaceAllCalls(placed, rand, cursor, n, i);
    FallbackRun(placed + PlaceAll(placed, rand, cursor, n).points[..i], rand, c);
  }

  /** A fallback call rejected the candidates of all 50 attempts. */
  lemma FallbackRun(placed: seq<Point>, rand: Samples, cursor: nat)
    requires !SeparatedPosition(placed, rand, cursor).accepted
    ensures RunRejected(placed, rand, cursor, cursor + 2 * MaxAttempts)
  {
    var d := SeparatedPosition(placed, rand, cursor);
    assert d.next - 2 == cursor + 2 * MaxAttempts;
  }
}
