/** The two timers of `raftHeart` (data_plane/raft/_raft.py): a leader beats at the first turn of its loop after the
    beat interval, and a follower gives its leader up after a silence. Times are in seconds. */
module Timers {

  const BEAT_INTERVAL := 100
  const LEADER_DEAD := 300

  /** A follower's turn finds that its leader has been silent for too long. */
  predicate Expires(lastBeat: int, now: int) {
    now - lastBeat >= LEADER_DEAD
  }

  /** When a leader beats, given the times of its turns and when the next beat is due. */
  function Sends(turns: seq<int>, next: int): seq<int> {
    if turns == [] then []
    else if turns[0] >= next then [turns[0]] + Sends(turns[1..], turns[0] + BEAT_INTERVAL)
    else Sends(turns[1..], next)
  }

  /** The turns follow each other at most `gap` apart. */
  predicate Steady(turns: seq<int>, gap: nat) {
    forall i :: 0 <= i < |turns| - 1 ==> turns[i] <= turns[i + 1] <= turns[i] + gap
  }

  lemma {:induction false} Rising(turns: seq<int>, gap: nat, j: nat)
    requires Steady(turns, gap) && j < |turns|
    ensures turns[0] <= turns[j]
  {
    if j > 0 { Rising(turns, gap, j - 1); }
  }

  /** At every turn from the first due one on, a live leader's last beat is less than a hundred seconds old. */
  lemma {:induction false} BeatRecent(turns: seq<int>, next: int, gap: nat, j: nat) returns (b: int)
    requires Steady(turns, gap) && j < |turns| && turns[j] >= next
    ensures b in Sends(turns, next) && turns[j] - 100 < b <= turns[j]
  {
    var rest := turns[1..];
    if turns[0] >= next {
      var due := turns[0] + BEAT_INTERVAL;
      Rising(turns, gap, j);
      if j > 0 && turns[j] >= due {
        assert rest[j - 1] == turns[j] && Steady(rest, gap) by { SteadyRest(turns, gap); }
        b := BeatRecent(rest, due, gap, j - 1);
      } else {
        b := turns[0];
      }
    } else {
      assert rest[j - 1] == turns[j] && Steady(rest, gap) by { SteadyRest(turns, gap); }
      b := BeatRecent(rest, next, gap, j - 1);
    }
  }

  lemma SteadyRest(turns: seq<int>, gap: nat)
    requires Steady(turns, gap) && turns != []
    ensures Steady(turns[1..], gap)
  {
    var rest := turns[1..];
    assert forall i :: 0 <= i < |rest| ==> rest[i] == turns[i + 1];
  }

  /** A follower that receives each beat of a live leader within `delay` never gives it up, as long as the delay and
      the gap between the leader's turns together stay within two hundred seconds. */
  lemma LiveLeaderKept(turns: seq<int>, next: int, gap: nat, delay: nat, j: nat, lastBeat: int, now: int)
    requires Steady(turns, gap) && j < |turns| && next <= turns[j] <= now - delay <= turns[j] + gap
    requires forall b :: b in Sends(turns, next) && b <= now - delay ==> lastBeat >= b
    requires gap + delay <= 200
    ensures !Expires(lastBeat, now)
  {
    var b := BeatRecent(turns, next, gap, j);
  }

  lemma {:induction false} QuietTurns(a: seq<int>, b: seq<int>, next: int)
    requires forall i :: 0 <= i < |a| ==> a[i] < next
    ensures Sends(a + b, next) == Sends(b, next)
  {
    if a == [] {
      assert a + b == b;
    } else {
      assert (a + b)[1..] == a[1..] + b;
      QuietTurns(a[1..], b, next);
    }
  }

  /** The allowance is exact: a second more, and a follower that gets the beats of times 0 and 99 + gap in time and at
      the last moment has given its live leader up when the second arrives. */
  lemma LateBeatExpires(gap: nat, delay: nat)
    requires gap >= 1 && gap + delay == 201
    ensures var turns := [0] + seq(99, i => i + 1) + [99 + gap];
            && Steady(turns, gap) && Sends(turns, 0) == [0, 99 + gap]
            && Expires(0, 99 + gap + delay)
  {
    var early: seq<int>, last := seq(99, i => i + 1), [99 + gap];
    var turns := [0] + early + last;
    assert turns[1..] == early + last;
    QuietTurns(early, last, 100);
    assert last[1..] == [] && Sends(last, 100) == last + [];
    assert [0] + last == [0, 99 + gap];
  }
}
