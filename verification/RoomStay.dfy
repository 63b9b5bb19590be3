/** How long a socket stays in a room: the join time and the time of the last evaluation are
    kept per room, and every evaluation publishes the minutes since the previous one. */
module RoomStay {

  import opened Prelude

  const HEARTBEAT_MS := 30000
  const MINUTE_MS := 60000

  /** One room's entries in the socket's data. */
  datatype Stay = Stay(joinedAt: Option<int>, lastEvaluatedAt: Option<int>)

  datatype Duration = Duration(minutes: int, seconds: int, totalMs: int)

  function Max(a: int, b: int): int {
    if a < b then b else a
  }

  /** `Math.round` of `ms / unit`, for even units. */
  function Rounded(ms: int, unit: nat): int
    requires unit > 0
  {
    (ms + unit / 2) / unit
  }

  /** A stored time of 0 counts as absent. */
  predicate Running(stay: Stay) {
    stay.joinedAt.Some? && stay.joinedAt.value != 0
  }

  function LastEvaluated(stay: Stay): int
    requires Running(stay)
  {
    if stay.lastEvaluatedAt.Some? then stay.lastEvaluatedAt.value else stay.joinedAt.value
  }

  function JoinStep(now: int): Stay {
    Stay(Some(now), Some(now))
  }

  function HeartbeatMinutes(elapsed: int): int {
    Max(1, if elapsed / MINUTE_MS == 0 then 1 else elapsed / MINUTE_MS)
  }

  function HeartbeatStep(stay: Stay, now: int): (Stay, Option<Duration>) {
    if !Running(stay) then (JoinStep(now), None)
    else
      var elapsed := now - LastEvaluated(stay);
      if elapsed < HEARTBEAT_MS then (stay, None)
      else
        (stay.(lastEvaluatedAt := Some(now)),
         Some(Duration(HeartbeatMinutes(elapsed), Rounded(elapsed, 1000), now - stay.joinedAt.value)))
  }

  function LeaveMinutes(remaining: int): int {
    var rounded := Rounded(remaining, MINUTE_MS);
    Max(1, if rounded != 0 then rounded else if remaining >= 15000 then 1 else 0)
  }

  function LeaveStep(stay: Stay, now: int): (Stay, Option<Duration>) {
    if !Running(stay) then (stay, None)
    else
      var remaining := Max(0, now - LastEvaluated(stay));
      var total := Max(0, now - stay.joinedAt.value);
      (Stay(None, None), Some(Duration(LeaveMinutes(remaining), Rounded(remaining, 1000), total)))
  }

  /** The stay bookkeeping of one socket. Only rooms with a database row publish. */
  class SocketData {
    var roomJoinedAt: map<string, int>
    var roomLastEvaluatedAt: map<string, int>

    constructor ()
      ensures roomJoinedAt == map[] && roomLastEvaluatedAt == map[]
    {
      roomJoinedAt, roomLastEvaluatedAt := map[], map[];
    }

    function View(room: string): Stay
      reads this
    {
      Stay(if room in roomJoinedAt then Some(roomJoinedAt[room]) else None,
           if room in roomLastEvaluatedAt then Some(roomLastEvaluatedAt[room]) else None)
    }

    method TrackJoin(room: string, now: int)
      modifies this
      ensures View(room) == JoinStep(now)
      ensures forall r :: r != room ==> View(r) == old(View(r))
    {
      roomJoinedAt := roomJoinedAt[room := now];
      roomLastEvaluatedAt := roomLastEvaluatedAt[room := now];
    }

    method HeartbeatRoomStay(room: string, persisted: bool, now: int) returns (published: Option<Duration>)
      modifies this
      ensures View(room) == HeartbeatStep(old(View(room)), now).0
      ensures published == if persisted then HeartbeatStep(old(View(room)), now).1 else None
      ensures forall r :: r != room ==> View(r) == old(View(r))
    {
      if room !in roomJoinedAt || roomJoinedAt[room] == 0 {
        TrackJoin(room, now);
        return None;
      }
      var joinedAt := roomJoinedAt[room];
      var lastEvaluated := if room in roomLastEvaluatedAt then roomLastEvaluatedAt[room] else joinedAt;
      var elapsedSinceLast := now - lastEvaluated;
      published := None;
      if elapsedSinceLast >= HEARTBEAT_MS {
        roomLastEvaluatedAt := roomLastEvaluatedAt[room := now];
        var floored := elapsedSinceLast / MINUTE_MS;
        var durationMinutes := Max(1, if floored == 0 then 1 else floored);
        if persisted {
          published := Some(Duration(durationMinutes, Rounded(elapsedSinceLast, 1000), now - joinedAt));
        }
      }
    }

    method TrackLeave(room: string, persisted: bool, now: int) returns (published: Option<Duration>)
      modifies this
      ensures View(room) == LeaveStep(old(View(room)), now).0
      ensures published == if persisted then LeaveStep(old(View(room)), now).1 else None
      ensures forall r :: r != room ==> View(r) == old(View(r))
    {
      published := None;
      if room in roomJoinedAt && roomJoinedAt[room] != 0 {
        var joinedAt := roomJoinedAt[room];
        var lastEvaluated := if room in roomLastEvaluatedAt then roomLastEvaluatedAt[room] else joinedAt;
        roomJoinedAt := roomJoinedAt - {room};
        roomLastEvaluatedAt := roomLastEvaluatedAt - {room};
        var totalDurationMs := Max(0, now - joinedAt);
        var remainingSinceLast := Max(0, now - lastEvaluated);
        var rounded := Rounded(remainingSinceLast, MINUTE_MS);
        var durationMinutes := Max(1, if rounded != 0 then rounded else if remainingSinceLast >= 15000 then 1 else 0);
        var durationSeconds := Rounded(remainingSinceLast, 1000);
        if persisted && (durationMinutes > 0 || durationSeconds >= 15) {
          published := Some(Duration(Max(1, durationMinutes), durationSeconds, totalDurationMs));
        }
      }
    }
  }

  // ---------- Whole stays ----------

  /** An evaluation: the stretch of time it covers and what it published. */
  datatype Evaluation = Evaluation(from: int, to: int, duration: Duration)

  /** The stay and its evaluations after a join at `start` and heartbeats at `beats`. */
  function AfterBeats(start: int, beats: seq<int>): (Stay, seq<Evaluation>) {
    if beats == [] then (JoinStep(start), [])
    else
      var now := beats[|beats| - 1];
      var (stay, past) := AfterBeats(start, beats[..|beats| - 1]);
      var (next, published) := HeartbeatStep(stay, now);
      (next,
       if published.Some? && Running(stay) then past + [Evaluation(LastEvaluated(stay), now, published.value)]
       else past)
  }

  /** All evaluations of a stay that ends with a leave at `end`. */
  function WholeStay(start: int, beats: seq<int>, end: int): seq<Evaluation> {
    var (stay, past) := AfterBeats(start, beats);
    var published := LeaveStep(stay, end).1;
    if published.Some? && Running(stay) then past + [Evaluation(LastEvaluated(stay), end, published.value)] else past
  }

  predicate InOrder(start: int, beats: seq<int>, end: int) {
    0 < start <= end
    && (forall i :: 0 <= i < |beats| ==> start <= beats[i] <= end)
    && (forall i, j :: 0 <= i < j < |beats| ==> beats[i] <= beats[j])
  }

  /** The evaluations cover `from` to `to` without gap or overlap. */
  predicate Tiles(evaluations: seq<Evaluation>, from: int, to: int) {
    if evaluations == [] then from == to
    else
      var last := evaluations[|evaluations| - 1];
      last.to == to && last.from <= to && Tiles(evaluations[..|evaluations| - 1], from, last.from)
  }

  function Minutes(evaluations: seq<Evaluation>): int {
    if evaluations == [] then 0
    else Minutes(evaluations[..|evaluations| - 1]) + evaluations[|evaluations| - 1].duration.minutes
  }

  lemma HeartbeatBounds(elapsed: int)
    requires elapsed >= HEARTBEAT_MS
    ensures HeartbeatMinutes(elapsed) * HEARTBEAT_MS <= elapsed < HeartbeatMinutes(elapsed) * (2 * MINUTE_MS)
  {
  }

  lemma LeaveBounds(remaining: nat)
    ensures remaining < LeaveMinutes(remaining) * (2 * MINUTE_MS)
    ensures (LeaveMinutes(remaining) - 1) * HEARTBEAT_MS <= remaining
  {
  }

  /** A heartbeat in full: the first one starts the stay; a later one publishes exactly when 30
      seconds have passed since the last evaluation, the whole minutes since it but at least one. */
  lemma HeartbeatExact(stay: Stay, now: int)
    ensures var (next, published) := HeartbeatStep(stay, now);
      && (stay.joinedAt.None? || stay.joinedAt == Some(0) ==> next == Stay(Some(now), Some(now)) && published == None)
      && (stay.joinedAt.Some? && stay.joinedAt.value != 0 ==>
            var last := if stay.lastEvaluatedAt.Some? then stay.lastEvaluatedAt.value else stay.joinedAt.value;
            && (now - last < 30000 ==> next == stay && published == None)
            && (now - last >= 30000 ==>
                  && next == Stay(stay.joinedAt, Some(now)) && published.Some?
                  && published.value.totalMs == now - stay.joinedAt.value
                  && published.value.minutes >= 1
                  && (now - last >= 60000 ==> 0 <= now - last - 60000 * published.value.minutes < 60000)
                  && (now - last < 60000 ==> published.value.minutes == 1)
                  && -500 <= now - last - 1000 * published.value.seconds < 500))
  {
  }

  /** A leave in full: a stay that runs ends, and publishes the nearest number of minutes since the
      last evaluation, halves upwards, but at least one; time that runs backwards counts as none. */
  lemma LeaveExact(stay: Stay, now: int)
    ensures var (next, published) := LeaveStep(stay, now);
      && (stay.joinedAt.None? || stay.joinedAt == Some(0) ==> next == stay && published == None)
      && (stay.joinedAt.Some? && stay.joinedAt.value != 0 ==>
            var last := if stay.lastEvaluatedAt.Some? then stay.lastEvaluatedAt.value else stay.joinedAt.value;
            var remaining := if now < last then 0 else now - last;
            && next == Stay(None, None) && published.Some?
            && published.value.totalMs == (if now < stay.joinedAt.value then 0 else now - stay.joinedAt.value)
            && (remaining >= 30000 ==> -30000 <= remaining - 60000 * published.value.minutes < 30000)
            && (remaining < 30000 ==> published.value.minutes == 1)
            && -500 <= remaining - 1000 * published.value.seconds < 500)
  {
  }

  lemma {:induction false} BeatsTile(start: int, beats: seq<int>, end: int)
    requires InOrder(start, beats, end)
    ensures var (stay, past) := AfterBeats(start, beats);
      && stay.joinedAt == Some(start) && stay.lastEvaluatedAt.Some?
      && start <= LastEvaluated(stay) <= (if beats == [] then start else beats[|beats| - 1])
      && Tiles(past, start, LastEvaluated(stay))
      && Minutes(past) * HEARTBEAT_MS <= LastEvaluated(stay) - start
      && LastEvaluated(stay) - start <= Minutes(past) * (2 * MINUTE_MS)
    decreases |beats|
  {
    if beats == [] {
    } else {
      var rest, now := beats[..|beats| - 1], beats[|beats| - 1];
      BeatsTile(start, rest, end);
      var (stay, past) := AfterBeats(start, rest);
      var (_, more) := AfterBeats(start, beats);
      var elapsed := now - LastEvaluated(stay);
      if elapsed >= HEARTBEAT_MS {
        hide HeartbeatMinutes;
        assert more[..|more| - 1] == past;
        HeartbeatBounds(elapsed);
      }
    }
  }

  /** Whatever the heartbeats of a stay of `end - start` milliseconds, its evaluations tile it
      exactly, the last one reports the whole length, and the published minutes sum to more than
      half of it and to at most one more than twice it. */
  lemma StayAccounted(start: int, beats: seq<int>, end: int)
    requires InOrder(start, beats, end)
    ensures var evaluations := WholeStay(start, beats, end);
      && evaluations != [] && Tiles(evaluations, start, end)
      && evaluations[|evaluations| - 1].duration.totalMs == end - start
      && end - start < Minutes(evaluations) * (2 * MINUTE_MS)
      && (Minutes(evaluations) - 1) * HEARTBEAT_MS <= end - start
  {
    BeatsTile(start, beats, end);
    var (stay, past) := AfterBeats(start, beats);
    var evaluations := WholeStay(start, beats, end);
    assert evaluations[..|evaluations| - 1] == past;
    var remaining := end - LastEvaluated(stay);
    LeaveBounds(remaining);
  }

  // ---------- A second join ----------

  predicate Covered(evaluations: seq<Evaluation>, t: int) {
    exists e :: e in evaluations && e.from <= t < e.to
  }

  lemma {:induction false} TilesCover(evaluations: seq<Evaluation>, from: int, to: int, t: int)
    requires Tiles(evaluations, from, to)
    ensures from <= to && (Covered(evaluations, t) <==> from <= t < to)
    decreases |evaluations|
  {
    if evaluations == [] {
    } else {
      var rest, last := evaluations[..|evaluations| - 1], evaluations[|evaluations| - 1];
      TilesCover(rest, from, last.from, t);
      assert evaluations == rest + [last];
      if e :| e in rest && e.from <= t < e.to {
        assert e in evaluations;
      }
      if last.from <= t < last.to {
        assert last in evaluations;
      }
    }
  }

  lemma {:induction false} TilesAppend(a: seq<Evaluation>, b: seq<Evaluation>, from: int, to: int)
    ensures (exists m :: Tiles(a, from, m) && Tiles(b, m, to)) ==> Tiles(a + b, from, to)
    ensures b != [] && Tiles(a + b, from, to) ==> Tiles(a, from, b[0].from)
    decreases |b|
  {
    if b == [] {
      assert a + b == a;
    } else {
      var rest, last := b[..|b| - 1], b[|b| - 1];
      TilesAppend(a, rest, from, last.from);
      assert (a + b)[..|a + b| - 1] == a + rest && (a + b)[|a + b| - 1] == last;
      if rest == [] {
        assert a + rest == a;
      }
    }
  }

  lemma {:induction false} TilesStart(evaluations: seq<Evaluation>, from: int, to: int)
    requires Tiles(evaluations, from, to) && evaluations != []
    ensures evaluations[0].from == from
    decreases |evaluations|
  {
    var rest := evaluations[..|evaluations| - 1];
    if rest == [] {
    } else {
      TilesStart(rest, from, evaluations[|evaluations| - 1].from);
    }
  }

  lemma TilesEnd(evaluations: seq<Evaluation>, from: int, to: int, to': int)
    requires Tiles(evaluations, from, to) && Tiles(evaluations, from, to')
    ensures to == to'
  {
  }

  /** All evaluations of a stay with a second join of the same socket at `again`. */
  function RejoinedStay(start: int, before: seq<int>, again: int, after: seq<int>, end: int): seq<Evaluation> {
    AfterBeats(start, before).1 + WholeStay(again, after, end)
  }

  /** A second join forgets exactly the time since the last evaluation before it: every other
      moment of the stay is covered, and so the evaluations tile the stay if and only if the
      second join comes at the very moment of an evaluation. */
  lemma RejoinForgets(start: int, before: seq<int>, again: int, after: seq<int>, end: int, t: int)
    requires InOrder(start, before, again) && InOrder(again, after, end)
    ensures var evaluated := LastEvaluated(AfterBeats(start, before).0);
      var evaluations := RejoinedStay(start, before, again, after, end);
      && start <= evaluated <= again
      && (start <= t < end ==> (Covered(evaluations, t) <==> !(evaluated <= t < again)))
      && (Tiles(evaluations, start, end) <==> evaluated == again)
  {
    BeatsTile(start, before, again);
    StayAccounted(again, after, end);
    var (stay, past) := AfterBeats(start, before);
    var rest, evaluated := WholeStay(again, after, end), LastEvaluated(stay);
    TilesCover(past, start, evaluated, t);
    TilesCover(rest, again, end, t);
    assert Covered(past + rest, t) <==> Covered(past, t) || Covered(rest, t) by {
      assert forall e :: e in past + rest <==> e in past || e in rest;
    }
    TilesAppend(past, rest, start, end);
    TilesStart(rest, again, end);
    if Tiles(past + rest, start, end) {
      TilesEnd(past, start, evaluated, again);
    }
  }
}
