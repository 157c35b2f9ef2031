/// The pause-aware duration tracker (app/.../scribely/utils/RecordingDurationTracker.kt):
/// three time fields and the published duration, in milliseconds. The clock is a parameter
/// (`now`), and the timer coroutine's loop is a method over the clock readings it makes.
module RecordingDurationTracker {

  /** The timer's formula: wall time since the start, less the time spent paused. */
  function Elapsed(now: int, startTime: int, pausedDuration: int): int {
    now - startTime - pausedDuration
  }

  /** A pause from `from` to `to` (the clock at `pause()` and at `resume()`). */
  datatype PauseSpan = PauseSpan(from: int, to: int)

  /** What the successive `resume()` calls add up to in `pausedDuration`. */
  function PausedTotal(pauses: seq<PauseSpan>): int
    decreases |pauses|
  {
    if pauses == [] then 0 else (pauses[0].to - pauses[0].from) + PausedTotal(pauses[1..])
  }

  /** An independent account of the recorded time: the lengths of the stretches between the
      start, the pauses and `now`, added up. */
  function RecordedTime(start: int, pauses: seq<PauseSpan>, now: int): int
    decreases |pauses|
  {
    if pauses == [] then now - start
    else (pauses[0].from - start) + RecordedTime(pauses[0].to, pauses[1..], now)
  }

  /** The timer's formula, with the paused time the resumes accumulated, is exactly the time
      spent recording. */
  lemma {:induction false} ElapsedIsRecordedTime(start: int, pauses: seq<PauseSpan>, now: int)
    ensures Elapsed(now, start, PausedTotal(pauses)) == RecordedTime(start, pauses, now)
    decreases |pauses|
  {
    if pauses != [] {
      ElapsedIsRecordedTime(pauses[0].to, pauses[1..], now);
    }
  }

  /** A resume adds its span's length to the paused total. */
  lemma {:induction false} PausedTotalAppend(pauses: seq<PauseSpan>, span: PauseSpan)
    ensures PausedTotal(pauses + [span]) == PausedTotal(pauses) + (span.to - span.from)
    decreases |pauses|
  {
    if pauses != [] {
      assert (pauses + [span])[1..] == pauses[1..] + [span];
      PausedTotalAppend(pauses[1..], span);
    }
  }

  /** With ordered pauses, the recorded time never exceeds the wall time and is never
      negative. */
  predicate Ordered(start: int, pauses: seq<PauseSpan>, now: int)
    decreases |pauses|
  {
    if pauses == [] then start <= now
    else start <= pauses[0].from <= pauses[0].to && Ordered(pauses[0].to, pauses[1..], now)
  }

  lemma {:induction false} RecordedTimeBounds(start: int, pauses: seq<PauseSpan>, now: int)
    requires Ordered(start, pauses, now)
    ensures 0 <= RecordedTime(start, pauses, now) <= now - start
    decreases |pauses|
  {
    if pauses != [] {
      RecordedTimeBounds(pauses[0].to, pauses[1..], now);
    }
  }

  class RecordingDurationTracker {
    var recordingStartTime: int
    var pausedDuration: int
    var lastPauseTime: int
    /** The value of the `duration` state flow. */
    var duration: int
    /** The pauses resumed since the last start, each from its `pause()` to its `resume()`. */
    ghost var pauses: seq<PauseSpan>

    /** The paused total is what the resumed pauses add up to. */
    ghost predicate Valid()
      reads this
    {
      pausedDuration == PausedTotal(pauses)
    }

    constructor()
      ensures recordingStartTime == 0 && pausedDuration == 0 && lastPauseTime == 0 && duration == 0
      ensures pauses == [] && Valid()
    {
      recordingStartTime := 0;
      pausedDuration := 0;
      lastPauseTime := 0;
      duration := 0;
      pauses := [];
    }

    /** `start`: tracking begins at `now`, from zero. */
    method Start(now: int)
      modifies this
      ensures recordingStartTime == now && pausedDuration == 0 && lastPauseTime == 0 && duration == 0
      ensures pauses == [] && Valid()
    {
      recordingStartTime := now;
      pausedDuration := 0;
      lastPauseTime := 0;
      duration := 0;
      pauses := [];
    }

    /** `pause`: only the pause time is recorded. */
    method Pause(now: int)
      modifies this
      ensures lastPauseTime == now
      ensures recordingStartTime == old(recordingStartTime) && pausedDuration == old(pausedDuration)
      ensures duration == old(duration) && pauses == old(pauses)
      ensures old(Valid()) ==> Valid()
    {
      lastPauseTime := now;
    }

    /** `resume`: the time since the last pause joins the paused total. */
    method Resume(now: int)
      modifies this
      ensures pausedDuration == old(pausedDuration) + (now - old(lastPauseTime))
      ensures recordingStartTime == old(recordingStartTime) && lastPauseTime == old(lastPauseTime)
      ensures duration == old(duration)
      ensures pauses == old(pauses) + [PauseSpan(old(lastPauseTime), now)]
      ensures old(Valid()) ==> Valid()
    {
      pausedDuration := pausedDuration + (now - lastPauseTime);
      PausedTotalAppend(pauses, PauseSpan(lastPauseTime, now));
      pauses := pauses + [PauseSpan(lastPauseTime, now)];
    }

    /** `reset`: everything back to zero. */
    method Reset()
      modifies this
      ensures recordingStartTime == 0 && pausedDuration == 0 && lastPauseTime == 0 && duration == 0
      ensures pauses == [] && Valid()
    {
      recordingStartTime := 0;
      pausedDuration := 0;
      lastPauseTime := 0;
      duration := 0;
      pauses := [];
    }

    /** One pass of the timer loop's body, at clock reading `now`: after any run of starts,
        pauses and resumes, the published duration is the time spent recording. */
    method Tick(now: int)
      modifies this
      ensures duration == Elapsed(now, recordingStartTime, pausedDuration)
      ensures old(Valid()) ==> duration == RecordedTime(recordingStartTime, pauses, now)
      ensures recordingStartTime == old(recordingStartTime) && pausedDuration == old(pausedDuration)
      ensures lastPauseTime == old(lastPauseTime) && pauses == old(pauses)
    {
      var elapsed := now - recordingStartTime - pausedDuration;
      duration := elapsed;
      ElapsedIsRecordedTime(recordingStartTime, pauses, now);
    }

    /** `startDurationTimer`: while the activity check says yes, publish the elapsed time at
        each clock reading; `clock` holds the readings of the passes the check allows, so an
        empty one is a check that says no at once. Returns the values published, in order. */
    method StartDurationTimer(clock: seq<int>) returns (published: seq<int>)
      modifies this
      ensures |published| == |clock|
      ensures forall k :: 0 <= k < |clock| ==>
                published[k] == Elapsed(clock[k], recordingStartTime, pausedDuration)
      ensures duration == if clock == [] then old(duration) else published[|clock| - 1]
      ensures recordingStartTime == old(recordingStartTime) && pausedDuration == old(pausedDuration)
      ensures lastPauseTime == old(lastPauseTime) && pauses == old(pauses)
      ensures old(Valid()) ==> forall k :: 0 <= k < |clock| ==>
                published[k] == RecordedTime(recordingStartTime, pauses, clock[k])
    {
      published := [];
      var i := 0;
      while i < |clock|
        invariant 0 <= i <= |clock| && |published| == i
        invariant forall k :: 0 <= k < i ==>
                    published[k] == Elapsed(clock[k], recordingStartTime, pausedDuration)
        invariant duration == if i == 0 then old(duration) else published[i - 1]
        invariant recordingStartTime == old(recordingStartTime) && pausedDuration == old(pausedDuration)
        invariant lastPauseTime == old(lastPauseTime) && pauses == old(pauses)
        invariant old(Valid()) ==> forall k :: 0 <= k < i ==>
                    published[k] == RecordedTime(recordingStartTime, pauses, clock[k])
      {
        var currentTime := clock[i];
        Tick(currentTime);
        published := published + [duration];
        i := i + 1;
      }
    }

    /** `getCurrentDuration`. */
    method GetCurrentDuration() returns (d: int)
      ensures d == duration
    {
      d := duration;
    }
  }
}
