/** The motion log: a 300-slot ring buffer of per-tick samples (delta time,
    forward and right vectors, position, velocity, acceleration) with the
    windowed queries that read it newest-first. A slot whose delta time is the
    sentinel -1 has not been written yet. */
module Kinematics {
  import opened UnityMath

  const LogBufferSize: int := 300
  /** Delta time of a slot that holds no sample yet. */
  const Sentinel: real := -1.0
  /** What GetAverageDeltaTime answers before the first sample. */
  const NoDataDeltaTime: real := 0.00001

  datatype KinematicTypes = Translation | Rotation

  datatype RotationValue = RotationValue(forward: Vec3, right: Vec3)

  /** GetLogIndex throws IndexOutOfRangeException for an entry number that is
      not below the buffer size. */
  datatype IndexResult = Index(slot: int) | IndexOutOfRange(requested: int)

  /** Slot holding the k-th newest entry when the write cursor is `counter`. */
  function LogIndex(counter: int, k: int): (slot: int)
    ensures 0 <= slot < LogBufferSize
  {
    (counter - 1 - k) % LogBufferSize
  }

  /** The entry number of the sample in `slot` when the write cursor is
      `counter`. The slot map is its own inverse (`LogIndexOnto`), so this
      is LogIndex read the other way round. */
  function EntryOf(counter: int, slot: int): int {
    LogIndex(counter, slot)
  }

  /** A log buffer read newest-first from write cursor `counter`: a
      rearrangement of the buffer in which the sample of every slot appears,
      at the entry number EntryOf gives it. */
  function Recent<T>(s: seq<T>, counter: int): (r: seq<T>)
    requires |s| == LogBufferSize
    ensures |r| == LogBufferSize
    ensures forall k :: 0 <= k < LogBufferSize ==> r[k] == s[LogIndex(counter, k)]
    ensures forall slot {:trigger EntryOf(counter, slot)} :: 0 <= slot < LogBufferSize ==> r[EntryOf(counter, slot)] == s[slot]
  {
    var r := seq(LogBufferSize, k => s[LogIndex(counter, k)]);
    assert forall slot {:trigger EntryOf(counter, slot)} :: 0 <= slot < LogBufferSize ==> r[EntryOf(counter, slot)] == s[slot] by {
      forall slot | 0 <= slot < LogBufferSize
        ensures LogIndex(counter, EntryOf(counter, slot)) == slot
      {
        var k := LogIndexOnto(counter, slot);
      }
    }
    r
  }



  /** The number of newest-first entries GetNumbLogs counts when it has
      reached entry i with accumulated time acc: it stops at the end of the
      buffer, once the accumulated time exceeds d, or at a sentinel. */
  function CountFrom(r: seq<real>, d: real, i: nat, acc: real): (n: nat)
    requires i <= |r|
    ensures i <= n <= |r|
    ensures forall j :: i <= j < n ==> r[j] != Sentinel
    ensures n < |r| ==> r[n] == Sentinel || acc + PrefixSum(r, n) - PrefixSum(r, i) > d
    decreases |r| - i
  {
    if i == |r| || acc > d || r[i] == Sentinel then i
    else CountFrom(r, d, i + 1, acc + r[i])
  }

  /** Number of newest-first entries needed to cover duration d. */
  function NumbLogs(r: seq<real>, d: real): nat
    requires |r| == LogBufferSize
  {
    CountFrom(r, d, 0, 0.0)
  }

  /** Sum of the first n entries of r. */
  function PrefixSum(r: seq<real>, n: nat): real
    requires n <= |r|
  {
    if n == 0 then 0.0 else PrefixSum(r, n - 1) + r[n - 1]
  }

  /** Sum of the first n vectors of r. */
  function VecSum(r: seq<Vec3>, n: nat): Vec3
    requires n <= |r|
  {
    if n == 0 then Zero else Add(VecSum(r, n - 1), r[n - 1])
  }

  /** Sum over the first n entries of |velocity| * dt, component-wise. */
  function Traveled(vel: seq<Vec3>, dt: seq<real>, n: nat): Vec3
    requires n <= |vel| && n <= |dt|
  {
    if n == 0 then Zero else Add(Traveled(vel, dt, n - 1), Scale(dt[n - 1], AbsVec(vel[n - 1])))
  }

  /** The first entry at or after i whose accumulated time reaches t, or |r|
      when no entry does (GetForwardVectorAtTime then falls back to the oldest
      slot). */
  function FirstReaching(r: seq<real>, t: real, i: nat): (j: nat)
    requires i <= |r|
    requires forall m :: 0 <= m < i ==> PrefixSum(r, m) < t
    ensures i <= j <= |r|
    ensures j < |r| ==> PrefixSum(r, j) >= t
    ensures forall m :: 0 <= m < j ==> PrefixSum(r, m) < t
    decreases |r| - i
  {
    if i == |r| then i
    else if PrefixSum(r, i) >= t then i
    else FirstReaching(r, t, i + 1)
  }

  function Positive(v: real): real {
    if v > 0.0 then v else 0.0
  }

  /** Sum of the positive entries of s. */
  function PositiveSum(s: seq<real>): real {
    if s == [] then 0.0 else PositiveSum(s[..|s| - 1]) + Positive(s[|s| - 1])
  }

  /** The newest `filled` entries are positive delta times, every older entry
      is the sentinel. */
  ghost predicate FilledNewestFirst(r: seq<real>, filled: nat) {
    && filled <= |r|
    && (forall k :: 0 <= k < filled ==> r[k] > 0.0)
    && (forall k :: filled <= k < |r| ==> r[k] == Sentinel)
  }

  /** The bookkeeping the tracker keeps consistent: a cursor inside the
      buffer, the newest `filled` delta times positive and the rest sentinels,
      and `total` (MaxLogDuration) the sum of the positive delta times. */
  ghost predicate LogState(dts: seq<real>, counter: int, filled: nat, total: real) {
    && |dts| == LogBufferSize
    && 0 <= counter < LogBufferSize
    && FilledNewestFirst(Recent(dts, counter), filled)
    && total == PositiveSum(dts)
  }

  /** `WrapNegative`: adds the buffer size until the value is non-negative. */
  method WrapNegative(n: int) returns (r: int)
    ensures r >= 0
    ensures r % LogBufferSize == n % LogBufferSize
    ensures n >= 0 ==> r == n
    ensures n < 0 ==> r < LogBufferSize
  {
    r := n;
    while r < 0
      invariant r % LogBufferSize == n % LogBufferSize
      invariant n >= 0 ==> r == n
      invariant n < 0 ==> r < LogBufferSize
      decreases -r
    {
      r := r + LogBufferSize;
    }
  }

  class KinematicsTracker {
    var typeToTrack: KinematicTypes
    /** The next slot to be written. */
    var logCounter: int
    var deltaTimeLogs: array<real>
    var forwardLogs: array<Vec3>
    var rightLogs: array<Vec3>
    var positionLogs: array<Vec3>
    var velocityLogs: array<Vec3>
    var accelerationLogs: array<Vec3>
    /** Total time covered by the logged entries. */
    var maxLogDuration: real
    /** How many slots hold a sample (at most the buffer size). */
    ghost var filled: nat

    ghost predicate Valid()
      reads this, deltaTimeLogs
    {
      && Shaped()
      && LogState(deltaTimeLogs[..], logCounter, filled, maxLogDuration)
    }

    /** Every log has one slot per buffer entry and the vector logs are
        distinct arrays. */
    ghost predicate Shaped()
      reads this
    {
      && deltaTimeLogs.Length == LogBufferSize
      && forwardLogs.Length == LogBufferSize
      && rightLogs.Length == LogBufferSize
      && positionLogs.Length == LogBufferSize
      && velocityLogs.Length == LogBufferSize
      && accelerationLogs.Length == LogBufferSize
      && forwardLogs != rightLogs && forwardLogs != positionLogs
      && forwardLogs != velocityLogs && forwardLogs != accelerationLogs
      && rightLogs != positionLogs && rightLogs != velocityLogs
      && rightLogs != accelerationLogs && positionLogs != velocityLogs
      && positionLogs != accelerationLogs && velocityLogs != accelerationLogs
    }

    /** Delta times, newest first. */
    ghost function RecentDeltaTimes(): seq<real>
      reads this, deltaTimeLogs
      requires deltaTimeLogs.Length == LogBufferSize
    {
      Recent(deltaTimeLogs[..], logCounter)
    }

    /** `Awake`: cursor and total duration at zero, every slot empty. */
    constructor Awake(kind: KinematicTypes)
      ensures Valid()
      ensures typeToTrack == kind && logCounter == 0 && maxLogDuration == 0.0 && filled == 0
      ensures forall i :: 0 <= i < LogBufferSize ==> deltaTimeLogs[i] == Sentinel
      ensures forall i :: 0 <= i < LogBufferSize ==>
        && forwardLogs[i] == Vec3(0.0, 0.0, 1.0) && rightLogs[i] == Vec3(1.0, 0.0, 0.0)
        && positionLogs[i] == Zero && velocityLogs[i] == Zero && accelerationLogs[i] == Zero
      ensures fresh(deltaTimeLogs) && fresh(forwardLogs) && fresh(rightLogs)
      ensures fresh(positionLogs) && fresh(velocityLogs) && fresh(accelerationLogs)
    {
      typeToTrack := kind;
      logCounter := 0;
      var fw := new Vec3[LogBufferSize];
      var rt := new Vec3[LogBufferSize];
      var ps := new Vec3[LogBufferSize];
      var vl := new Vec3[LogBufferSize];
      var ac := new Vec3[LogBufferSize];
      var dts := new real[LogBufferSize];
      maxLogDuration := 0.0;
      for i := 0 to LogBufferSize
        invariant forall j :: 0 <= j < i ==> dts[j] == Sentinel
        invariant forall j :: 0 <= j < i ==>
          && fw[j] == Vec3(0.0, 0.0, 1.0) && rt[j] == Vec3(1.0, 0.0, 0.0)
          && ps[j] == Zero && vl[j] == Zero && ac[j] == Zero
      {
        fw[i] := Vec3(0.0, 0.0, 1.0);
        rt[i] := Vec3(1.0, 0.0, 0.0);
        ps[i] := Zero;
        vl[i] := Zero;
        ac[i] := Zero;
        dts[i] := Sentinel;
      }
      forwardLogs, rightLogs, positionLogs := fw, rt, ps;
      velocityLogs, accelerationLogs, deltaTimeLogs := vl, ac, dts;
      filled := 0;
      new;
      PositiveSumOfSentinels(dts[..]);
    }

    /** `GetLogIndex`: the slot of the k-th newest entry, or the out-of-range
        error for k >= 300. */
    method GetLogIndex(k: int) returns (r: IndexResult)
      requires 0 <= logCounter < LogBufferSize
      ensures k >= LogBufferSize <==> r.IndexOutOfRange?
      ensures r.IndexOutOfRange? ==> r.requested == k
      ensures r.Index? ==> r.slot == LogIndex(logCounter, k)
    {
      if k >= LogBufferSize {
        return IndexOutOfRange(k);
      }
      var w := WrapNegative(logCounter - 1 - k);
      return Index(w % LogBufferSize);
    }

    /** `ClampDuration`: the duration clamped to [0, MaxLogDuration]. */
    function ClampDuration(duration: real): (r: real)
      reads this
      ensures maxLogDuration >= 0.0 ==> 0.0 <= r <= maxLogDuration
      ensures 0.0 <= duration <= maxLogDuration ==> r == duration
    {
      Clamp(duration, 0.0, maxLogDuration)
    }

    /** The slot of the i-th newest entry as the queries compute it,
        `WrapNegative(start - i)` with start the newest slot. */
    method NewestMinus(i: int) returns (slot: int)
      requires 0 <= logCounter < LogBufferSize && 0 <= i < LogBufferSize
      ensures slot == LogIndex(logCounter, i)
    {
      var start := GetLogIndex(0);
      slot := WrapNegative(start.slot - i);
      LogIndexStep(logCounter, i);
    }

    /** `GetNumbLogs`: the number of newest-first entries covering the
        duration, stopping at the first sentinel. */
    method GetNumbLogs(duration: real) returns (n: int)
      requires deltaTimeLogs.Length == LogBufferSize && 0 <= logCounter < LogBufferSize
      ensures n == NumbLogs(RecentDeltaTimes(), duration)
      ensures 0 <= n <= LogBufferSize
      ensures forall k :: 0 <= k < n ==> deltaTimeLogs[LogIndex(logCounter, k)] != Sentinel
    {
      ghost var r := RecentDeltaTimes();
      var counter := 0.0;
      var i := 0;
      while i < LogBufferSize
        invariant 0 <= i <= LogBufferSize
        invariant CountFrom(r, duration, i, counter) == NumbLogs(r, duration)
      {
        var slot := NewestMinus(i);
        assert r[i] == deltaTimeLogs[slot];
        if counter > duration || deltaTimeLogs[slot] == Sentinel {
          break;
        }
        counter := counter + deltaTimeLogs[slot];
        i := i + 1;
      }
      n := i;
      assert forall k :: 0 <= k < n ==> r[k] != Sentinel;
    }

    /** `GetAverageDeltaTime`: a tiny constant before the first sample, the
        newest delta time when no entry is counted, else the mean of the
        counted ones. */
    method GetAverageDeltaTime(duration: real) returns (avg: real)
      requires Valid()
      ensures var r := RecentDeltaTimes();
              var n := NumbLogs(r, ClampDuration(duration));
              avg == if r[0] == Sentinel then NoDataDeltaTime
                     else if n == 0 then r[0]
                     else PrefixSum(r, n) / n as real
    {
      ghost var r := RecentDeltaTimes();
      var start := GetLogIndex(0);
      if deltaTimeLogs[start.slot] == Sentinel {
        return NoDataDeltaTime;
      }
      var d := ClampDuration(duration);
      var logs := GetNumbLogs(d);
      if logs == 0 {
        return deltaTimeLogs[start.slot];
      }
      var sum := 0.0;
      for logCount := 0 to logs
        invariant sum == PrefixSum(r, logCount)
      {
        var slot := NewestMinus(logCount);
        sum := sum + deltaTimeLogs[slot];
      }
      avg := sum / logs as real;
    }

    /** `GetForwardVectorAtTime`: the orientation of the first newest-first
        entry whose accumulated time reaches the clamped time, or of the oldest
        slot when none does. */
    method GetForwardVectorAtTime(timeAgo: real) returns (v: RotationValue)
      requires Valid()
      ensures var j := FirstReaching(RecentDeltaTimes(), ClampDuration(timeAgo), 0);
              var slot := LogIndex(logCounter, if j < LogBufferSize then j else LogBufferSize - 1);
              v == RotationValue(forwardLogs[slot], rightLogs[slot])
    {
      ghost var r := RecentDeltaTimes();
      var t := ClampDuration(timeAgo);
      var counter := 0.0;
      for i := 0 to LogBufferSize
        invariant counter == PrefixSum(r, i)
        invariant forall m :: 0 <= m < i ==> PrefixSum(r, m) < t
      {
        if counter >= t {
          var index := GetLogIndex(i);
          FirstReachingAt(r, t, i);
          return RotationValue(forwardLogs[index.slot], rightLogs[index.slot]);
        }
        var index := GetLogIndex(i);
        counter := counter + deltaTimeLogs[index.slot];
      }
      FirstReachingAt(r, t, LogBufferSize);
      var oldest := GetLogIndex(LogBufferSize - 1);
      v := RotationValue(forwardLogs[oldest.slot], rightLogs[oldest.slot]);
    }

    /** `GetAverage`: the newest entry of the buffer when no entry is counted,
        else the mean of the counted newest entries. */
    method GetAverage(duration: real, logBuffer: array<Vec3>) returns (avg: Vec3)
      requires Valid() && logBuffer.Length == LogBufferSize
      ensures var n := NumbLogs(RecentDeltaTimes(), ClampDuration(duration));
              var b := Recent(logBuffer[..], logCounter);
              avg == if n == 0 then b[0] else Div(VecSum(b, n), n as real)
    {
      ghost var b := Recent(logBuffer[..], logCounter);
      var d := ClampDuration(duration);
      var logs := GetNumbLogs(d);
      var start := GetLogIndex(0);
      if logs == 0 {
        return logBuffer[start.slot];
      }
      var sum := Zero;
      for logCount := 0 to logs
        invariant sum == VecSum(b, logCount)
      {
        var slot := NewestMinus(logCount);
        sum := Add(sum, logBuffer[slot]);
      }
      avg := Div(sum, logs as real);
    }

    method GetAverageVelocity(duration: real) returns (avg: Vec3)
      requires Valid()
      ensures var n := NumbLogs(RecentDeltaTimes(), ClampDuration(duration));
              var b := Recent(velocityLogs[..], logCounter);
              avg == if n == 0 then b[0] else Div(VecSum(b, n), n as real)
    {
      avg := GetAverage(duration, velocityLogs);
    }

    method GetAverageAcceleration(duration: real) returns (avg: Vec3)
      requires Valid()
      ensures var n := NumbLogs(RecentDeltaTimes(), ClampDuration(duration));
              var b := Recent(accelerationLogs[..], logCounter);
              avg == if n == 0 then b[0] else Div(VecSum(b, n), n as real)
    {
      avg := GetAverage(duration, accelerationLogs);
    }

    /** `GetDeltaPos`: zero when no entry is counted, else the newest position
        minus the oldest counted one. */
    method GetDeltaPos(duration: real) returns (delta: Vec3)
      requires Valid()
      ensures var n := NumbLogs(RecentDeltaTimes(), ClampDuration(duration));
              delta == if n == 0 then Zero
                       else Sub(positionLogs[LogIndex(logCounter, 0)],
                                positionLogs[LogIndex(logCounter, n - 1)])
    {
      var d := ClampDuration(duration);
      var logs := GetNumbLogs(d);
      if logs == 0 {
        return Zero;
      }
      var newest := GetLogIndex(0);
      var oldest := GetLogIndex(logs - 1);
      delta := Sub(positionLogs[newest.slot], positionLogs[oldest.slot]);
    }

    /** `GetAmountTraveled`: zero when no entry is counted, else the sum of
        |velocity| * dt over the counted entries. */
    method GetAmountTraveled(duration: real) returns (total: Vec3)
      requires Valid()
      ensures var n := NumbLogs(RecentDeltaTimes(), ClampDuration(duration));
              total == Traveled(Recent(velocityLogs[..], logCounter), RecentDeltaTimes(), n)
    {
      ghost var vel := Recent(velocityLogs[..], logCounter);
      ghost var r := RecentDeltaTimes();
      var d := ClampDuration(duration);
      var logs := GetNumbLogs(d);
      if logs == 0 {
        return Zero;
      }
      total := Zero;
      for i := 0 to logs
        invariant total == Traveled(vel, r, i)
      {
        var index := GetLogIndex(i);
        total := Add(total, Scale(deltaTimeLogs[index.slot], AbsVec(velocityLogs[index.slot])));
      }
    }

    /** Stores one sample's vectors into slot c of the five vector logs. */
    method WriteSample(c: int, forward: Vec3, right: Vec3, sample: Vec3, velocity: Vec3, acceleration: Vec3)
      requires Shaped() && 0 <= c < LogBufferSize
      modifies forwardLogs, rightLogs, positionLogs, velocityLogs, accelerationLogs
      ensures forwardLogs[..] == old(forwardLogs[..])[c := forward]
      ensures rightLogs[..] == old(rightLogs[..])[c := right]
      ensures positionLogs[..] == old(positionLogs[..])[c := sample]
      ensures velocityLogs[..] == old(velocityLogs[..])[c := velocity]
      ensures accelerationLogs[..] == old(accelerationLogs[..])[c := acceleration]
    {
      forwardLogs[c] := forward;
      rightLogs[c] := right;
      positionLogs[c] := sample;
      velocityLogs[c] := velocity;
      accelerationLogs[c] := acceleration;
    }

    /** `FixedUpdate`: writes one sample into slot LogCounter of every log,
        keeps the running total of logged time, and advances the cursor. The
        tracked vector is the position or the Euler angles. */
    method FixedUpdate(deltaTime: real, forward: Vec3, right: Vec3, position: Vec3, eulerAngles: Vec3)
      requires Valid() && deltaTime > 0.0
      modifies this, deltaTimeLogs, forwardLogs, rightLogs, positionLogs, velocityLogs, accelerationLogs
      ensures Valid()
      ensures typeToTrack == old(typeToTrack)
      ensures deltaTimeLogs == old(deltaTimeLogs) && forwardLogs == old(forwardLogs)
      ensures rightLogs == old(rightLogs) && positionLogs == old(positionLogs)
      ensures velocityLogs == old(velocityLogs) && accelerationLogs == old(accelerationLogs)
      ensures logCounter == (old(logCounter) + 1) % LogBufferSize
      ensures LogIndex(logCounter, 0) == old(logCounter)
      ensures filled == if old(filled) < LogBufferSize then old(filled) + 1 else LogBufferSize
      ensures maxLogDuration == old(maxLogDuration) - Positive(old(deltaTimeLogs[logCounter])) + deltaTime
      ensures RecentDeltaTimes() == [deltaTime] + old(RecentDeltaTimes())[..LogBufferSize - 1]
      ensures deltaTimeLogs[..] == old(deltaTimeLogs[..])[old(logCounter) := deltaTime]
      ensures forwardLogs[..] == old(forwardLogs[..])[old(logCounter) := forward]
      ensures rightLogs[..] == old(rightLogs[..])[old(logCounter) := right]
      ensures var sample := if typeToTrack == Translation then position else eulerAngles;
              var prev := LogIndex(old(logCounter), 0);
              var vel := Div(Sub(sample, old(positionLogs[prev])), deltaTime);
              && positionLogs[..] == old(positionLogs[..])[old(logCounter) := sample]
              && velocityLogs[..] == old(velocityLogs[..])[old(logCounter) := vel]
              && accelerationLogs[..] ==
                   old(accelerationLogs[..])[old(logCounter) := Div(Sub(vel, old(velocityLogs[prev])), deltaTime)]
    {
      ghost var oldDts := deltaTimeLogs[..];
      var previous := WrapNegative(logCounter - 1);
      assert previous == LogIndex(logCounter, 0);
      var c := logCounter;
      LogStateAfterWrite(oldDts, c, filled, maxLogDuration, deltaTime);

      if deltaTimeLogs[c] > 0.0 {
        maxLogDuration := maxLogDuration - deltaTimeLogs[c];
      }
      maxLogDuration := maxLogDuration + deltaTime;

      var sample := match typeToTrack
        case Translation => position
        case Rotation => eulerAngles;
      var velocity := Div(Sub(sample, positionLogs[previous]), deltaTime);
      var acceleration := Div(Sub(velocity, velocityLogs[previous]), deltaTime);

      deltaTimeLogs[c] := deltaTime;
      assert deltaTimeLogs[..] == oldDts[c := deltaTime];
      WriteSample(c, forward, right, sample, velocity, acceleration);

      logCounter := (c + 1) % LogBufferSize;
      filled := if filled < LogBufferSize then filled + 1 else LogBufferSize;
    }
  }

  // ---------------------------------------------------------------------------
  // Lemmas about the ring buffer arithmetic

  /** The i-th newest slot is `WrapNegative(newest - i)`. */
  lemma LogIndexStep(counter: int, i: int)
    requires 0 <= i < LogBufferSize
    ensures var start := LogIndex(counter, 0);
            (start - i) % LogBufferSize == LogIndex(counter, i)
            && (start - i >= 0 ==> start - i == LogIndex(counter, i))
  {
    var start := LogIndex(counter, 0);
    var q := (counter - 1) / LogBufferSize;
    assert counter - 1 == q * LogBufferSize + start;
    var m := LogIndex(counter, i);
    var q2 := (counter - 1 - i) / LogBufferSize;
    assert counter - 1 - i == q2 * LogBufferSize + m;
    assert start - i == (q2 - q) * LogBufferSize + m;
    ModOfMultipleOffset(start - i, q2 - q, m);
  }

  lemma ModOfMultipleOffset(a: int, q: int, m: int)
    requires 0 <= m < LogBufferSize && a == q * LogBufferSize + m
    ensures a % LogBufferSize == m
  {
  }

  /** For a fixed cursor, distinct entry numbers in [0, 300) use distinct
      slots. */
  lemma LogIndexInjective(counter: int, k1: int, k2: int)
    requires 0 <= k1 < LogBufferSize && 0 <= k2 < LogBufferSize
    requires LogIndex(counter, k1) == LogIndex(counter, k2)
    ensures k1 == k2
  {
    var m := LogIndex(counter, k1);
    var q1 := (counter - 1 - k1) / LogBufferSize;
    var q2 := (counter - 1 - k2) / LogBufferSize;
    assert counter - 1 - k1 == q1 * LogBufferSize + m;
    assert counter - 1 - k2 == q2 * LogBufferSize + m;
    assert k2 - k1 == (q1 - q2) * LogBufferSize;
  }

  /** Every slot holds some entry number in [0, 300), namely its own
      LogIndex: the map is its own inverse, and together with
      LogIndexInjective, entry number -> slot is a bijection. */
  lemma LogIndexOnto(counter: int, slot: int) returns (k: int)
    requires 0 <= slot < LogBufferSize
    ensures k == LogIndex(counter, slot) && LogIndex(counter, k) == slot
  {
    k := LogIndex(counter, slot);
    var q := (counter - 1 - slot) / LogBufferSize;
    assert counter - 1 - slot == q * LogBufferSize + k;
    assert counter - 1 - k == q * LogBufferSize + slot;
    ModOfMultipleOffset(counter - 1 - k, q, slot);
  }

  /** After the cursor advances by one, entry k is the former entry k - 1. */
  lemma LogIndexAfterAdvance(counter: int, k: int)
    requires 0 <= counter < LogBufferSize
    ensures LogIndex((counter + 1) % LogBufferSize, k) == LogIndex(counter, k - 1)
  {
    var next := (counter + 1) % LogBufferSize;
    var q := if counter + 1 < LogBufferSize then 0 else -1;
    assert next == counter + 1 + q * LogBufferSize;
    var m := LogIndex(counter, k - 1);
    var q2 := (counter - k) / LogBufferSize;
    assert counter - k == q2 * LogBufferSize + m;
    ModOfMultipleOffset(next - 1 - k, q + q2, m);
  }

  /** Writing slot `counter` and advancing the cursor puts the new value first
      and shifts every older entry back by one. */
  lemma RecentAfterWrite(s: seq<real>, counter: int, v: real)
    requires |s| == LogBufferSize && 0 <= counter < LogBufferSize
    ensures Recent(s[counter := v], (counter + 1) % LogBufferSize) ==
            [v] + Recent(s, counter)[..LogBufferSize - 1]
  {
    var next := (counter + 1) % LogBufferSize;
    var lhs := Recent(s[counter := v], next);
    var rhs := [v] + Recent(s, counter)[..LogBufferSize - 1];
    forall k | 0 <= k < LogBufferSize
      ensures lhs[k] == rhs[k]
    {
      LogIndexAfterAdvance(counter, k);
      if k == 0 {
        assert LogIndex(counter, -1) == counter;
      } else {
        assert LogIndex(counter, LogBufferSize - 1) == counter;
        if LogIndex(counter, k - 1) == counter {
          LogIndexInjective(counter, k - 1, LogBufferSize - 1);
        }
      }
    }
    assert lhs == rhs;
  }

  /** One FixedUpdate with a positive delta time keeps the bookkeeping
      consistent: the new delta time becomes the newest entry, one more slot
      is filled until the buffer is full, and the total drops the overwritten
      positive delta time and gains the new one. */
  lemma LogStateAfterWrite(dts: seq<real>, counter: int, filled: nat, total: real, dt: real)
    requires LogState(dts, counter, filled, total) && dt > 0.0
    ensures var next := (counter + 1) % LogBufferSize;
            && Recent(dts[counter := dt], next) == [dt] + Recent(dts, counter)[..LogBufferSize - 1]
            && LogIndex(next, 0) == counter
            && LogState(dts[counter := dt], next,
                        if filled < LogBufferSize then filled + 1 else LogBufferSize,
                        total - Positive(dts[counter]) + dt)
  {
    RecentAfterWrite(dts, counter, dt);
    FilledAfterWrite(Recent(dts, counter), filled, dt);
    PositiveSumUpdate(dts, counter, dt);
    LogIndexAfterAdvance(counter, 0);
    assert LogIndex(counter, -1) == counter;
  }

  /** The write of a positive delta time keeps the newest-first filling
      shape, with one more filled slot until the buffer is full. */
  lemma FilledAfterWrite(r: seq<real>, filled: nat, v: real)
    requires |r| == LogBufferSize && FilledNewestFirst(r, filled) && v > 0.0
    ensures FilledNewestFirst([v] + r[..LogBufferSize - 1],
                              if filled < LogBufferSize then filled + 1 else LogBufferSize)
  {
  }

  /** Replacing one entry changes the positive sum by the difference of the
      positive parts. */
  lemma {:induction false} PositiveSumUpdate(s: seq<real>, i: int, v: real)
    requires 0 <= i < |s|
    ensures PositiveSum(s[i := v]) == PositiveSum(s) - Positive(s[i]) + Positive(v)
    decreases |s|
  {
    var t := s[i := v];
    if i == |s| - 1 {
      assert t[..|t| - 1] == s[..|s| - 1];
    } else {
      assert t[..|t| - 1] == s[..|s| - 1][i := v];
      PositiveSumUpdate(s[..|s| - 1], i, v);
    }
  }

  lemma {:induction false} PositiveSumOfSentinels(s: seq<real>)
    requires forall i :: 0 <= i < |s| ==> s[i] == Sentinel
    ensures PositiveSum(s) == 0.0
    decreases |s|
  {
    if s != [] {
      PositiveSumOfSentinels(s[..|s| - 1]);
    }
  }

  lemma {:induction false} PositiveSumNonNegative(s: seq<real>)
    ensures PositiveSum(s) >= 0.0
    decreases |s|
  {
    if s != [] {
      PositiveSumNonNegative(s[..|s| - 1]);
    }
  }

  /** FirstReaching from 0 equals FirstReaching from any i that no earlier
      prefix reached. */
  lemma {:induction false} FirstReachingAt(r: seq<real>, t: real, i: nat)
    requires i <= |r|
    requires forall m :: 0 <= m < i ==> PrefixSum(r, m) < t
    requires i == |r| || PrefixSum(r, i) >= t
    ensures FirstReaching(r, t, 0) == i
  {
    FirstReachingFrom(r, t, 0, i);
  }

  lemma {:induction false} FirstReachingFrom(r: seq<real>, t: real, k: nat, i: nat)
    requires k <= i <= |r|
    requires forall m :: 0 <= m < i ==> PrefixSum(r, m) < t
    requires i == |r| || PrefixSum(r, i) >= t
    ensures FirstReaching(r, t, k) == i
    decreases i - k
  {
    if k < i {
      FirstReachingFrom(r, t, k + 1, i);
    }
  }

  // ---------------------------------------------------------------------------
  // Properties of the queries

  /** More time never covers fewer entries. */
  lemma {:induction false} CountFromMonotonic(r: seq<real>, d1: real, d2: real, i: nat, acc: real)
    requires i <= |r| && d1 <= d2
    ensures CountFrom(r, d1, i, acc) <= CountFrom(r, d2, i, acc)
    decreases |r| - i
  {
    if i < |r| && !(acc > d2) && r[i] != Sentinel {
      CountFromMonotonic(r, d1, d2, i + 1, acc + r[i]);
    }
  }

  lemma NumbLogsMonotonic(r: seq<real>, d1: real, d2: real)
    requires |r| == LogBufferSize && d1 <= d2
    ensures NumbLogs(r, d1) <= NumbLogs(r, d2)
  {
    CountFromMonotonic(r, d1, d2, 0, 0.0);
  }

  /** Never more entries are counted than are filled. */
  lemma NumbLogsAtMostFilled(r: seq<real>, filled: nat, d: real)
    requires |r| == LogBufferSize && FilledNewestFirst(r, filled)
    ensures NumbLogs(r, d) <= filled
  {
    CountFromAtMostFilled(r, d, 0, 0.0, filled);
  }

  lemma {:induction false} CountFromAtMostFilled(r: seq<real>, d: real, i: nat, acc: real, filled: nat)
    requires i <= filled && FilledNewestFirst(r, filled)
    ensures CountFrom(r, d, i, acc) <= filled
    decreases |r| - i
  {
    if i < filled && !(acc > d) {
      CountFromAtMostFilled(r, d, i + 1, acc + r[i], filled);
    }
  }

  /** A zero duration covers no entry before the first sample and exactly the
      newest entry afterwards. */
  lemma NumbLogsOfZero(r: seq<real>, filled: nat)
    requires |r| == LogBufferSize && FilledNewestFirst(r, filled)
    ensures NumbLogs(r, 0.0) == if filled == 0 then 0 else 1
  {
    if filled > 0 {
      assert CountFrom(r, 0.0, 1, r[0]) == 1;
    }
  }

  /** If the n newest entries all equal v, their mean is v. */
  lemma {:induction false} VecSumOfConstant(b: seq<Vec3>, n: nat, v: Vec3)
    requires n <= |b| && forall k :: 0 <= k < n ==> b[k] == v
    ensures VecSum(b, n) == Scale(n as real, v)
  {
    if n > 0 {
      VecSumOfConstant(b, n - 1, v);
      var m := (n - 1) as real;
      assert VecSum(b, n) == Add(Scale(m, v), v);
      assert m * v.x + v.x == (m + 1.0) * v.x;
      assert m * v.y + v.y == (m + 1.0) * v.y;
      assert m * v.z + v.z == (m + 1.0) * v.z;
    }
  }

  lemma AverageOfConstant(b: seq<Vec3>, n: nat, v: Vec3)
    requires 0 < n <= |b| && forall k :: 0 <= k < n ==> b[k] == v
    ensures Div(VecSum(b, n), n as real) == v
  {
    VecSumOfConstant(b, n, v);
  }
}
