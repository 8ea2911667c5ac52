/**
 The sensor callbacks and sync_packages: three queues, a latch, and a running mean of scan times.

 Stamps are exact reals. Two ghost counters say how many queued scans and IMU messages a backward
 jump has thrown away. What the callbacks remember is also a value, `State`, which every event
 advances; whether a run loses anything is read off these values.
 */
module SensorSync {
  import opened Verdicts

  datatype Imu = Imu(stamp: real, reading: int)

  /** A preprocessed scan: how many points, and the last point's offset in seconds. */
  datatype Scan = Scan(id: int, size: nat, duration: real)

  datatype Stamped = Stamped(scan: Scan, time: real)

  /** MeasureGroup. */
  datatype Group = Group(lidar: Scan, beg: real, end: real, imu: seq<Imu>)

  function Abs(a: real): real { if a < 0.0 then -a else a }

  predicate Sorted(s: seq<Imu>) {
    forall i, j :: 0 <= i <= j < |s| ==> s[i].stamp <= s[j].stamp
  }

  // ---------- What the loop of sync_packages takes ----------

  /** The messages the loop takes when the last stamp it has read is `read`. */
  function Taken(s: seq<Imu>, read: real, end: real): seq<Imu> {
    if s == [] || read >= end || s[0].stamp > end then [] else [s[0]] + Taken(s[1..], s[0].stamp, end)
  }

  /** The messages it leaves. */
  function Left(s: seq<Imu>, read: real, end: real): seq<Imu> {
    if s == [] || read >= end || s[0].stamp > end then s else Left(s[1..], s[0].stamp, end)
  }

  predicate NoneLater(s: seq<Imu>, end: real) {
    forall i :: 0 <= i < |s| ==> s[i].stamp <= end
  }

  predicate NoneEarlier(s: seq<Imu>, end: real) {
    forall i :: 0 <= i < |s| ==> end <= s[i].stamp
  }

  /** One round of the loop. */
  lemma TakeOne(before: seq<Imu>, s: seq<Imu>, read: real, end: real)
    requires s != [] && read < end
    ensures s[0].stamp <= end ==>
      && before + Taken(s, read, end) == (before + [s[0]]) + Taken(s[1..], s[0].stamp, end)
      && Left(s, read, end) == Left(s[1..], s[0].stamp, end)
    ensures s[0].stamp > end ==> Taken(s, read, end) == [] && Left(s, read, end) == s
  {
  }

  /** `taken` and `left` are `s` cut at `end`. */
  ghost function CutAt(s: seq<Imu>, taken: seq<Imu>, left: seq<Imu>, end: real): Verdict {
    if taken + left == s && NoneLater(taken, end) && NoneEarlier(left, end) then Sound else Broken
  }

  /** Taken stamps <= end <= remaining stamps, and everything strictly before the end is taken. */
  lemma {:induction false} TakenSplits(s: seq<Imu>, read: real, end: real)
    requires Sorted(s) && (s != [] ==> read <= s[0].stamp)
    ensures CutAt(s, Taken(s, read, end), Left(s, read, end), end).Sound?
  {
    if s != [] && read < end && s[0].stamp <= end {
      TakenSplits(s[1..], s[0].stamp, end);
    }
  }

  /**
   Exactly what is taken: nothing if the last stamp read has reached the end; otherwise everything
   before the end and the first message at the end, if there is one.
   */
  lemma {:induction false} TakenExactly(s: seq<Imu>, read: real, end: real)
    requires Sorted(s) && (s != [] ==> read <= s[0].stamp)
    ensures var t := Taken(s, read, end);
      && t <= s && (read >= end ==> t == [])
      && (forall i :: 0 <= i < |t| - 1 ==> t[i].stamp < end)
      && (t != [] ==> t[|t| - 1].stamp <= end)
      && (read < end && t != s ==> s[|t|].stamp > end || (t != [] && t[|t| - 1].stamp == end))
  {
    if s != [] && read < end && s[0].stamp <= end {
      TakenExactly(s[1..], s[0].stamp, end);
      var t, rest := Taken(s, read, end), Taken(s[1..], s[0].stamp, end);
      assert t == [s[0]] + rest;
      assert forall i :: 1 <= i < |t| ==> t[i] == rest[i - 1];
    }
  }

  /** What a call takes from a queue, told by the stamps alone. */
  ghost function TakenAsDue(s: seq<Imu>, t: seq<Imu>, end: real): Verdict
    requires s != []
  {
    if t <= s && (s[0].stamp >= end ==> t == [])
      && (forall i :: 0 <= i < |t| - 1 ==> t[i].stamp < end)
      && (t != [] ==> t[|t| - 1].stamp <= end)
      && (s[0].stamp < end && t != s ==> s[|t|].stamp > end || (t != [] && t[|t| - 1].stamp == end))
    then Sound else Broken
  }

  lemma CallTakesAsDue(s: seq<Imu>, end: real)
    requires Sorted(s) && s != []
    ensures TakenAsDue(s, Taken(s, s[0].stamp, end), end).Sound?
  {
    TakenExactly(s, s[0].stamp, end);
  }

  // ---------- Histories ----------

  /** All IMU messages of a sequence of groups, in order. */
  function ImuOf(groups: seq<Group>): seq<Imu> {
    if groups == [] then [] else ImuOf(groups[..|groups| - 1]) + groups[|groups| - 1].imu
  }

  lemma LastOfImu(groups: seq<Group>, g: Group)
    ensures ImuOf(groups + [g]) == ImuOf(groups) + g.imu
  {
    assert (groups + [g])[..|groups|] == groups;
  }

  function Sum(s: seq<real>): real {
    if s == [] then 0.0 else Sum(s[..|s| - 1]) + s[|s| - 1]
  }

  /** The scans received are the delivered ones followed by the queued ones, each with its own stamp. */
  ghost predicate ScansInOrder(delivered: seq<Group>, scans: seq<Scan>, times: seq<real>, received: seq<Stamped>) {
    && |scans| == |times| && |received| == |delivered| + |scans|
    && (forall i :: 0 <= i < |delivered| ==> received[i] == Stamped(delivered[i].lidar, delivered[i].beg))
    && (forall i :: 0 <= i < |scans| ==> received[|delivered| + i] == Stamped(scans[i], times[i]))
  }

  /** Every scan is delivered once, in order, with its own stamp, unless a jump has lost some. */
  ghost function Scans(delivered: seq<Group>, scans: seq<Scan>, times: seq<real>, received: seq<Stamped>,
                       lost: nat, pushed: bool, meas: Group): Verdict
  {
    if |times| == |scans| + lost && |delivered| + |scans| + lost == |received|
      && (lost == 0 ==>
        && ScansInOrder(delivered, scans, times, received)
        && (pushed ==> scans != [] && meas.lidar == scans[0] && meas.beg == times[0]))
    then Sound else Broken
  }

  lemma ScanArrives(delivered: seq<Group>, scans: seq<Scan>, times: seq<real>, received: seq<Stamped>,
                    lost: nat, pushed: bool, meas: Group, scan: Scan, time: real)
    requires Scans(delivered, scans, times, received, lost, pushed, meas).Sound?
    ensures Scans(delivered, scans + [scan], times + [time], received + [Stamped(scan, time)],
                  lost, pushed, meas).Sound?
  {
  }

  lemma ScansCleared(delivered: seq<Group>, scans: seq<Scan>, times: seq<real>, received: seq<Stamped>,
                     lost: nat, pushed: bool, meas: Group)
    requires Scans(delivered, scans, times, received, lost, pushed, meas).Sound?
    ensures Scans(delivered, [], times, received, lost + |scans|, pushed, meas).Sound?
  {
  }

  lemma ScanLeaves(delivered: seq<Group>, scans: seq<Scan>, times: seq<real>, received: seq<Stamped>,
                   lost: nat, meas: Group, group: Group)
    requires scans != [] && Scans(delivered, scans, times, received, lost, true, meas).Sound?
    requires group.lidar == meas.lidar && group.beg == meas.beg
    ensures times != []
    ensures Scans(delivered + [group], scans[1..], times[1..], received, lost, false, group).Sound?
  {
    if lost == 0 {
      forall i | 0 <= i < |scans[1..]|
        ensures received[|delivered + [group]| + i] == Stamped(scans[1..][i], times[1..][i])
      {
        assert scans[1..][i] == scans[i + 1] && times[1..][i] == times[i + 1];
      }
    }
  }

  /** The messages received are the sent ones followed by the queued ones. */
  ghost predicate MessagesInOrder(sent: seq<Imu>, queue: seq<Imu>, received: seq<Imu>) {
    && |received| == |sent| + |queue|
    && (forall i :: 0 <= i < |sent| ==> received[i] == sent[i])
    && (forall i :: 0 <= i < |queue| ==> received[|sent| + i] == queue[i])
  }

  /** The queue is sorted, and every message is delivered once, in order, unless a jump has lost some. */
  ghost function Messages(sent: seq<Imu>, queue: seq<Imu>, last: real, received: seq<Imu>, lost: nat): Verdict {
    if Sorted(queue) && (queue != [] ==> queue[|queue| - 1].stamp == last)
      && |sent| + |queue| + lost == |received|
      && (lost == 0 ==> MessagesInOrder(sent, queue, received))
    then Sound else Broken
  }

  lemma MessageArrives(sent: seq<Imu>, queue: seq<Imu>, last: real, received: seq<Imu>, lost: nat, m: Imu)
    requires Messages(sent, queue, last, received, lost).Sound? && (queue == [] || last <= m.stamp)
    ensures Messages(sent, queue + [m], m.stamp, received + [m], lost).Sound?
  {
  }

  lemma MessagesCleared(sent: seq<Imu>, queue: seq<Imu>, last: real, received: seq<Imu>, lost: nat)
    requires Messages(sent, queue, last, received, lost).Sound?
    ensures Messages(sent, [], last, received, lost + |queue|).Sound?
  {
  }

  lemma MessagesSorted(sent: seq<Imu>, queue: seq<Imu>, last: real, received: seq<Imu>, lost: nat)
    requires Messages(sent, queue, last, received, lost).Sound?
    ensures Sorted(queue)
  {
  }

  lemma MessagesLeave(sent: seq<Imu>, queue: seq<Imu>, last: real, received: seq<Imu>, lost: nat,
                      taken: seq<Imu>, left: seq<Imu>)
    requires Messages(sent, queue, last, received, lost).Sound? && taken + left == queue
    ensures Messages(sent + taken, left, last, received, lost).Sound?
  {
    forall i | 0 <= i < |left|
      ensures left[i] == queue[|taken| + i]
    {
    }
    assert Sorted(left);
    if lost == 0 {
      forall i | 0 <= i < |sent + taken|
        ensures received[i] == (sent + taken)[i]
      {
        assert i >= |sent| ==> (sent + taken)[i] == queue[i - |sent|];
      }
      assert MessagesInOrder(sent + taken, left, received);
    }
  }

  // ---------- The mean scan time ----------

  /** lidar_end_time. */
  function EndTime(scan: Scan, beg: real, mean: real): real {
    beg + if TooShort(scan, mean) then mean else scan.duration
  }

  predicate TooShort(scan: Scan, mean: real) {
    scan.size <= 1 || scan.duration < 0.5 * mean
  }

  ghost predicate MeanOf(s: seq<real>, mean: real) {
    0.0 <= mean && mean * |s| as real == Sum(s)
  }

  lemma NotNegative(x: real, n: real)
    requires n > 0.0 && x * n >= 0.0
    ensures x >= 0.0
  {
  }

  /** The mean of one duration more, the `num`-th. */
  function NextMean(mean: real, num: nat, duration: real): real
    requires num > 0
  {
    mean + (duration - mean) / num as real
  }

  /** The incremental update keeps the mean of the accepted durations, which is never negative. */
  lemma MeanStep(mean: real, accepted: seq<real>, duration: real)
    requires MeanOf(accepted, mean) && 0.5 * mean <= duration
    ensures MeanOf(accepted + [duration], NextMean(mean, |accepted| + 1, duration))
  {
    var next := NextMean(mean, |accepted| + 1, duration);
    var n := (|accepted| + 1) as real;
    assert (accepted + [duration])[..|accepted|] == accepted;
    assert (duration - mean) / n * n == duration - mean;
    assert next * n == mean * n + (duration - mean);
    assert mean * n == mean * |accepted| as real + mean;
    assert mean * |accepted| as real >= 0.0;
    NotNegative(next, n);
  }

  // ---------- What the callbacks remember, as a value ----------

  /** time_sync_en and time_diff_lidar_to_imu. */
  datatype Config = Config(timeSyncEn: bool, offset: real)

  /** lidar_buffer, time_buffer, last_timestamp_lidar, is_first_lidar. */
  datatype ScanQueue = ScanQueue(scans: seq<Scan>, times: seq<real>, last: real, first: bool)

  /** imu_buffer, last_timestamp_imu. */
  datatype ImuQueue = ImuQueue(messages: seq<Imu>, last: real)

  /** timediff_lidar_wrt_imu and whether it is set. */
  datatype Clock = Clock(diff: real, isSet: bool)

  /** lidar_pushed, lidar_end_time, lidar_mean_scantime, scan_num. */
  datatype LatchState = LatchState(pushed: bool, end: real, mean: real, num: nat)

  datatype State = State(lidar: ScanQueue, imu: ImuQueue, clock: Clock, latch: LatchState)

  datatype Event =
    | StandardEvent(scan: Scan, time: real)
    | LivoxEvent(scan: Scan, time: real)
    | ImuEvent(reading: int, stamp: real)
    | SyncEvent

  predicate IsScan(e: Event) { e.StandardEvent? || e.LivoxEvent? }

  function Start(): State {
    State(ScanQueue([], [], 0.0, true), ImuQueue([], -1.0), Clock(0.0, false), LatchState(false, 0.0, 0.0, 0))
  }

  /** The stamp under which imu_cbk queues a message. */
  function Corrected(stamp: real, diff: real, c: Config): real {
    if Abs(diff) > 0.1 && c.timeSyncEn then diff + stamp else stamp - c.offset
  }

  /** Without a clock difference, a message stamped `offset` after a moment is queued under that moment. */
  lemma OffsetIsTakenOff(moment: real, diff: real, c: Config)
    requires !c.timeSyncEn || Abs(diff) <= 0.1
    ensures Corrected(moment + c.offset, diff, c) == moment
  {
  }

  /**
   Self-synchronisation is due exactly when it is enabled, was not done, messages are queued and the
   clocks are more than a second apart; then a message with the stamp of the last one would be queued
   a tenth of a second after the scan.
   */
  lemma SelfSyncAligns(k: Clock, time: real, q: ImuQueue, c: Config)
    ensures var l := SelfSynced(k, time, q, c);
      if c.timeSyncEn && !k.isSet && q.messages != [] && (time > q.last + 1.0 || time < q.last - 1.0)
      then l.isSet && Corrected(q.last, l.diff, c) == time + 0.1
      else l == k
  {
  }

  /** Every queued scan has a stamp. */
  predicate Stampable(q: ScanQueue) { |q.scans| <= |q.times| }

  function WithScan(q: ScanQueue, scan: Scan, time: real): ScanQueue {
    ScanQueue((if !q.first && time < q.last then [] else q.scans) + [scan], q.times + [time], time, false)
  }

  function WithImu(q: ImuQueue, m: Imu): ImuQueue {
    ImuQueue((if m.stamp < q.last then [] else q.messages) + [m], m.stamp)
  }

  /** The clock after a scan at `time`. */
  function SelfSynced(k: Clock, time: real, q: ImuQueue, c: Config): Clock {
    if c.timeSyncEn && !k.isSet && Abs(time - q.last) > 1.0 && q.messages != []
    then Clock(time + 0.1 - q.last, true)
    else k
  }

  function Latched(l: LatchState, scan: Scan, time: real): LatchState {
    if TooShort(scan, l.mean) then LatchState(true, EndTime(scan, time, l.mean), l.mean, l.num)
    else LatchState(true, EndTime(scan, time, l.mean), NextMean(l.mean, l.num + 1, scan.duration), l.num + 1)
  }

  function WithoutFirst(q: ScanQueue): ScanQueue
    requires Stampable(q) && q.scans != []
  {
    ScanQueue(q.scans[1..], q.times[1..], q.last, q.first)
  }

  function TakenOf(q: ImuQueue, end: real): seq<Imu>
    requires q.messages != []
  {
    Taken(q.messages, q.messages[0].stamp, end)
  }

  function TakenUpTo(q: ImuQueue, end: real): ImuQueue
    requires q.messages != []
  {
    ImuQueue(Left(q.messages, q.messages[0].stamp, end), q.last)
  }

  /** The latch under which sync_packages decides. */
  function Holding(l: LatchState, q: ScanQueue): LatchState
    requires Stampable(q) && q.scans != []
  {
    if l.pushed then l else Latched(l, q.scans[0], q.times[0])
  }

  function Released(l: LatchState): LatchState { LatchState(false, l.end, l.mean, l.num) }

  function Synced(s: State): State
    requires Stampable(s.lidar)
  {
    if s.lidar.scans == [] || s.imu.messages == [] then s
    else
      var l := Holding(s.latch, s.lidar);
      if s.imu.last < l.end then State(s.lidar, s.imu, s.clock, l)
      else State(WithoutFirst(s.lidar), TakenUpTo(s.imu, l.end), s.clock, Released(l))
  }

  function Advance(s: State, e: Event, c: Config): (t: State)
    requires Stampable(s.lidar)
    ensures Stampable(t.lidar)
  {
    match e
    case StandardEvent(scan, time) => State(WithScan(s.lidar, scan, time), s.imu, s.clock, s.latch)
    case LivoxEvent(scan, time) =>
      State(WithScan(s.lidar, scan, time), s.imu, SelfSynced(s.clock, time, s.imu, c), s.latch)
    case ImuEvent(reading, stamp) =>
      State(s.lidar, WithImu(s.imu, Imu(Corrected(stamp, s.clock.diff, c), reading)), s.clock, s.latch)
    case SyncEvent => Synced(s)
  }

  /** The state after all of `events`. */
  function After(events: seq<Event>, c: Config): (s: State)
    ensures Stampable(s.lidar)
  {
    if events == [] then Start() else Advance(After(events[..|events| - 1], c), events[|events| - 1], c)
  }

  class Synchronizer {
    const conf: Config
    var lidarBuffer: seq<Scan>
    var timeBuffer: seq<real>
    var imuBuffer: seq<Imu>
    var lastLidar: real
    var lastImu: real
    var isFirstLidar: bool
    var lidarPushed: bool
    var lidarEndTime: real
    var meanScan: real
    var scanNum: nat
    var timeDiff: real         // timediff_lidar_wrt_imu
    var timeDiffSet: bool
    var meas: Group
    ghost var received: seq<Stamped>
    ghost var receivedImu: seq<Imu>
    ghost var delivered: seq<Group>
    ghost var sent: seq<Imu>        // the IMU messages of `delivered`
    ghost var accepted: seq<real>
    ghost var lostScans: nat
    ghost var lostImu: nat

    /** meanScan is the mean of the accepted durations. */
    ghost function Mean(): Verdict
      reads `meanScan, `scanNum, `accepted
    {
      if scanNum == |accepted| && MeanOf(accepted, meanScan) then Sound else Broken
    }

    function Lidar(): ScanQueue
      reads `lidarBuffer, `timeBuffer, `lastLidar, `isFirstLidar
    {
      ScanQueue(lidarBuffer, timeBuffer, lastLidar, isFirstLidar)
    }

    function Queue(): ImuQueue
      reads `imuBuffer, `lastImu
    {
      ImuQueue(imuBuffer, lastImu)
    }

    function Offset(): Clock
      reads `timeDiff, `timeDiffSet
    {
      Clock(timeDiff, timeDiffSet)
    }

    function Latching(): LatchState
      reads `lidarPushed, `lidarEndTime, `meanScan, `scanNum
    {
      LatchState(lidarPushed, lidarEndTime, meanScan, scanNum)
    }

    /** The groups delivered, and the one that is latched, end as they should. */
    ghost function Timing(): Verdict
      reads `delivered, `meas, `lidarPushed, `lidarEndTime, `meanScan, `scanNum
    {
      Pace(delivered, meas, Latching())
    }

    /** Their scans, and the queued ones, were received. */
    ghost function Origin(): Verdict
      reads `delivered, `meas, `lidarPushed, `lidarBuffer, `received
    {
      Source(delivered, meas, lidarPushed, lidarBuffer, received)
    }

    function Now(): State
      reads this
    {
      State(Lidar(), Queue(), Offset(), Latching())
    }

    ghost predicate Valid()
      reads this
    {
      && Scans(delivered, lidarBuffer, timeBuffer, received, lostScans, lidarPushed, meas).Sound?
      && Messages(sent, imuBuffer, lastImu, receivedImu, lostImu).Sound?
      && (lidarPushed ==> meas.end == lidarEndTime)
    }

    constructor (conf: Config)
      ensures Valid() && Mean().Sound? && lostScans == 0 && lostImu == 0
      ensures received == [] && receivedImu == [] && delivered == [] && sent == []
      ensures this.conf == conf && Now() == Start()
    {
      this.conf := conf;
      lidarBuffer, timeBuffer, imuBuffer := [], [], [];
      lastLidar, lastImu, isFirstLidar := 0.0, -1.0, true;
      lidarPushed, lidarEndTime := false, 0.0;
      meanScan, scanNum := 0.0, 0;
      timeDiff, timeDiffSet := 0.0, false;
      meas := Group(Scan(0, 0, 0.0), 0.0, 0.0, []);
      received, receivedImu, delivered, sent, accepted := [], [], [], [], [];
      lostScans, lostImu := 0, 0;
    }

    /** The head of both lidar callbacks. */
    method ClearOnLoopBack(time: real)
      requires Valid()
      modifies `lidarBuffer, `isFirstLidar, `lostScans
      ensures Valid() && !isFirstLidar
      ensures lidarBuffer == if !old(isFirstLidar) && time < lastLidar then [] else old(lidarBuffer)
      ensures lostScans == old(lostScans) + if !old(isFirstLidar) && time < lastLidar then |old(lidarBuffer)| else 0
    {
      if !isFirstLidar && time < lastLidar {
        ScansCleared(delivered, lidarBuffer, timeBuffer, received, lostScans, lidarPushed, meas);
        lostScans := lostScans + |lidarBuffer|;
        lidarBuffer := [];
      }
      if isFirstLidar {
        isFirstLidar := false;
      }
    }

    /** The tail of both lidar callbacks. */
    method Enqueue(scan: Scan, time: real)
      requires Valid()
      modifies `lidarBuffer, `timeBuffer, `received
      ensures Valid() && received == old(received) + [Stamped(scan, time)]
      ensures lidarBuffer == old(lidarBuffer) + [scan] && timeBuffer == old(timeBuffer) + [time]
    {
      ScanArrives(delivered, lidarBuffer, timeBuffer, received, lostScans, lidarPushed, meas, scan, time);
      received := received + [Stamped(scan, time)];
      lidarBuffer := lidarBuffer + [scan];
      timeBuffer := timeBuffer + [time];
    }

    /** standard_pcl_cbk. A backward stamp clears the scans, but not their stamps. */
    method StandardScan(scan: Scan, time: real)
      requires Valid()
      modifies `lidarBuffer, `timeBuffer, `isFirstLidar, `lastLidar, `received, `lostScans
      ensures Valid() && received == old(received) + [Stamped(scan, time)]
      ensures lostScans == old(lostScans)
        + if !old(isFirstLidar) && time < old(lastLidar) then |old(lidarBuffer)| else 0
      ensures Lidar() == WithScan(old(Lidar()), scan, time)
    {
      ClearOnLoopBack(time);
      Enqueue(scan, time);
      lastLidar := time;
    }

    /** The once-per-run synchronisation of the two clocks in livox_pcl_cbk. */
    method SelfSync()
      modifies `timeDiff, `timeDiffSet
      ensures Offset() == SelfSynced(old(Offset()), lastLidar, Queue(), conf)
    {
      if conf.timeSyncEn && !timeDiffSet && Abs(lastLidar - lastImu) > 1.0 && imuBuffer != [] {
        timeDiffSet := true;
        timeDiff := lastLidar + 0.1 - lastImu;
      }
    }

    /** livox_pcl_cbk: the same, and once per run the self-synchronisation of the two clocks. */
    method LivoxScan(scan: Scan, time: real)
      requires Valid()
      modifies `lidarBuffer, `timeBuffer, `isFirstLidar, `lastLidar, `timeDiff, `timeDiffSet, `received, `lostScans
      ensures Valid() && received == old(received) + [Stamped(scan, time)]
      ensures lostScans == old(lostScans)
        + if !old(isFirstLidar) && time < old(lastLidar) then |old(lidarBuffer)| else 0
      ensures Lidar() == WithScan(old(Lidar()), scan, time)
        && Offset() == SelfSynced(old(Offset()), time, Queue(), conf)
    {
      ClearOnLoopBack(time);
      lastLidar := time;
      SelfSync();
      Enqueue(scan, time);
    }

    /** imu_cbk. The queue stays sorted: a backward stamp empties it first. */
    method ImuMessage(reading: int, stamp: real)
      requires Valid()
      modifies `imuBuffer, `lastImu, `receivedImu, `lostImu
      ensures Valid()
      ensures receivedImu == old(receivedImu) + [Imu(Corrected(stamp, timeDiff, conf), reading)]
      ensures lostImu == old(lostImu) + if Corrected(stamp, timeDiff, conf) < old(lastImu) then |old(imuBuffer)| else 0
      ensures Queue() == WithImu(old(Queue()), Imu(Corrected(stamp, timeDiff, conf), reading))
      ensures lastImu == if conf.timeSyncEn && (timeDiff > 0.1 || timeDiff < -0.1)
        then stamp + timeDiff else stamp - conf.offset
    {
      var time := if Abs(timeDiff) > 0.1 && conf.timeSyncEn then timeDiff + stamp else stamp - conf.offset;
      if time < lastImu {
        MessagesCleared(sent, imuBuffer, lastImu, receivedImu, lostImu);
        lostImu := lostImu + |imuBuffer|;
        imuBuffer := [];
      }
      MessageArrives(sent, imuBuffer, lastImu, receivedImu, lostImu, Imu(time, reading));
      lastImu := time;
      receivedImu := receivedImu + [Imu(time, reading)];
      imuBuffer := imuBuffer + [Imu(time, reading)];
    }

    /** The end time of the scan in `meas`, and the mean that goes with it. */
    method FixEnd()
      requires Mean().Sound?
      modifies `lidarEndTime, `meanScan, `scanNum, `accepted
      ensures Mean().Sound? && lidarEndTime == EndTime(meas.lidar, meas.beg, old(meanScan)) >= meas.beg
      ensures if TooShort(meas.lidar, old(meanScan)) then meanScan == old(meanScan) && scanNum == old(scanNum)
        else meanScan == NextMean(old(meanScan), old(scanNum) + 1, meas.lidar.duration) && scanNum == old(scanNum) + 1
      ensures accepted == old(accepted) + if TooShort(meas.lidar, old(meanScan)) then [] else [meas.lidar.duration]
    {
      if meas.lidar.size <= 1 {
        lidarEndTime := meas.beg + meanScan;
      } else if meas.lidar.duration < 0.5 * meanScan {
        lidarEndTime := meas.beg + meanScan;
      } else {
        scanNum := scanNum + 1;
        lidarEndTime := meas.beg + meas.lidar.duration;
        MeanStep(meanScan, accepted, meas.lidar.duration);
        meanScan := NextMean(meanScan, scanNum, meas.lidar.duration);
        accepted := accepted + [meas.lidar.duration];
      }
    }

    /** The first half of sync_packages: latch the front scan and fix its end time. */
    method Latch()
      requires Valid() && Mean().Sound? && !lidarPushed && lidarBuffer != []
      modifies `lidarPushed, `lidarEndTime, `meas, `meanScan, `scanNum, `accepted
      ensures Valid() && Mean().Sound? && Stampable(Lidar())
      ensures meas == Group(lidarBuffer[0], timeBuffer[0], lidarEndTime, old(meas.imu)) && meas.beg <= meas.end
      ensures Latching() == Latched(old(Latching()), lidarBuffer[0], timeBuffer[0])
      ensures accepted == old(accepted) + if TooShort(lidarBuffer[0], old(meanScan)) then []
        else [lidarBuffer[0].duration]
    {
      meas := meas.(lidar := lidarBuffer[0], beg := timeBuffer[0]);
      FixEnd();
      meas := meas.(end := lidarEndTime);
      lidarPushed := true;
    }

    /** The loop of sync_packages. */
    method TakeImu()
      requires imuBuffer != []
      modifies `imuBuffer, `meas
      ensures imuBuffer == Left(old(imuBuffer), old(imuBuffer)[0].stamp, lidarEndTime)
      ensures meas == old(meas).(imu := Taken(old(imuBuffer), old(imuBuffer)[0].stamp, lidarEndTime))
    {
      ghost var all, first := imuBuffer, imuBuffer[0].stamp;
      var imuTime := imuBuffer[0].stamp;
      meas := meas.(imu := []);
      while imuBuffer != [] && imuTime < lidarEndTime
        invariant meas == old(meas).(imu := meas.imu)
        invariant Left(imuBuffer, imuTime, lidarEndTime) == Left(all, first, lidarEndTime)
        invariant meas.imu + Taken(imuBuffer, imuTime, lidarEndTime) == Taken(all, first, lidarEndTime)
        decreases |imuBuffer|
      {
        TakeOne(meas.imu, imuBuffer, imuTime, lidarEndTime);
        imuTime := imuBuffer[0].stamp;
        if imuTime > lidarEndTime { break; }
        meas := meas.(imu := meas.imu + [imuBuffer[0]]);
        imuBuffer := imuBuffer[1..];
      }
    }

    /** Takes the messages and keeps the history of messages in step. */
    method Gather()
      requires imuBuffer != [] && Messages(sent, imuBuffer, lastImu, receivedImu, lostImu).Sound?
      modifies `imuBuffer, `meas, `sent
      ensures meas == old(meas).(imu := TakenOf(old(Queue()), lidarEndTime)) && sent == old(sent) + meas.imu
      ensures Queue() == TakenUpTo(old(Queue()), lidarEndTime)
      ensures Messages(sent, imuBuffer, lastImu, receivedImu, lostImu).Sound?
    {
      ghost var queue := imuBuffer;
      MessagesSorted(sent, queue, lastImu, receivedImu, lostImu);
      TakenSplits(queue, queue[0].stamp, lidarEndTime);
      TakeImu();
      MessagesLeave(sent, queue, lastImu, receivedImu, lostImu, meas.imu, imuBuffer);
      sent := sent + meas.imu;
    }

    /** Removes the front scan and the front stamp, and keeps the history of scans in step. */
    method PopScan(ghost latched: Group)
      requires lidarBuffer != [] && meas.lidar == latched.lidar && meas.beg == latched.beg
      requires Scans(delivered, lidarBuffer, timeBuffer, received, lostScans, true, latched).Sound?
      modifies `lidarBuffer, `timeBuffer, `delivered
      ensures Stampable(old(Lidar())) && Lidar() == WithoutFirst(old(Lidar())) && delivered == old(delivered) + [meas]
      ensures Scans(delivered, lidarBuffer, timeBuffer, received, lostScans, false, meas).Sound?
    {
      ScanLeaves(delivered, lidarBuffer, timeBuffer, received, lostScans, latched, meas);
      delivered := delivered + [meas];
      lidarBuffer := lidarBuffer[1..];
      timeBuffer := timeBuffer[1..];
    }

    /** The second half of sync_packages: deliver the latched scan with its IMU messages. */
    method Deliver()
      requires Valid() && lidarPushed && lidarBuffer != [] && imuBuffer != []
      modifies `meas, `imuBuffer, `lidarBuffer, `timeBuffer, `lidarPushed, `delivered, `sent
      ensures Valid() && !lidarPushed
      ensures meas == old(meas).(imu := TakenOf(old(Queue()), lidarEndTime))
      ensures delivered == old(delivered) + [meas] && sent == old(sent) + meas.imu
      ensures Stampable(old(Lidar())) && Lidar() == WithoutFirst(old(Lidar()))
        && Queue() == TakenUpTo(old(Queue()), lidarEndTime)
    {
      ghost var latched := meas;
      Gather();
      PopScan(latched);
      lidarPushed := false;
    }

    /** Latches the front scan unless one is latched. */
    method Hold()
      requires Valid() && Mean().Sound? && lidarBuffer != []
      modifies `lidarPushed, `lidarEndTime, `meas, `meanScan, `scanNum, `accepted
      ensures Valid() && Mean().Sound? && lidarPushed && Stampable(Lidar())
      ensures Latching() == Holding(old(Latching()), Lidar())
      ensures if old(lidarPushed) then meas == old(meas)
        else meas.lidar == lidarBuffer[0] && meas.beg == timeBuffer[0] && meas.beg <= meas.end
    {
      if !lidarPushed {
        Latch();
      }
    }

    /** sync_packages with both queues filled. */
    method SyncQueued() returns (ready: bool)
      requires Valid() && Mean().Sound? && lidarBuffer != [] && imuBuffer != []
      modifies `meas, `imuBuffer, `lidarBuffer, `timeBuffer, `lidarPushed, `delivered, `sent,
               `lidarEndTime, `meanScan, `scanNum, `accepted
      ensures Valid() && Mean().Sound?
      ensures Stampable(old(Lidar()))
      ensures var l := Holding(old(Latching()), old(Lidar()));
        && ready == !(lastImu < l.end)
        && Lidar() == (if ready then WithoutFirst(old(Lidar())) else old(Lidar()))
        && Queue() == (if ready then TakenUpTo(old(Queue()), l.end) else old(Queue()))
        && Latching() == (if ready then Released(l) else l)
      ensures meas.end == lidarEndTime
      ensures if old(lidarPushed) then meas == old(meas).(imu := meas.imu)
        else meas.lidar == old(lidarBuffer)[0] && meas.beg == old(timeBuffer)[0] && meas.beg <= meas.end
      ensures delivered == if ready then old(delivered) + [meas] else old(delivered)
      ensures sent == if ready then old(sent) + meas.imu else old(sent)
      ensures ready ==> meas.imu == TakenOf(old(Queue()), meas.end)
    {
      Hold();
      if lastImu < lidarEndTime {
        return false;
      }
      Deliver();
      ready := true;
    }

    /** sync_packages. */
    method SyncPackages() returns (ready: bool)
      requires Valid() && Mean().Sound?
      modifies `meas, `imuBuffer, `lidarBuffer, `timeBuffer, `lidarPushed, `delivered, `sent,
               `lidarEndTime, `meanScan, `scanNum, `accepted
      ensures Valid() && Mean().Sound? && Stampable(old(Lidar())) && Now() == Synced(old(Now()))
      ensures ready <==> old(lidarBuffer != [] && imuBuffer != []) && lastImu >= lidarEndTime
      ensures old(lidarBuffer == [] || imuBuffer == []) ==> meas == old(meas)
      ensures old(lidarBuffer != [] && imuBuffer != []) ==>
        && meas.end == lidarEndTime
        && (if old(lidarPushed) then meas == old(meas).(imu := meas.imu)
            else meas.lidar == old(lidarBuffer)[0] && meas.beg == old(timeBuffer)[0] && meas.beg <= meas.end)
      ensures delivered == if ready then old(delivered) + [meas] else old(delivered)
      ensures sent == if ready then old(sent) + meas.imu else old(sent)
      ensures ready ==> CutAt(old(imuBuffer), meas.imu, imuBuffer, meas.end).Sound?
      ensures ready ==> TakenAsDue(old(imuBuffer), meas.imu, meas.end).Sound?
    {
      if lidarBuffer == [] || imuBuffer == [] {
        return false;
      }
      ghost var queue := imuBuffer;
      MessagesSorted(sent, imuBuffer, lastImu, receivedImu, lostImu);
      ready := SyncQueued();
      TakenSplits(queue, queue[0].stamp, lidarEndTime);
      CallTakesAsDue(queue, lidarEndTime);
    }
  }

  // ---------- When a delivered scan ends ----------

  /** The mean; nothing has the mean zero. */
  function Average(s: seq<real>): real {
    if s == [] then 0.0 else Sum(s) / |s| as real
  }

  /** The durations that enter the mean: scans of more than one point that last half the mean so far. */
  function Accepted(groups: seq<Group>): seq<real> {
    if groups == [] then []
    else
      var before, g := Accepted(groups[..|groups| - 1]), groups[|groups| - 1];
      before + if g.lidar.size > 1 && 2.0 * g.lidar.duration >= Average(before) then [g.lidar.duration] else []
  }

  /** An accepted scan ends with its last point, any other after the mean of those accepted before it. */
  predicate EndsRight(before: seq<real>, g: Group) {
    g.end == g.beg + if g.lidar.size > 1 && 2.0 * g.lidar.duration >= Average(before)
      then g.lidar.duration else Average(before)
  }

  predicate WellTimed(groups: seq<Group>) {
    groups == []
    || (WellTimed(groups[..|groups| - 1]) && EndsRight(Accepted(groups[..|groups| - 1]), groups[|groups| - 1]))
  }

  lemma {:induction false} WellTimedAt(groups: seq<Group>, i: nat)
    requires WellTimed(groups) && i < |groups|
    ensures EndsRight(Accepted(groups[..i]), groups[i])
  {
    var n := |groups| - 1;
    if i < n {
      WellTimedAt(groups[..n], i);
      assert groups[..n][..i] == groups[..i];
    }
  }

  /** The groups delivered and the one that is latched are well timed, and the running mean is theirs. */
  ghost function Pace(delivered: seq<Group>, meas: Group, l: LatchState): Verdict {
    if Paced(if l.pushed then delivered + [meas] else delivered, l.mean, l.num) then Sound else Broken
  }

  ghost predicate Paced(all: seq<Group>, mean: real, num: nat) {
    WellTimed(all) && num == |Accepted(all)| && mean == Average(Accepted(all))
  }

  lemma OneGroupMore(all: seq<Group>, g: Group)
    ensures WellTimed(all + [g]) <==> WellTimed(all) && EndsRight(Accepted(all), g)
    ensures Accepted(all + [g]) == Accepted(all)
      + if g.lidar.size > 1 && 2.0 * g.lidar.duration >= Average(Accepted(all)) then [g.lidar.duration] else []
  {
    assert (all + [g])[..|all|] == all;
  }

  /** Only the scan and its two stamps count. */
  lemma SameTiming(all: seq<Group>, g: Group, h: Group, mean: real, num: nat)
    requires Paced(all + [g], mean, num) && h.lidar == g.lidar && h.beg == g.beg && h.end == g.end
    ensures Paced(all + [h], mean, num)
  {
    OneGroupMore(all, g);
    OneGroupMore(all, h);
  }

  lemma NextMeanIsAverage(s: seq<real>, duration: real)
    ensures NextMean(Average(s), |s| + 1, duration) == Average(s + [duration])
  {
    var n := |s| as real;
    assert (s + [duration])[..|s|] == s;
    assert Sum(s + [duration]) == Sum(s) + duration;
    if s != [] {
      assert Average(s) * n == Sum(s);
      MeanOfOneMore(Average(s), n, duration);
    }
  }

  lemma MeanOfOneMore(mean: real, n: real, duration: real)
    requires n > 0.0
    ensures mean + (duration - mean) / (n + 1.0) == (mean * n + duration) / (n + 1.0)
  {
    var m := n + 1.0;
    assert mean == mean * m / m;
    assert mean * m == mean * n + mean;
  }

  lemma LatchAccepts(all: seq<Group>, mean: real, num: nat, g: Group)
    requires Paced(all, mean, num) && g.lidar.size > 1 && 2.0 * g.lidar.duration >= mean
    requires g.end == g.beg + g.lidar.duration
    ensures Paced(all + [g], NextMean(mean, num + 1, g.lidar.duration), num + 1)
  {
    OneGroupMore(all, g);
    NextMeanIsAverage(Accepted(all), g.lidar.duration);
  }

  lemma LatchRejects(all: seq<Group>, mean: real, num: nat, g: Group)
    requires Paced(all, mean, num) && !(g.lidar.size > 1 && 2.0 * g.lidar.duration >= mean) && g.end == g.beg + mean
    ensures Paced(all + [g], mean, num)
  {
    OneGroupMore(all, g);
    assert Accepted(all) + [] == Accepted(all);
  }

  /** Latching a scan gives it the end that is due and the mean that follows. */
  lemma LatchPaces(all: seq<Group>, l: LatchState, g: Group)
    requires Paced(all, l.mean, l.num) && g.end == Latched(l, g.lidar, g.beg).end
    ensures var m := Latched(l, g.lidar, g.beg); Paced(all + [g], m.mean, m.num)
  {
    if TooShort(g.lidar, l.mean) {
      LatchRejects(all, l.mean, l.num, g);
    } else {
      LatchAccepts(all, l.mean, l.num, g);
    }
  }

  /** What one call of sync_packages does to the pace; `held` is the latch under which it decides. */
  lemma SyncPaces(delivered: seq<Group>, was: Group, l: LatchState, q: ScanQueue, meas: Group, ready: bool)
    requires Pace(delivered, was, l).Sound? && Stampable(q) && q.scans != []
    requires meas.end == Holding(l, q).end
    requires if l.pushed then meas.lidar == was.lidar && meas.beg == was.beg && was.end == l.end
      else meas.lidar == q.scans[0] && meas.beg == q.times[0]
    ensures var held := Holding(l, q);
      Pace(if ready then delivered + [meas] else delivered, meas, if ready then Released(held) else held).Sound?
  {
    if l.pushed {
      SameTiming(delivered, was, meas, l.mean, l.num);
    } else {
      LatchPaces(delivered, l, meas);
    }
  }

  ghost predicate AllAre(s: seq<real>, d: real) { forall i :: 0 <= i < |s| ==> s[i] == d }

  lemma {:induction false} SumOfSame(s: seq<real>, d: real)
    requires AllAre(s, d)
    ensures Sum(s) == d * |s| as real
  {
    if s != [] {
      var n := |s| - 1;
      SumOfSame(s[..n], d);
      assert Sum(s) == d * n as real + d;
    }
  }

  lemma AverageOfSame(s: seq<real>, d: real)
    requires AllAre(s, d)
    ensures Average(s) == if s == [] then 0.0 else d
  {
    SumOfSame(s, d);
    if s != [] { assert d * |s| as real / |s| as real == d; }
  }

  /** Every scan has more than one point and lasts `d`. */
  ghost predicate Uniform(groups: seq<Group>, d: real) {
    forall i :: 0 <= i < |groups| ==> groups[i].lidar.size > 1 && groups[i].lidar.duration == d
  }

  lemma UniformStep(all: seq<Group>, g: Group, d: real)
    requires WellTimed(all + [g]) && AllAre(Accepted(all), d) && d >= 0.0
    requires g.lidar.size > 1 && g.lidar.duration == d
    ensures g.end == g.beg + d && AllAre(Accepted(all + [g]), d)
  {
    OneGroupMore(all, g);
    AverageOfSame(Accepted(all), d);
  }

  /** If all scans have more than one point and last `d`, every delivered scan ends `d` after it begins. */
  lemma {:induction false} UniformEnds(groups: seq<Group>, d: real)
    requires WellTimed(groups) && d >= 0.0 && Uniform(groups, d)
    ensures AllAre(Accepted(groups), d)
    ensures forall i :: 0 <= i < |groups| ==> groups[i].end == groups[i].beg + d
  {
    if groups != [] {
      var n := |groups| - 1;
      UniformEnds(groups[..n], d);
      assert groups == groups[..n] + [groups[n]];
      UniformStep(groups[..n], groups[n], d);
      assert forall i :: 0 <= i < n ==> groups[i] == groups[..n][i];
    }
  }

  // ---------- Where delivered scans come from ----------

  predicate IsReceived(scan: Scan, received: seq<Stamped>) {
    received != []
    && (received[|received| - 1].scan == scan || IsReceived(scan, received[..|received| - 1]))
  }

  lemma {:induction false} ReceivedIsMember(scan: Scan, received: seq<Stamped>) returns (z: Stamped)
    requires IsReceived(scan, received)
    ensures z in received && z.scan == scan
  {
    z := received[|received| - 1];
    if z.scan != scan { z := ReceivedIsMember(scan, received[..|received| - 1]); }
  }

  /** Every scan that is delivered, latched or queued was received. */
  ghost function Source(delivered: seq<Group>, meas: Group, pushed: bool, scans: seq<Scan>,
                        received: seq<Stamped>): Verdict
  {
    if (forall g :: g in delivered ==> IsReceived(g.lidar, received))
      && (pushed ==> IsReceived(meas.lidar, received))
      && (forall x :: x in scans ==> IsReceived(x, received))
    then Sound else Broken
  }

  lemma ScanKeepsSource(delivered: seq<Group>, meas: Group, pushed: bool, q: ScanQueue,
                        received: seq<Stamped>, scan: Scan, time: real)
    requires Source(delivered, meas, pushed, q.scans, received).Sound?
    ensures Source(delivered, meas, pushed, WithScan(q, scan, time).scans, received + [Stamped(scan, time)]).Sound?
  {
    assert (received + [Stamped(scan, time)])[..|received|] == received;
  }

  lemma SyncKeepsSource(delivered: seq<Group>, was: Group, pushed: bool, scans: seq<Scan>,
                        received: seq<Stamped>, meas: Group, ready: bool)
    requires Source(delivered, was, pushed, scans, received).Sound? && scans != []
    requires if pushed then meas.lidar == was.lidar else meas.lidar == scans[0]
    ensures Source(if ready then delivered + [meas] else delivered, meas, !ready,
                   if ready then scans[1..] else scans, received).Sound?
  {
    assert scans[0] in scans;
  }

  // ---------- Runs ----------

  function WithScanOf(z: seq<Stamped>, e: Event): seq<Stamped> {
    if IsScan(e) then z + [Stamped(e.scan, e.time)] else z
  }

  function WithImuOf(m: seq<Imu>, e: Event, diff: real, c: Config): seq<Imu> {
    if e.ImuEvent? then m + [Imu(Corrected(e.stamp, diff, c), e.reading)] else m
  }

  function ScansIn(events: seq<Event>): seq<Stamped> {
    if events == [] then [] else WithScanOf(ScansIn(events[..|events| - 1]), events[|events| - 1])
  }

  /** The IMU messages of a run, each under the stamp it is queued with. */
  function ImuIn(events: seq<Event>, c: Config): seq<Imu> {
    if events == [] then []
    else
      var front := events[..|events| - 1];
      WithImuOf(ImuIn(front, c), events[|events| - 1], After(front, c).clock.diff, c)
  }

  /** A scan earlier than the last one, while scans are queued. */
  predicate JumpsOverScans(s: State, e: Event) {
    IsScan(e) && !s.lidar.first && e.time < s.lidar.last && s.lidar.scans != []
  }

  /** A message queued under an earlier stamp than the last one, while messages are queued. */
  predicate JumpsOverImu(s: State, e: Event, c: Config) {
    e.ImuEvent? && Corrected(e.stamp, s.clock.diff, c) < s.imu.last && s.imu.messages != []
  }

  predicate ScanJumpsAt(events: seq<Event>, c: Config, i: nat)
    requires i < |events|
  {
    JumpsOverScans(After(events[..i], c), events[i])
  }

  predicate ImuJumpsAt(events: seq<Event>, c: Config, i: nat)
    requires i < |events|
  {
    JumpsOverImu(After(events[..i], c), events[i], c)
  }

  ghost predicate ScansNeverJump(events: seq<Event>, c: Config) {
    forall i :: 0 <= i < |events| ==> !ScanJumpsAt(events, c, i)
  }

  ghost predicate ImuNeverJumps(events: seq<Event>, c: Config) {
    forall i :: 0 <= i < |events| ==> !ImuJumpsAt(events, c, i)
  }

  /** How many queued scans a run throws away. */
  function ScansLost(events: seq<Event>, c: Config): nat {
    if events == [] then 0
    else
      var s, e := After(events[..|events| - 1], c), events[|events| - 1];
      ScansLost(events[..|events| - 1], c) + if JumpsOverScans(s, e) then |s.lidar.scans| else 0
  }

  /** How many queued IMU messages a run throws away. */
  function ImuLost(events: seq<Event>, c: Config): nat {
    if events == [] then 0
    else
      var s, e := After(events[..|events| - 1], c), events[|events| - 1];
      ImuLost(events[..|events| - 1], c) + if JumpsOverImu(s, e, c) then |s.imu.messages| else 0
  }

  lemma SameJump(events: seq<Event>, front: seq<Event>, c: Config, i: nat)
    requires front <= events && i < |front|
    ensures ScanJumpsAt(events, c, i) == ScanJumpsAt(front, c, i) && ImuJumpsAt(events, c, i) == ImuJumpsAt(front, c, i)
  {
    assert events[..i] == front[..i];
  }

  lemma NeverJumpFront(events: seq<Event>, front: seq<Event>, c: Config)
    requires front <= events && |events| == |front| + 1
    ensures ScansNeverJump(events, c) <==> ScansNeverJump(front, c) && !ScanJumpsAt(events, c, |front|)
    ensures ImuNeverJumps(events, c) <==> ImuNeverJumps(front, c) && !ImuJumpsAt(events, c, |front|)
  {
    forall i | 0 <= i < |front|
      ensures ScanJumpsAt(events, c, i) == ScanJumpsAt(front, c, i)
        && ImuJumpsAt(events, c, i) == ImuJumpsAt(front, c, i)
    {
      SameJump(events, front, c, i);
    }
  }

  /** A run loses scans if and only if one of them jumps back over queued ones. */
  lemma {:induction false} ScansLostExactly(events: seq<Event>, c: Config)
    ensures ScansLost(events, c) == 0 <==> ScansNeverJump(events, c)
  {
    if events != [] {
      ScansLostExactly(events[..|events| - 1], c);
      NeverJumpFront(events, events[..|events| - 1], c);
    }
  }

  /** A run loses IMU messages if and only if one of them jumps back over queued ones. */
  lemma {:induction false} ImuLostExactly(events: seq<Event>, c: Config)
    ensures ImuLost(events, c) == 0 <==> ImuNeverJumps(events, c)
  {
    if events != [] {
      ImuLostExactly(events[..|events| - 1], c);
      NeverJumpFront(events, events[..|events| - 1], c);
    }
  }

  /** What one event does to the quantities of a run. */
  lemma OneMore(events: seq<Event>, c: Config, i: nat)
    requires i < |events|
    ensures var s, e := After(events[..i], c), events[i];
      && After(events[..i + 1], c) == Advance(s, e, c)
      && ScansIn(events[..i + 1]) == WithScanOf(ScansIn(events[..i]), e)
      && ImuIn(events[..i + 1], c) == WithImuOf(ImuIn(events[..i], c), e, s.clock.diff, c)
      && ScansLost(events[..i + 1], c) == ScansLost(events[..i], c)
        + (if JumpsOverScans(s, e) then |s.lidar.scans| else 0)
      && ImuLost(events[..i + 1], c) == ImuLost(events[..i], c)
        + (if JumpsOverImu(s, e, c) then |s.imu.messages| else 0)
  {
    assert events[..i + 1][..i] == events[..i];
  }

  /** Everything `s` remembers or counts is what one event made of it. */
  twostate predicate Handled(s: Synchronizer, e: Event)
    reads s
  {
    && old(Stampable(s.Lidar()))
    && s.Now() == Advance(old(s.Now()), e, s.conf)
    && s.received == WithScanOf(old(s.received), e)
    && s.receivedImu == WithImuOf(old(s.receivedImu), e, old(s.timeDiff), s.conf)
    && s.lostScans == old(s.lostScans) + (if JumpsOverScans(old(s.Now()), e) then |old(s.lidarBuffer)| else 0)
    && (old(s.sent == ImuOf(s.delivered)) ==> s.sent == ImuOf(s.delivered))
    && s.lostImu == old(s.lostImu) + (if JumpsOverImu(old(s.Now()), e, s.conf) then |old(s.imuBuffer)| else 0)
  }

  /** A scan leaves the ends alone and joins the queue. */
  method StandardOnTime(s: Synchronizer, scan: Scan, time: real)
    requires s.Valid() && s.Mean().Sound? && s.Timing().Sound? && s.Origin().Sound?
    modifies s
    ensures s.Valid() && s.Mean().Sound? && s.Timing().Sound? && s.Origin().Sound?
    ensures Stampable(old(s.Lidar())) && s.Lidar() == WithScan(old(s.Lidar()), scan, time)
    ensures s.Offset() == old(s.Offset())
    ensures s.Queue() == old(s.Queue()) && s.Latching() == old(s.Latching())
    ensures s.received == old(s.received) + [Stamped(scan, time)] && s.receivedImu == old(s.receivedImu)
    ensures s.lostScans == old(s.lostScans)
      + if !old(s.isFirstLidar) && time < old(s.lastLidar) then |old(s.lidarBuffer)| else 0
    ensures s.lostImu == old(s.lostImu) && s.delivered == old(s.delivered) && s.sent == old(s.sent)
  {
    ScanKeepsSource(s.delivered, s.meas, s.lidarPushed, s.Lidar(), s.received, scan, time);
    s.StandardScan(scan, time);
  }

  /** A scan leaves the ends alone and joins the queue. */
  method LivoxOnTime(s: Synchronizer, scan: Scan, time: real)
    requires s.Valid() && s.Mean().Sound? && s.Timing().Sound? && s.Origin().Sound?
    modifies s
    ensures s.Valid() && s.Mean().Sound? && s.Timing().Sound? && s.Origin().Sound?
    ensures Stampable(old(s.Lidar())) && s.Lidar() == WithScan(old(s.Lidar()), scan, time)
    ensures s.Offset() == SelfSynced(old(s.Offset()), time, s.Queue(), s.conf)
    ensures s.Queue() == old(s.Queue()) && s.Latching() == old(s.Latching())
    ensures s.received == old(s.received) + [Stamped(scan, time)] && s.receivedImu == old(s.receivedImu)
    ensures s.lostScans == old(s.lostScans)
      + if !old(s.isFirstLidar) && time < old(s.lastLidar) then |old(s.lidarBuffer)| else 0
    ensures s.lostImu == old(s.lostImu) && s.delivered == old(s.delivered) && s.sent == old(s.sent)
  {
    ScanKeepsSource(s.delivered, s.meas, s.lidarPushed, s.Lidar(), s.received, scan, time);
    s.LivoxScan(scan, time);
  }

  /** A scan arrives. */
  method HandleScan(s: Synchronizer, e: Event)
    requires s.Valid() && s.Mean().Sound? && s.Timing().Sound? && s.Origin().Sound? && IsScan(e)
    modifies s
    ensures s.Valid() && s.Mean().Sound? && s.Timing().Sound? && s.Origin().Sound? && Handled(s, e)
  {
    match e
    case StandardEvent(scan, time) => StandardOnTime(s, scan, time);
    case LivoxEvent(scan, time) => LivoxOnTime(s, scan, time);
  }

  method HandleImu(s: Synchronizer, e: Event)
    requires s.Valid() && s.Mean().Sound? && s.Timing().Sound? && s.Origin().Sound? && e.ImuEvent?
    modifies s
    ensures s.Valid() && s.Mean().Sound? && s.Timing().Sound? && s.Origin().Sound? && Handled(s, e)
  {
    s.ImuMessage(e.reading, e.stamp);
  }

  /** sync_packages keeps the ends right and the scans accounted for. */
  method SyncOnTime(s: Synchronizer)
    requires s.Valid() && s.Mean().Sound? && s.Timing().Sound? && s.Origin().Sound?
    modifies s
    ensures s.Valid() && s.Mean().Sound? && s.Timing().Sound? && s.Origin().Sound?
    ensures Stampable(old(s.Lidar())) && s.Now() == Synced(old(s.Now()))
    ensures s.received == old(s.received) && s.receivedImu == old(s.receivedImu)
    ensures s.lostScans == old(s.lostScans) && s.lostImu == old(s.lostImu)
    ensures old(s.sent == ImuOf(s.delivered)) ==> s.sent == ImuOf(s.delivered)
  {
    ghost var delivered, was, l, q := s.delivered, s.meas, s.Latching(), s.Lidar();
    ghost var queued := s.lidarBuffer != [] && s.imuBuffer != [];
    var ready := s.SyncPackages();
    LastOfImu(delivered, s.meas);
    if queued {
      SyncPaces(delivered, was, l, q, s.meas, ready);
      SyncKeepsSource(delivered, was, l.pushed, q.scans, s.received, s.meas, ready);
    }
  }

  method HandleSync(s: Synchronizer)
    requires s.Valid() && s.Mean().Sound? && s.Timing().Sound? && s.Origin().Sound?
    modifies s
    ensures s.Valid() && s.Mean().Sound? && s.Timing().Sound? && s.Origin().Sound? && Handled(s, SyncEvent)
  {
    SyncOnTime(s);
  }

  /** One callback, or one call of sync_packages. */
  method Handle(s: Synchronizer, e: Event)
    requires s.Valid() && s.Mean().Sound? && s.Timing().Sound? && s.Origin().Sound?
    modifies s
    ensures s.Valid() && s.Mean().Sound? && s.Timing().Sound? && s.Origin().Sound? && Handled(s, e)
  {
    match e
    case StandardEvent(_, _) => HandleScan(s, e);
    case LivoxEvent(_, _) => HandleScan(s, e);
    case ImuEvent(_, _) => HandleImu(s, e);
    case SyncEvent => HandleSync(s);
  }

  /** Order and pairing of a synchronizer's scans hold exactly while none is lost. */
  lemma ScansInOrderExactly(delivered: seq<Group>, scans: seq<Scan>, times: seq<real>, received: seq<Stamped>,
                            lost: nat, pushed: bool, meas: Group)
    requires Scans(delivered, scans, times, received, lost, pushed, meas).Sound?
    ensures lost == 0 <==> ScansInOrder(delivered, scans, times, received)
  {
  }

  lemma MessagesInOrderExactly(sent: seq<Imu>, queue: seq<Imu>, last: real, received: seq<Imu>, lost: nat)
    requires Messages(sent, queue, last, received, lost).Sound?
    ensures lost == 0 <==> sent + queue == received
  {
    assert |sent + queue| == |sent| + |queue|;
  }

  /** Every scan of the run has more than one point and lasts `d`. */
  ghost predicate UniformScans(events: seq<Event>, d: real) {
    forall z :: z in ScansIn(events) ==> z.scan.size > 1 && z.scan.duration == d
  }

  lemma EndsAsDue(delivered: seq<Group>, meas: Group, l: LatchState, scans: seq<Scan>, events: seq<Event>)
    requires Pace(delivered, meas, l).Sound? && Source(delivered, meas, l.pushed, scans, ScansIn(events)).Sound?
    ensures forall i :: 0 <= i < |delivered| ==> EndsRight(Accepted(delivered[..i]), delivered[i])
    ensures forall i :: 0 <= i < |delivered| ==> IsReceived(delivered[i].lidar, ScansIn(events))
    ensures forall d: real :: d >= 0.0 && UniformScans(events, d) ==>
      forall i :: 0 <= i < |delivered| ==> delivered[i].end == delivered[i].beg + d
  {
    if l.pushed { OneGroupMore(delivered, meas); }
    assert WellTimed(delivered);
    forall i | 0 <= i < |delivered|
      ensures EndsRight(Accepted(delivered[..i]), delivered[i])
    {
      WellTimedAt(delivered, i);
    }
    forall d: real | d >= 0.0 && UniformScans(events, d)
      ensures forall i :: 0 <= i < |delivered| ==> delivered[i].end == delivered[i].beg + d
    {
      forall i | 0 <= i < |delivered|
        ensures delivered[i].lidar.size > 1 && delivered[i].lidar.duration == d
      {
        var z := ReceivedIsMember(delivered[i].lidar, ScansIn(events));
      }
      UniformEnds(delivered, d);
    }
  }

  /**
   Any run of callbacks and sync_packages. The delivered scans followed by the queued ones are the
   scans received, each with its own stamp, if and only if no scan jumps back over queued scans; the
   delivered IMU messages followed by the queued ones are the messages received if and only if no
   message jumps back over queued messages. Whatever is lost, every delivered scan was received and
   ends as it should.
   */
  method Run(events: seq<Event>, c: Config) returns (s: Synchronizer)
    ensures fresh(s) && s.Valid() && s.Mean().Sound? && s.conf == c && s.Now() == After(events, c)
    ensures s.lostScans == ScansLost(events, c) && s.lostImu == ImuLost(events, c)
    ensures |s.timeBuffer| == |s.lidarBuffer| + ScansLost(events, c)
    ensures ScansNeverJump(events, c) <==> ScansInOrder(s.delivered, s.lidarBuffer, s.timeBuffer, ScansIn(events))
    ensures ImuNeverJumps(events, c) <==> ImuOf(s.delivered) + s.imuBuffer == ImuIn(events, c)
    ensures forall i :: 0 <= i < |s.delivered| ==> EndsRight(Accepted(s.delivered[..i]), s.delivered[i])
    ensures forall i :: 0 <= i < |s.delivered| ==> IsReceived(s.delivered[i].lidar, ScansIn(events))
    ensures forall d: real :: d >= 0.0 && UniformScans(events, d) ==>
      forall i :: 0 <= i < |s.delivered| ==> s.delivered[i].end == s.delivered[i].beg + d
  {
    s := new Synchronizer(c);
    for i := 0 to |events|
      invariant fresh(s) && s.Valid() && s.Mean().Sound? && s.conf == c && s.Now() == After(events[..i], c)
      invariant s.sent == ImuOf(s.delivered) && s.Timing().Sound? && s.Origin().Sound?
      invariant s.received == ScansIn(events[..i]) && s.receivedImu == ImuIn(events[..i], c)
      invariant s.lostScans == ScansLost(events[..i], c) && s.lostImu == ImuLost(events[..i], c)
    {
      OneMore(events, c, i);
      Handle(s, events[i]);
    }
    assert events[..|events|] == events;
    ScansLostExactly(events, c);
    ImuLostExactly(events, c);
    ScansInOrderExactly(s.delivered, s.lidarBuffer, s.timeBuffer, s.received, s.lostScans, s.lidarPushed, s.meas);
    MessagesInOrderExactly(s.sent, s.imuBuffer, s.lastImu, s.receivedImu, s.lostImu);
    EndsAsDue(s.delivered, s.meas, s.Latching(), s.lidarBuffer, events);
  }

  // ---------- When stamps do not go back ----------

  predicate Rising(s: seq<Stamped>) {
    forall i, j :: 0 <= i <= j < |s| ==> s[i].time <= s[j].time
  }

  lemma SortedFront(m: seq<Imu>, x: Imu)
    requires Sorted(m + [x])
    ensures Sorted(m) && (m != [] ==> m[|m| - 1].stamp <= x.stamp)
  {
    var all := m + [x];
    assert all[..|m|] == m && all[|m|] == x;
    forall i, j | 0 <= i <= j < |m|
      ensures m[i].stamp <= m[j].stamp
    {
      assert all[i] == m[i] && all[j] == m[j];
    }
    assert m != [] ==> all[|m| - 1] == m[|m| - 1];
  }

  lemma RisingFront(z: seq<Stamped>, x: Stamped)
    requires Rising(z + [x])
    ensures Rising(z) && (z != [] ==> z[|z| - 1].time <= x.time)
  {
    var all := z + [x];
    assert all[..|z|] == z && all[|z|] == x;
    forall i, j | 0 <= i <= j < |z|
      ensures z[i].time <= z[j].time
    {
      assert all[i] == z[i] && all[j] == z[j];
    }
    assert z != [] ==> all[|z| - 1] == z[|z| - 1];
  }

  /** What is remembered of the last scan received. */
  ghost predicate Remembers(s: State, z: seq<Stamped>) {
    (s.lidar.first <==> z == []) && (z != [] ==> z[|z| - 1].time == s.lidar.last)
  }

  /** What is remembered of the last message received. */
  ghost predicate RemembersImu(s: State, m: seq<Imu>) {
    (m == [] ==> s.imu.messages == []) && (m != [] ==> m[|m| - 1].stamp == s.imu.last)
  }

  lemma LastScanSeen(s: State, z: seq<Stamped>, e: Event, c: Config)
    requires Stampable(s.lidar) && Remembers(s, z)
    ensures Remembers(Advance(s, e, c), WithScanOf(z, e))
    ensures Rising(WithScanOf(z, e)) ==> Rising(z) && !JumpsOverScans(s, e)
  {
    if IsScan(e) && Rising(z + [Stamped(e.scan, e.time)]) { RisingFront(z, Stamped(e.scan, e.time)); }
  }

  lemma LastMessageSeen(s: State, m: seq<Imu>, e: Event, c: Config)
    requires Stampable(s.lidar) && RemembersImu(s, m)
    ensures RemembersImu(Advance(s, e, c), WithImuOf(m, e, s.clock.diff, c))
    ensures Sorted(WithImuOf(m, e, s.clock.diff, c)) ==> Sorted(m) && !JumpsOverImu(s, e, c)
  {
    if e.ImuEvent? {
      var x := Imu(Corrected(e.stamp, s.clock.diff, c), e.reading);
      if Sorted(m + [x]) { SortedFront(m, x); }
    }
  }

  /** Scans whose stamps do not decrease are never lost. */
  lemma {:induction false} RisingLosesNoScan(events: seq<Event>, c: Config)
    ensures Remembers(After(events, c), ScansIn(events))
    ensures Rising(ScansIn(events)) ==> ScansLost(events, c) == 0
  {
    if events != [] {
      var front := events[..|events| - 1];
      RisingLosesNoScan(front, c);
      LastScanSeen(After(front, c), ScansIn(front), events[|events| - 1], c);
    }
  }

  /** IMU messages whose corrected stamps do not decrease are never lost. */
  lemma {:induction false} SortedLosesNoMessage(events: seq<Event>, c: Config)
    ensures RemembersImu(After(events, c), ImuIn(events, c))
    ensures Sorted(ImuIn(events, c)) ==> ImuLost(events, c) == 0
  {
    if events != [] {
      var front := events[..|events| - 1];
      SortedLosesNoMessage(front, c);
      LastMessageSeen(After(front, c), ImuIn(front, c), events[|events| - 1], c);
    }
  }

  /** The stamps of the IMU messages as the driver sent them do not decrease. */
  ghost predicate SentInOrder(events: seq<Event>) {
    forall i, j :: 0 <= i <= j < |events| && events[i].ImuEvent? && events[j].ImuEvent? ==>
      events[i].stamp <= events[j].stamp
  }

  /** Self-synchronisation shifts the clock back under queued messages, although all were sent in order. */
  lemma SelfSyncLosesMessage() returns (events: seq<Event>)
    ensures SentInOrder(events) && Rising(ScansIn(events)) && ImuLost(events, Config(true, 0.0)) > 0
  {
    var c := Config(true, 0.0);
    events := [ImuEvent(0, 5.0), LivoxEvent(Scan(0, 2, 0.1), 1.0), ImuEvent(1, 6.0)];
    OneMore(events, c, 0);
    OneMore(events, c, 1);
    OneMore(events, c, 2);
    assert events[..0] == [] && events[..3] == events;
  }

  /**
   A backward scan stamp while a latched scan waits for its IMU messages: the old scan is delivered,
   the new one is popped without ever being delivered, and stamps of lost scans stay queued.
   */
  method LoopBackSwallowsScan(s: Synchronizer, newer: Scan, time: real) returns (ready: bool)
    requires s.Valid() && s.Mean().Sound? && !s.isFirstLidar && time < s.lastLidar
    requires s.lidarPushed && s.lidarBuffer != [] && s.imuBuffer != [] && s.lidarEndTime <= s.lastImu
    modifies s
    ensures ready && s.Valid() && s.lidarBuffer == [] && s.timeBuffer != []
    ensures s.delivered == old(s.delivered) + [s.meas] && s.meas.lidar == old(s.meas.lidar)
    ensures s.received == old(s.received) + [Stamped(newer, time)]
  {
    s.StandardScan(newer, time);
    ready := s.SyncPackages();
  }
}
