/**
 Group commit: writers put entries on a bounded channel; one thread per log file
 batches them, appends the batch and syncs once. Modelled as a step system, so every
 interleaving of writers, thread steps and crashes is covered.

 `accepted` and `failed` are history: the writes whose append returned Ok, behind those
 that the file held at the start, and whether an append to the file ever failed.
 */
module GroupCommit {
  import opened Types
  import opened Recovery
  import Rotation

  const CHANNEL_CAP := 131_072

  /** LastWriting is the write-out that follows the drain after the channel disconnected. */
  datatype Phase = Idle | Filling | Writing | LastWriting | Stopped

  datatype Shard = Shard(
    connected: bool, channel: seq<Entry>, batch: seq<Entry>, phase: Phase,
    file: seq<Entry>, synced: nat, okOps: nat, opsFlushed: nat, dropped: nat,
    accepted: seq<Entry>, failed: bool)

  /** A thread over a file that holds `base` already, all of it synced; those writes were accepted before. */
  function Start(base: seq<Entry>): Shard { Shard(true, [], [], Idle, base, |base|, 0, 0, 0, base, false) }

  datatype Step =
    | Append(w: Entry)      // a writer's try_send
    | Disconnect            // the last sender is dropped
    | Recv                  // recv_timeout returns
    | TryRecv               // one more entry for the batch
    | CloseBatch            // batch full or channel empty
    | WriteOne(ok: bool)    // append_buffered of the next entry
    | Sync(ok: bool)        // flush and fsync

  function Max1(n: nat): nat { if n == 0 then 1 else n }

  /** The drain after a disconnect: entry by entry, stopping at `limit` entries. */
  function Drained(batch: seq<Entry>, channel: seq<Entry>, limit: nat): (seq<Entry>, seq<Entry>)
    decreases |channel|
  {
    if channel == [] then (batch, channel) else
    var b := batch + [channel[0]];
    if |b| >= limit then (b, channel[1..]) else Drained(b, channel[1..], limit)
  }

  /** One step; a step that is not enabled leaves the state alone. */
  function Next(maxBatch: nat, s: Shard, step: Step): Shard {
    match step
    case Append(w) =>
      // The receiver is gone once the thread has stopped.
      if !s.connected then s
      else if |s.channel| >= CHANNEL_CAP || s.phase.Stopped? then s.(dropped := s.dropped + 1)
      else s.(channel := s.channel + [w], accepted := s.accepted + [w])
    case Disconnect => s.(connected := false)
    case Recv =>
      if !s.phase.Idle? then s
      else if s.channel != [] then
        s.(batch := s.batch + [s.channel[0]], channel := s.channel[1..], phase := Filling)
      else if s.connected then
        (if s.batch == [] then s else s.(phase := Writing, okOps := 0))
      else
        var (b, c) := Drained(s.batch, s.channel, Max1(maxBatch) * 4);
        s.(batch := b, channel := c, phase := if b == [] then Stopped else LastWriting)
    case TryRecv =>
      if s.phase.Filling? && |s.batch| < Max1(maxBatch) && s.channel != [] then
        s.(batch := s.batch + [s.channel[0]], channel := s.channel[1..])
      else s
    case CloseBatch =>
      if s.phase.Filling? && (|s.batch| >= Max1(maxBatch) || s.channel == [])
      then s.(phase := Writing, okOps := 0) else s
    case WriteOne(ok) =>
      if s.batch == [] || !(s.phase.Writing? || s.phase.LastWriting?) then s
      else if !ok then s.(batch := s.batch[1..], failed := true)
      else if s.phase.Writing? then
        s.(batch := s.batch[1..], file := s.file + [s.batch[0]], okOps := s.okOps + 1)
      else
        s.(batch := s.batch[1..], file := s.file + [s.batch[0]], opsFlushed := s.opsFlushed + 1)
    case Sync(ok) =>
      if s.batch != [] then s
      else if s.phase.Writing? then
        (if ok then s.(phase := Idle, synced := |s.file|, opsFlushed := s.opsFlushed + s.okOps) else s.(phase := Idle))
      else if s.phase.LastWriting? then
        s.(phase := Stopped, synced := if ok then |s.file| else s.synced)
      else s
  }

  function Run(maxBatch: nat, s: Shard, steps: seq<Step>): Shard
    decreases |steps|
  {
    if steps == [] then s else Next(maxBatch, Run(maxBatch, s, steps[..|steps| - 1]), steps[|steps| - 1])
  }

  /** Counters, sizes and phases between any two steps; `held` entries were in the file at the start. */
  predicate Shape(maxBatch: nat, held: nat, s: Shard) {
    && (s.phase.Idle? ==> s.batch == [])
    && !s.phase.LastWriting?
    && (s.phase.Stopped? ==> s.batch == [] && s.channel == [] && !s.connected)
    && |s.batch| <= Max1(maxBatch) && |s.channel| <= CHANNEL_CAP
    && held + s.opsFlushed <= s.synced <= |s.file|
    && (s.phase.Writing? ==> s.synced + s.okOps <= |s.file|)
  }

  /** While no append fails, accepted writes are in the file, in the batch or on the channel, in that order. */
  predicate NothingLost(s: Shard) {
    !s.failed ==> s.accepted == s.file + s.batch + s.channel
  }

  /** What holds between any two steps. */
  predicate Inv(maxBatch: nat, held: nat, s: Shard) { Shape(maxBatch, held, s) && NothingLost(s) }

  lemma NextKeepsShape(maxBatch: nat, held: nat, s: Shard, step: Step)
    requires Shape(maxBatch, held, s)
    ensures Shape(maxBatch, held, Next(maxBatch, s, step))
  {
  }

  /** The three places as one sequence: moving an entry to the next place changes nothing. */
  lemma MoveEntry(file: seq<Entry>, batch: seq<Entry>, channel: seq<Entry>)
    ensures channel != [] ==> file + (batch + [channel[0]]) + channel[1..] == file + batch + channel
    ensures batch != [] ==> file + [batch[0]] + batch[1..] + channel == file + batch + channel
  {
    if channel != [] { assert channel == [channel[0]] + channel[1..]; }
    if batch != [] { assert batch == [batch[0]] + batch[1..]; }
  }

  lemma NextLosesNothing(maxBatch: nat, held: nat, s: Shard, step: Step)
    requires Shape(maxBatch, held, s) && NothingLost(s)
    ensures NothingLost(Next(maxBatch, s, step))
  {
    MoveEntry(s.file, s.batch, s.channel);
    match step
    case Append(w) => assert s.file + s.batch + s.channel + [w] == s.file + s.batch + (s.channel + [w]);
    case _ =>
  }

  lemma NextKeepsInv(maxBatch: nat, held: nat, s: Shard, step: Step)
    requires Inv(maxBatch, held, s)
    ensures Inv(maxBatch, held, Next(maxBatch, s, step))
  {
    hide Next, Shape, NothingLost;
    NextKeepsShape(maxBatch, held, s, step);
    NextLosesNothing(maxBatch, held, s, step);
  }

  lemma {:induction false} RunKeepsInv(maxBatch: nat, base: seq<Entry>, steps: seq<Step>)
    ensures Inv(maxBatch, |base|, Run(maxBatch, Start(base), steps))
    decreases |steps|
  {
    hide Next;
    if steps != [] {
      RunKeepsInv(maxBatch, base, steps[..|steps| - 1]);
      NextKeepsInv(maxBatch, |base|, Run(maxBatch, Start(base), steps[..|steps| - 1]), steps[|steps| - 1]);
    }
  }

  /** What a crash can leave in the file: at least what was synced, at most what was appended. */
  predicate CrashFile(s: Shard, onDisk: seq<Entry>) {
    s.synced <= |onDisk| <= |s.file| && onDisk == s.file[..|onDisk|]
  }

  /**
   In every interleaving, a crash leaves a prefix of the accepted writes, no shorter
   than the flushed counter says.
   */
  lemma CrashLeavesPrefix(maxBatch: nat, base: seq<Entry>, steps: seq<Step>, onDisk: seq<Entry>)
    requires var s := Run(maxBatch, Start(base), steps); !s.failed && CrashFile(s, onDisk)
    ensures var s := Run(maxBatch, Start(base), steps);
            |onDisk| <= |s.accepted| && onDisk == s.accepted[..|onDisk|] && |base| + s.opsFlushed <= |onDisk|
  {
    RunKeepsInv(maxBatch, base, steps);
  }

  /** The bounded drain after a disconnect never has anything to drain, so it drops nothing. */
  lemma FinalDrainIsEmpty(maxBatch: nat, base: seq<Entry>, steps: seq<Step>)
    ensures !Run(maxBatch, Start(base), steps).phase.LastWriting?
  {
    RunKeepsInv(maxBatch, base, steps);
  }

  // ----------------------------------------------------- clean shutdown

  predicate WorkerStep(step: Step) { !step.Append? && !step.Disconnect? }

  /** How much the thread still has to do. */
  function Work(s: Shard): nat {
    10 * |s.channel| + 3 * |s.batch|
    + (match s.phase case Stopped => 0 case Idle => 1 case Writing => 2 case Filling => 3 case LastWriting => 4)
  }

  /** After the disconnect every step that does something brings the thread closer to its end. */
  lemma WorkerProgress(maxBatch: nat, held: nat, s: Shard, step: Step)
    requires Inv(maxBatch, held, s) && !s.connected && WorkerStep(step) && Next(maxBatch, s, step) != s
    ensures Work(Next(maxBatch, s, step)) < Work(s) && !Next(maxBatch, s, step).connected
  {
  }

  /** A disconnected thread that has not stopped always has a step to take. */
  lemma WorkerNeverStuck(maxBatch: nat, held: nat, s: Shard)
    requires Inv(maxBatch, held, s) && !s.connected && !s.phase.Stopped?
    ensures exists step :: WorkerStep(step) && Next(maxBatch, s, step) != s
  {
    var step := match s.phase
      case Idle => Recv
      case Filling => (if |s.batch| >= Max1(maxBatch) || s.channel == [] then CloseBatch else TryRecv)
      case _ => (if s.batch != [] then WriteOne(true) else Sync(true));
    assert WorkerStep(step) && Next(maxBatch, s, step) != s;
  }

  /** A run in which the thread makes `|steps|` real steps after the disconnect. */
  predicate RealSteps(maxBatch: nat, s: Shard, steps: seq<Step>)
    decreases |steps|
  {
    steps == [] ||
    (WorkerStep(steps[0]) && Next(maxBatch, s, steps[0]) != s
      && RealSteps(maxBatch, Next(maxBatch, s, steps[0]), steps[1..]))
  }

  lemma {:induction false} ShutdownTerminates(maxBatch: nat, held: nat, s: Shard, steps: seq<Step>)
    requires Inv(maxBatch, held, s) && !s.connected && RealSteps(maxBatch, s, steps)
    ensures |steps| <= Work(s)
    decreases |steps|
  {
    if steps != [] {
      NextKeepsInv(maxBatch, held, s, steps[0]);
      WorkerProgress(maxBatch, held, s, steps[0]);
      ShutdownTerminates(maxBatch, held, Next(maxBatch, s, steps[0]), steps[1..]);
    }
  }

  /** Once the thread has stopped on its own, the file holds every accepted write. */
  lemma CleanShutdownLosesNothing(maxBatch: nat, base: seq<Entry>, steps: seq<Step>)
    requires var s := Run(maxBatch, Start(base), steps); s.phase.Stopped? && !s.failed
    ensures var s := Run(maxBatch, Start(base), steps); s.file == s.accepted
  {
    RunKeepsInv(maxBatch, base, steps);
    var s := Run(maxBatch, Start(base), steps);
    assert s.file + [] + [] == s.file;
  }

  // ------------------------------------------------------------ cluster

  /** A write is routed by its table; any other step belongs to one shard's thread. */
  datatype ClusterStep = Write(w: Entry) | Thread(i: nat, step: Step)

  type Cluster = seq<Shard>

  function ClusterNext(maxBatch: nat, route: Text -> nat, c: Cluster, step: ClusterStep): (r: Cluster)
    ensures |r| == |c|
  {
    match step
    case Write(w) =>
      var i := route(w.table);
      if i < |c| then c[i := Next(maxBatch, c[i], Append(w))] else c
    case Thread(i, st) => if i < |c| && !st.Append? then c[i := Next(maxBatch, c[i], st)] else c
  }

  function ClusterRun(maxBatch: nat, route: Text -> nat, c: Cluster, steps: seq<ClusterStep>): (r: Cluster)
    ensures |r| == |c|
    decreases |steps|
  {
    if steps == [] then c else
    ClusterNext(maxBatch, route, ClusterRun(maxBatch, route, c, steps[..|steps| - 1]), steps[|steps| - 1])
  }

  /** The shards after a start: each file holds its share of the entries logged `before`. */
  function Opened(before: seq<Entry>, route: Text -> nat, n: nat): Cluster {
    seq(n, i requires 0 <= i < n => Start(Rotation.OfShard(before, route, i)))
  }

  /** The writes in the files at the start and those the cluster accepted, over all shards, in that order. */
  function Accepted(maxBatch: nat, before: seq<Entry>, route: Text -> nat, n: nat, steps: seq<ClusterStep>): seq<Entry>
    decreases |steps|
  {
    if steps == [] then before else
    var init, last := steps[..|steps| - 1], steps[|steps| - 1];
    var c := ClusterRun(maxBatch, route, Opened(before, route, n), init);
    Accepted(maxBatch, before, route, n, init)
    + (if last.Write? && route(last.w.table) < n
          && Next(maxBatch, c[route(last.w.table)], Append(last.w)).accepted != c[route(last.w.table)].accepted
       then [last.w] else [])
  }

  lemma OthersKeepAccepted(maxBatch: nat, s: Shard, step: Step)
    requires !step.Append?
    ensures Next(maxBatch, s, step).accepted == s.accepted
  {
  }

  lemma AppendAccepts(maxBatch: nat, s: Shard, w: Entry)
    ensures var t := Next(maxBatch, s, Append(w));
            t.accepted == s.accepted || t.accepted == s.accepted + [w]
    ensures s.accepted + [w] != s.accepted
  {
    assert |s.accepted + [w]| == |s.accepted| + 1;
  }

  /** Each shard is an instance of the single-file system and accepts its share of the writes. */
  lemma {:induction false} ShardsInCluster(maxBatch: nat, before: seq<Entry>, route: Text -> nat, n: nat,
                                           steps: seq<ClusterStep>, i: nat)
    requires i < n
    ensures var c := ClusterRun(maxBatch, route, Opened(before, route, n), steps);
            && Inv(maxBatch, |Rotation.OfShard(before, route, i)|, c[i])
            && c[i].accepted == Rotation.OfShard(Accepted(maxBatch, before, route, n, steps), route, i)
    decreases |steps|
  {
    hide Next, Inv;
    if steps == [] {
      var base := Rotation.OfShard(before, route, i);
      RunKeepsInv(maxBatch, base, []);
      assert Run(maxBatch, Start(base), []) == Start(base);
    } else {
      var init, last := steps[..|steps| - 1], steps[|steps| - 1];
      ShardsInCluster(maxBatch, before, route, n, init, i);
      var c := ClusterRun(maxBatch, route, Opened(before, route, n), init);
      var a := Accepted(maxBatch, before, route, n, init);
      match last
      case Write(w) =>
        NextKeepsInv(maxBatch, |Rotation.OfShard(before, route, i)|, c[i], Append(w));
        var r := route(w.table);
        if r < n {
          AppendAccepts(maxBatch, c[r], w);
          assert (a + [w])[..|a + [w]| - 1] == a;
          if r != i { assert Rotation.OfShard(a, route, i) + [] == Rotation.OfShard(a, route, i); }
        }
        assert a + [] == a;
      case Thread(j, st) =>
        NextKeepsInv(maxBatch, |Rotation.OfShard(before, route, i)|, c[i], st);
        if !st.Append? { OthersKeepAccepted(maxBatch, c[i], st); }
        assert a + [] == a;
    }
  }

  /** What a crash can leave of all the files. */
  predicate CrashFiles(c: Cluster, files: seq<Option<seq<Entry>>>) {
    |files| == |c| && forall i :: 0 <= i < |c| ==> files[i].Some? && CrashFile(c[i], files[i].value)
  }

  /** Filtering a prefix gives a prefix of the filtered log. */
  lemma {:induction false} PrefixOfTable(log: seq<Entry>, k: nat, name: Text)
    requires k <= |log|
    ensures var p := |Rotation.OfTable(log[..k], name)|;
            p <= |Rotation.OfTable(log, name)| && Rotation.OfTable(log[..k], name) == Rotation.OfTable(log, name)[..p]
  {
    hide Rotation.OfTable;
    assert log == log[..k] + log[k..];
    Rotation.OfTableAppend(log[..k], log[k..], name);
  }

  predicate IsPrefixOf(part: seq<Entry>, whole: seq<Entry>) {
    |part| <= |whole| && part == whole[..|part|]
  }

  /** Every file is a prefix of the shard's share of the log. */
  predicate FilesArePrefixes(files: seq<Option<seq<Entry>>>, log: seq<Entry>, route: Text -> nat) {
    forall i :: 0 <= i < |files| ==> IsPrefixOf(FileLog(files[i]), Rotation.OfShard(log, route, i))
  }

  /** The entries of a table are those in its own shard's file. */
  lemma {:induction false} TableInItsFile(files: seq<Option<seq<Entry>>>, log: seq<Entry>, route: Text -> nat, m: nat,
                                          name: Text)
    requires m <= |files| && FilesArePrefixes(files, log, route)
    ensures Rotation.OfTable(AllLogs(files[..m]), name)
         == if route(name) < m then Rotation.OfTable(FileLog(files[route(name)]), name) else []
    decreases m
  {
    Rotation.NoEntries(name);
    hide Rotation.OfTable, Rotation.OfShard, FileLog;
    if m > 0 {
      TableInItsFile(files, log, route, m - 1, name);
      assert files[..m][..m - 1] == files[..m - 1];
      Rotation.OfTableAppend(AllLogs(files[..m - 1]), FileLog(files[m - 1]), name);
      var shard := Rotation.OfShard(log, route, m - 1);
      PrefixOfTable(shard, |FileLog(files[m - 1])|, name);
      Rotation.ShardOfTable(log, route, m - 1, name);
      hide AllLogs;
      Rotation.EmptyUnit(Rotation.OfTable(FileLog(files[m - 1]), name));
      Rotation.EmptyUnit(Rotation.OfTable(AllLogs(files[..m - 1]), name));
    }
  }

  predicate NoFailures(c: Cluster) { forall i :: 0 <= i < |c| ==> !c[i].failed }

  /** After a crash each file is a prefix of its shard's accepted writes, with all flushed ones. */
  lemma CrashFilesArePrefixes(maxBatch: nat, before: seq<Entry>, route: Text -> nat, n: nat, steps: seq<ClusterStep>,
                              files: seq<Option<seq<Entry>>>)
    requires var c := ClusterRun(maxBatch, route, Opened(before, route, n), steps);
             NoFailures(c) && CrashFiles(c, files)
    ensures FilesArePrefixes(files, Accepted(maxBatch, before, route, n, steps), route)
    ensures forall i :: 0 <= i < n ==>
              |Rotation.OfShard(before, route, i)|
                + ClusterRun(maxBatch, route, Opened(before, route, n), steps)[i].opsFlushed
              <= |FileLog(files[i])|
  {
    hide Next, ClusterRun, Accepted, Rotation.OfShard;
    var c := ClusterRun(maxBatch, route, Opened(before, route, n), steps);
    forall i | 0 <= i < |files|
      ensures IsPrefixOf(FileLog(files[i]), Rotation.OfShard(Accepted(maxBatch, before, route, n, steps), route, i))
      ensures |Rotation.OfShard(before, route, i)| + c[i].opsFlushed <= |FileLog(files[i])|
    {
      ShardsInCluster(maxBatch, before, route, n, steps, i);
      assert CrashFile(c[i], files[i].value);
      assert c[i].accepted == c[i].file + (c[i].batch + c[i].channel);
    }
  }

  /**
   Whatever the interleaving and wherever the crash, recovery puts every table at a
   prefix of the writes that were accepted for it.
   */
  lemma CrashRecoversPrefix(maxBatch: nat, before: seq<Entry>, route: Text -> nat, n: nat, steps: seq<ClusterStep>,
                            files: seq<Option<seq<Entry>>>, name: Text)
    requires route(name) < n
    requires var c := ClusterRun(maxBatch, route, Opened(before, route, n), steps);
             NoFailures(c) && CrashFiles(c, files)
    ensures var writes := Rotation.OfTable(Accepted(maxBatch, before, route, n, steps), name);
            var kept := |Rotation.OfTable(FileLog(files[route(name)]), name)|;
            && kept <= |writes|
            && Rotation.TableAt(Replay(map[], AllLogs(files), 0), name)
            == Rotation.TableAt(Replay(map[], writes[..kept], 0), name)
  {
    hide Next, ClusterRun, Accepted, Rotation.OfShard, Rotation.OfTable, FileLog, AllLogs, Replay;
    CrashFilesArePrefixes(maxBatch, before, route, n, steps, files);
    var log, r := Accepted(maxBatch, before, route, n, steps), route(name);
    var file := FileLog(files[r]);
    TableInItsFile(files, log, route, n, name);
    assert files[..n] == files;
    Rotation.ShardOfTable(log, route, r, name);
    PrefixOfTable(Rotation.OfShard(log, route, r), |file|, name);
    Rotation.ReplayByTable(map[], AllLogs(files), 0, name);
  }
}
