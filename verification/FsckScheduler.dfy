/** How fsck checks all file systems: check_all starts the checks pass by pass, as many at once as their disks and the
    options allow, and waits for them. */
module FsckScheduler {
  import opened Bits
  import opened Wrappers

  const EXIT_NONDESTRUCT := 1
  const EXIT_UNCORRECTED := 4
  const EXIT_ERROR := 8
  const BASE_MD := "/dev/md"

  /** An entry of the file system table: whether it is mounted on the root, and whether its type is to be left alone. */
  datatype FsInfo = FsInfo(device: string, root: bool, passno: int, unwanted: bool)

  datatype Options = Options(
    serialize: bool, skipRoot: bool, parallelRoot: bool, forceAllParallel: bool, noexecute: bool, maxRunning: int)

  // ----- the history of a run

  /** A check is started in a pass, 0 for the first check of the root, and may fail to become a process; waiting
      begins; a process ends. */
  datatype Event = Started(fs: nat, pass: nat, spawned: bool) | Waiting | Exited(fs: nat, status: nat)

  datatype Start = Start(fs: nat, pass: nat)

  /** The checks that are running after the events. */
  function Live(log: seq<Event>): multiset<nat> {
    if log == [] then multiset{}
    else
      var live := Live(log[..|log| - 1]);
      match log[|log| - 1]
      case Started(fs, _, spawned) => if spawned then live + multiset{fs} else live
      case Waiting => live
      case Exited(fs, _) => live - multiset{fs}
  }

  function Starts(log: seq<Event>): seq<Start> {
    if log == [] then []
    else
      var before := Starts(log[..|log| - 1]);
      match log[|log| - 1]
      case Started(fs, pass, _) => before + [Start(fs, pass)]
      case Waiting => before
      case Exited(_, _) => before
  }

  /** How many checks did not become processes. */
  function Failures(log: seq<Event>): nat {
    if log == [] then 0
    else
      var e := log[|log| - 1];
      Failures(log[..|log| - 1]) + if e.Started? && !e.spawned then 1 else 0
  }

  /** The or of all exit codes. */
  function Statuses(log: seq<Event>): nat {
    if log == [] then 0
    else
      var before := Statuses(log[..|log| - 1]);
      match log[|log| - 1]
      case Started(_, _, _) => before
      case Waiting => before
      case Exited(_, status) => BitOr(before, status)
  }

  lemma {:induction false} Logged(log: seq<Event>, e: Event)
    ensures var after := log + [e];
            match e
            case Started(fs, pass, spawned) =>
              && Live(after) == (if spawned then Live(log) + multiset{fs} else Live(log))
              && Starts(after) == Starts(log) + [Start(fs, pass)] && Statuses(after) == Statuses(log)
              && Failures(after) == Failures(log) + if spawned then 0 else 1
            case Waiting =>
              && Live(after) == Live(log) && Starts(after) == Starts(log)
              && Failures(after) == Failures(log) && Statuses(after) == Statuses(log)
            case Exited(fs, status) =>
              && Live(after) == Live(log) - multiset{fs} && Starts(after) == Starts(log)
              && Failures(after) == Failures(log) && Statuses(after) == BitOr(Statuses(log), status)
  {
    assert (log + [e])[..|log|] == log;
  }

  predicate IsStarted(ss: seq<Start>, fs: nat) {
    exists k :: 0 <= k < |ss| && ss[k].fs == fs
  }

  /** No process is seen to end unless waiting has begun since the last check was started. */
  ghost predicate Awaited(log: seq<Event>) {
    forall n :: 0 <= n < |log| && log[n].Exited? ==> n > 0 && !log[n - 1].Started?
  }

  /** Only waiting, and processes that end, since the log was before. */
  ghost predicate JustWaited(before: seq<Event>, after: seq<Event>) {
    && |before| < |after| && before <= after && after[|before|] == Waiting
    && forall k :: |before| < k < |after| ==> after[k].Exited?
  }

  class Scheduler {
    const fses: seq<FsInfo>
    const opts: Options
    /** base_device. */
    const base: string -> Option<string>
    var done: seq<bool>
    /** The file systems that are being checked, the one started last in front. */
    var instances: seq<nat>
    var numRunning: int
    var cancelRequested: bool
    ghost var log: seq<Event>

    constructor (fses: seq<FsInfo>, opts: Options, base: string -> Option<string>)
      ensures this.fses == fses && this.opts == opts && this.base == base
      ensures done == seq(|fses|, i => false) && log == [] && !cancelRequested && Steady()
    {
      this.fses, this.opts, this.base := fses, opts, base;
      done := seq(|fses|, i => false);
      instances, numRunning, cancelRequested, log := [], 0, false, [];
    }

    // ----- what must hold at every point of a run

    predicate Ignored(i: nat)
      requires i < |fses|
    {
      fses[i].passno == 0 || fses[i].unwanted
    }

    /** The file systems to be checked. */
    predicate Wanted(i: nat) {
      i < |fses| && fses[i].passno != 0 && !fses[i].unwanted && !(opts.skipRoot && fses[i].root)
    }

    predicate OnMd(i: nat) {
      i < |fses| && BASE_MD <= fses[i].device
    }

    function Disk(i: nat): Option<string> {
      if i < |fses| then base(fses[i].device) else None
    }

    /** The first pass that may start the check. */
    function Pass(i: nat): (p: nat)
      ensures p >= 1
    {
      if i < |fses| && fses[i].passno > 1 then fses[i].passno else 1
    }

    /** At most one check, or checks on known disks that are all different and no soft raid. */
    ghost predicate Apart(live: multiset<nat>) {
      |live| <= 1 ||
      ((forall f :: f in live ==>
          live[f] == 1 && f < |fses| && base(fses[f].device).Some? && !(BASE_MD <= fses[f].device))
       && forall f, g :: f in live && g in live && f != g ==> base(fses[f].device) != base(fses[g].device))
    }

    ghost predicate OnePass(live: multiset<nat>) {
      forall f, g :: f in live && g in live ==> Pass(f) == Pass(g)
    }

    ghost predicate Allowed(live: multiset<nat>) {
      && (!opts.forceAllParallel ==> Apart(live))
      && OnePass(live)
      && (opts.maxRunning > 0 ==> |live| <= opts.maxRunning)
      && (opts.serialize ==> |live| <= 1)
    }

    /** What is running is allowed after each event. */
    ghost predicate AlwaysAllowed(log: seq<Event>) {
      Allowed(Live(log)) && (log != [] ==> AlwaysAllowed(log[..|log| - 1]))
    }

    /** Only file systems that are wanted are started, none of them twice, and one pass after the other. */
    ghost predicate InOrder(ss: seq<Start>) {
      && (forall i :: 0 <= i < |ss| ==> Wanted(ss[i].fs) && (ss[i].pass == 0 || ss[i].pass == Pass(ss[i].fs)))
      && (forall i, j :: 0 <= i < j < |ss| ==> ss[i].fs != ss[j].fs && ss[i].pass <= ss[j].pass)
    }

    /** The check of i could be next: it is wanted, and all earlier passes are over. */
    ghost predicate DueIn(log: seq<Event>, i: nat) {
      && Wanted(i) && !IsStarted(Starts(log), i)
      && forall j :: Wanted(j) && Pass(j) < Pass(i) ==> IsStarted(Starts(log), j) && j !in Live(log)
    }

    /** No more can be started: one check at a time is asked for, as many have been started as are allowed, or each
        check that could be next would have to share a disk or run beside one on an unknown disk or a soft raid. */
    ghost predicate Full(log: seq<Event>) {
      || Live(log) == multiset{} || opts.serialize
      || (opts.maxRunning != 0 && |Live(log)| + Failures(log) >= opts.maxRunning)
      || forall i :: DueIn(log, i) ==> !opts.forceAllParallel && !Apart(Live(log) + multiset{i})
    }

    /** Waiting begins only when no more can be started. */
    ghost predicate Eager(log: seq<Event>, from: nat) {
      forall n :: from <= n < |log| && log[n].Waiting? ==> Full(log[..n])
    }

    ghost predicate Steady()
      reads this`done, this`instances, this`numRunning, this`log
    {
      && |done| == |fses| && multiset(instances) == Live(log) && numRunning == |instances| + Failures(log)
      && AlwaysAllowed(log) && InOrder(Starts(log)) && Awaited(log)
      && (forall f :: f in instances ==> IsStarted(Starts(log), f))
    }

    // ----- waiting

    /** cancel_requested, which a signal may set at any time. */
    method Cancelled() returns (c: bool)
      modifies this`cancelRequested
      ensures c == cancelRequested && (old(cancelRequested) ==> c)
    {
      if * { cancelRequested := true; }
      c := cancelRequested;
    }

    /** The exit status of a process that has ended. */
    method ExitStatus() returns (status: nat)
      ensures status < 256
    {
      if * {
        status := EXIT_UNCORRECTED;
      } else if * {
        status := EXIT_ERROR;
      } else {
        status :| 0 <= status < 256;
      }
    }

    /** wait_one: waits for one process to end, or with noHang only looks whether one has ended; -1 if there is none. */
    method WaitOne(noHang: bool) returns (status: int)
      requires Steady() && log != [] && !log[|log| - 1].Started?
      modifies this`instances, this`numRunning, this`log
      ensures Steady() && -1 <= status < 256 && old(log) <= log
      ensures |log| <= |old(log)| + 1 && (log == old(log) || log[|old(log)|].Exited?)
      ensures status == -1 ==> log == old(log) && instances == old(instances) && (noHang || instances == [])
      ensures status >= 0 ==> OnlyExits(old(log), log) && Statuses(log) == BitOr(Statuses(old(log)), status)
      ensures status >= 0 ==> |instances| + 1 == |old(instances)|
    {
      hide *;
      if instances == [] { return -1; }
      if noHang {
        if * { return -1; }
      }
      var k :| 0 <= k < |instances|;
      status := ExitStatus();
      Parts();
      Departs(log, instances, k, status);
      StillAwaited(log, Exited(instances[k], status));
      log := log + [Exited(instances[k], status)];
      instances := instances[..k] + instances[k + 1..];
      numRunning := numRunning - 1;
      Whole();
    }

    lemma {:induction false} Parts()
      requires Steady()
      ensures |done| == |fses| && multiset(instances) == Live(log) && numRunning == |instances| + Failures(log)
      ensures AlwaysAllowed(log) && InOrder(Starts(log)) && forall f :: f in instances ==> IsStarted(Starts(log), f)
      ensures Awaited(log)
    {
      hide Live, Starts, Failures, AlwaysAllowed, InOrder, IsStarted, Awaited;
    }

    lemma {:induction false} Whole()
      requires |done| == |fses| && multiset(instances) == Live(log) && numRunning == |instances| + Failures(log)
      requires AlwaysAllowed(log) && InOrder(Starts(log)) && forall f :: f in instances ==> IsStarted(Starts(log), f)
      requires Awaited(log)
      ensures Steady()
    {
      hide Live, Starts, Failures, AlwaysAllowed, InOrder, IsStarted, Awaited;
    }

    static lemma {:induction false} StillAwaited(log: seq<Event>, e: Event)
      requires Awaited(log) && (e.Exited? ==> log != [] && !log[|log| - 1].Started?)
      ensures Awaited(log + [e])
    {
    }

    /** Nothing was started since the log was before. */
    ghost predicate OnlyExits(before: seq<Event>, after: seq<Event>) {
      Starts(before) == Starts(after) && Failures(before) == Failures(after) && Live(after) <= Live(before)
    }

    lemma {:induction false} Departs(log: seq<Event>, list: seq<nat>, k: nat, status: nat)
      requires AlwaysAllowed(log) && multiset(list) == Live(log) && k < |list|
      ensures var log', list' := log + [Exited(list[k], status)], list[..k] + list[k + 1..];
              && AlwaysAllowed(log') && multiset(list') == Live(log') && OnlyExits(log, log') && |list'| + 1 == |list|
              && Starts(log') == Starts(log) && Failures(log') == Failures(log)
              && Statuses(log') == BitOr(Statuses(log), status) && forall f :: f in list' ==> f in list
    {
      hide AlwaysAllowed, Statuses, Live, Starts, Failures;
      assert list == list[..k] + [list[k]] + list[k + 1..];
      Logged(log, Exited(list[k], status));
      LessAllowed(log, list[k], status);
    }

    lemma {:induction false} LessAllowed(log: seq<Event>, fs: nat, status: nat)
      requires AlwaysAllowed(log) && fs in Live(log)
      ensures AlwaysAllowed(log + [Exited(fs, status)])
    {
      hide Live;
      var after := log + [Exited(fs, status)];
      assert after[..|log|] == log;
      Logged(log, Exited(fs, status));
      AllowedLess(Live(log), fs);
    }

    lemma {:induction false} AllowedLess(live: multiset<nat>, fs: nat)
      requires Allowed(live) && fs in live
      ensures Allowed(live - multiset{fs})
    {
      hide Disk, OnMd, Pass;
      var less := live - multiset{fs};
      assert |less| == |live| - 1;
      assert forall f :: f in less ==> f in live;
      assert |less| > 1 && Apart(live) ==> forall f :: f in less ==> less[f] == 1;
    }

    /** wait_many: waits for all processes, or for one and those that have ended as well. */
    method WaitMany(atLeastOne: bool) returns (status: nat)
      requires Steady()
      modifies this`instances, this`numRunning, this`log
      ensures Steady() && JustWaited(old(log), log) && OnlyExits(old(log), log)
      ensures Statuses(log) == BitOr(Statuses(old(log)), status)
      ensures !atLeastOne ==> instances == []
      ensures |instances| <= |old(instances)| && (old(instances) != [] ==> |instances| < |old(instances)|)
    {
      hide *;
      status := 0;
      ghost var before := log;
      BeginWait();
      BitOrZero(Statuses(log));
      NowWaited(before, before, log);
      var noHang := false;
      ghost var began := log;
      var one := WaitOne(noHang);
      NowWaited(before, began, log);
      if one != -1 {
        BitOrZeroLeft(one);
        ExitsAgain(before, began, log);
      }
      while one != -1
        invariant Steady() && -1 <= one < 256 && (!atLeastOne ==> !noHang)
        invariant JustWaited(before, log) && OnlyExits(before, log) && log != [] && !log[|log| - 1].Started?
        invariant Statuses(log) == BitOr(Statuses(before), if one == -1 then status else BitOr(status, one))
        invariant |instances| + (if one == -1 then 0 else 1) <= |old(instances)|
        invariant old(instances) != [] ==> |instances| < |old(instances)|
        invariant one == -1 ==> noHang || instances == []
        decreases |instances| + if one == -1 then 0 else 1
      {
        ghost var mid, sofar := log, BitOr(status, one);
        status := BitOr(status, one);
        noHang := noHang || atLeastOne;
        one := WaitOne(noHang);
        NowWaited(before, mid, log);
        if one != -1 {
          ExitsAgain(before, mid, log);
          BitOrAssoc(Statuses(before), sofar, one);
        }
      }
    }

    /** Waiting begins. */
    method BeginWait()
      requires Steady()
      modifies this`log
      ensures Steady() && log == old(log) + [Waiting] && OnlyExits(old(log), log) && Statuses(log) == Statuses(old(log))
    {
      hide *;
      Parts();
      Logged(log, Waiting);
      StillAwaited(log, Waiting);
      StillAllowed(log);
      log := log + [Waiting];
      NothingStarted(old(log), log);
      Whole();
    }

    lemma {:induction false} StillAllowed(log: seq<Event>)
      requires AlwaysAllowed(log)
      ensures AlwaysAllowed(log + [Waiting])
    {
      hide Live, Allowed;
      assert (log + [Waiting])[..|log|] == log;
      Logged(log, Waiting);
      assert Allowed(Live(log));
    }

    lemma {:induction false} NothingStarted(before: seq<Event>, after: seq<Event>)
      requires Starts(after) == Starts(before) && Failures(after) == Failures(before) && Live(after) == Live(before)
      ensures OnlyExits(before, after)
    {
      hide Live, Starts, Failures;
    }

    static lemma {:induction false} NowWaited(before: seq<Event>, mid: seq<Event>, after: seq<Event>)
      ensures mid == before && after == before + [Waiting] ==>
                JustWaited(before, after) && after[|after| - 1] == Waiting
      ensures && JustWaited(before, mid) && mid <= after && |after| <= |mid| + 1
              && (after == mid || after[|mid|].Exited?)
              ==> JustWaited(before, after) && (!mid[|mid| - 1].Started? ==> !after[|after| - 1].Started?)
    {
    }

    lemma {:induction false} ExitsAgain(before: seq<Event>, mid: seq<Event>, after: seq<Event>)
      requires OnlyExits(before, mid) && OnlyExits(mid, after)
      ensures OnlyExits(before, after)
    {
      hide Live, Starts, Failures;
    }

    // ----- starting

    /** The processes that keep the check of i from being started. */
    ghost predicate Blocked(list: seq<nat>, i: nat) {
      list != [] && (OnMd(list[0]) || OnMd(i) || Disk(i).None?
                     || exists k :: 0 <= k < |list| && (Disk(list[k]).None? || Disk(list[k]) == Disk(i)))
    }

    /** device_already_active. */
    method DeviceAlreadyActive(i: nat) returns (active: bool)
      ensures active <==> !opts.forceAllParallel && Blocked(instances, i)
    {
      if opts.forceAllParallel { return false; }
      if instances != [] && (OnMd(instances[0]) || OnMd(i)) { return true; }
      var disk := Disk(i);
      if disk.None? { return instances != []; }
      for k := 0 to |instances|
        invariant forall j :: 0 <= j < k ==> Disk(instances[j]).Some? && Disk(instances[j]) != disk
      {
        if Disk(instances[k]).None? || disk == Disk(instances[k]) { return true; }
      }
      return false;
    }

    /** Whether the program could be started. */
    method Spawn() returns (ok: bool) {
      ok := *;
    }

    /** fsck_device and execute: starts the check of i, which is recorded only if it has become a process. */
    method FsckDevice(i: nat, ghost pass: nat)
      requires Steady() && Allowed(Live(log) + multiset{i}) && InOrder(Starts(log) + [Start(i, pass)])
      modifies this`instances, this`numRunning, this`log
      ensures Steady() && old(log) <= log && Starts(log) == Starts(old(log)) + [Start(i, pass)]
      ensures |log| == |old(log)| + 1 && log[|old(log)|].Started?
      ensures Statuses(log) == Statuses(old(log)) && numRunning == old(numRunning) + 1
      ensures instances == old(instances) || instances == [i] + old(instances)
    {
      hide *;
      Parts();
      numRunning := numRunning + 1;
      var spawned := false;
      if !opts.noexecute { spawned := Spawn(); }
      ghost var e := Started(i, pass, spawned);
      Logged(log, e);
      MoreAllowed(log, e);
      StillStarted(Starts(log), Start(i, pass));
      StillAwaited(log, e);
      log := log + [e];
      if spawned { instances := [i] + instances; }
      Whole();
    }

    lemma {:induction false} MoreAllowed(log: seq<Event>, e: Event)
      requires AlwaysAllowed(log) && e.Started? && Allowed(Live(log) + multiset{e.fs})
      ensures AlwaysAllowed(log + [e])
    {
      hide Live, Allowed;
      assert (log + [e])[..|log|] == log;
      Logged(log, e);
    }

    static lemma {:induction false} StillStarted(ss: seq<Start>, s: Start)
      ensures forall f :: IsStarted(ss + [s], f) <==> IsStarted(ss, f) || f == s.fs
    {
      forall f ensures IsStarted(ss + [s], f) <==> IsStarted(ss, f) || f == s.fs {
        assert (ss + [s])[|ss|].fs == s.fs;
        if IsStarted(ss, f) {
          var k :| 0 <= k < |ss| && ss[k].fs == f;
          assert (ss + [s])[k].fs == f;
        }
      }
    }

    lemma {:induction false} ApartMeans(live: multiset<nat>)
      ensures Apart(live) <==>
                || |live| <= 1
                || ((forall f :: f in live ==> live[f] == 1 && Disk(f).Some? && !OnMd(f))
                    && forall f, g :: f in live && g in live && f != g ==> Disk(f) != Disk(g))
    {
    }

    /** A check that is not blocked may join those that are running. */
    lemma {:induction false} MayJoin(list: seq<nat>, i: nat)
      requires Allowed(multiset(list)) && i !in list && (!opts.forceAllParallel ==> !Blocked(list, i))
      requires (opts.maxRunning > 0 ==> |list| < opts.maxRunning) && (opts.serialize ==> list == [])
      requires forall f :: f in list ==> Pass(f) == Pass(i)
      ensures Allowed(multiset(list) + multiset{i})
    {
      hide Disk, OnMd, Pass, Apart;
      var live, more := multiset(list), multiset(list) + multiset{i};
      ApartMeans(live);
      ApartMeans(more);
      assert |more| == |list| + 1 && forall f :: f in more <==> f in list || f == i;
      if !opts.forceAllParallel && list != [] {
        forall f | f in live ensures live[f] == 1 && Disk(f).Some? && !OnMd(f) && Disk(f) != Disk(i) {
          var k :| 0 <= k < |list| && list[k] == f;
          if |list| == 1 { assert list == [f]; }
        }
      }
    }

    /** One that is blocked may not: it would not be apart from them. */
    lemma {:induction false} MayNotJoin(list: seq<nat>, i: nat)
      requires Blocked(list, i)
      ensures !Apart(multiset(list) + multiset{i})
    {
      hide Disk, OnMd, Apart;
      var more := multiset(list) + multiset{i};
      ApartMeans(more);
      assert |more| == |list| + 1;
      assert list[0] in more && i in more;
      if k :| 0 <= k < |list| && (Disk(list[k]).None? || Disk(list[k]) == Disk(i)) {
        assert list[k] in multiset(list) && list[k] in more;
        if list[k] == i { assert more[i] >= 2; }
      }
    }

    /** Fewer checks are apart if more are. */
    lemma {:induction false} ApartLess(less: multiset<nat>, more: multiset<nat>)
      requires Apart(more) && less <= more
      ensures Apart(less)
    {
      hide Disk, OnMd;
      assert more == less + (more - less);
      forall f | f in less ensures f in more && less[f] <= more[f] {}
    }

    // ----- one pass

    /** None of the checks before the n-th that are due in this pass could join those that are running. */
    ghost predicate NoneJoins(done: seq<bool>, list: seq<nat>, passno: nat, n: nat) {
      && n <= |done| == |fses|
      && forall i: nat :: i < n && !done[i] && fses[i].passno <= passno ==>
           !opts.forceAllParallel && !Apart(multiset(list) + multiset{i})
    }

    lemma {:induction false} NoneJoinsStart(done: seq<bool>, list: seq<nat>, passno: nat)
      requires |done| == |fses|
      ensures NoneJoins(done, list, passno, 0)
    {
    }

    /** The next check is done, left to a later pass, or blocked; or it has been started. */
    lemma {:induction false} NoneJoinsNext(done: seq<bool>, list: seq<nat>, done': seq<bool>, list': seq<nat>,
        passno: nat, i: nat)
      requires NoneJoins(done, list, passno, i) && i < |done|
      requires done' == done || done' == done[i := true]
      requires list' == list || list' == [i] + list
      requires done'[i] || passno < fses[i].passno || (list' == list && !opts.forceAllParallel && Blocked(list, i))
      ensures NoneJoins(done', list', passno, i + 1)
    {
      hide Apart, Blocked;
      forall j: nat | j < i + 1 && !done'[j] && fses[j].passno <= passno
        ensures !opts.forceAllParallel && !Apart(multiset(list') + multiset{j})
      {
        if j == i {
          MayNotJoin(list, i);
        } else if Apart(multiset(list') + multiset{j}) {
          assert multiset([i] + list) == multiset{i} + multiset(list);
          ApartLess(multiset(list) + multiset{j}, multiset(list') + multiset{j});
        }
      }
    }

    /** As many checks have been started as are allowed. */
    ghost predicate AtMaximum()
      reads this`numRunning
    {
      opts.serialize || (opts.maxRunning != 0 && numRunning >= opts.maxRunning)
    }

    /** After such a round no more can be started. */
    lemma {:induction false} NowFull(passno: nat)
      requires InPass(passno) && (AtMaximum() || NoneJoins(done, instances, passno, |fses|))
      ensures Full(log)
    {
      hide Live, Starts, Failures, AlwaysAllowed, InOrder, IsStarted, Apart, Awaited, Wanted;
      PassParts(passno);
      Parts();
      assert |multiset(instances)| == |instances|;
      if Live(log) != multiset{} && !AtMaximum() {
        assert instances != [];
        var f := instances[0];
        assert f in instances && f in multiset(instances);
        StartedWanted(f);
        forall i: nat | DueIn(log, i) ensures !opts.forceAllParallel && !Apart(Live(log) + multiset{i}) {
          WantedInside(i);
          assert !done[i] && passno <= Pass(i);
          assert Pass(f) == passno;
          assert Pass(i) == passno;
        }
      }
    }

    lemma {:induction false} StartedWanted(f: nat)
      requires InOrder(Starts(log)) && IsStarted(Starts(log), f)
      ensures Wanted(f)
    {
      hide Starts, Wanted, Pass;
    }

    lemma {:induction false} WantedInside(i: nat)
      requires Wanted(i)
      ensures i < |fses|
    {
      hide Ignored;
    }

    // ----- what waiting means for the history

    lemma {:induction false} EagerStarts(before: seq<Event>, after: seq<Event>, from: nat)
      requires Eager(before, from) && before <= after && forall k :: |before| <= k < |after| ==> after[k].Started?
      ensures Eager(after, from)
    {
      hide Full;
      forall n | from <= n < |after| && after[n].Waiting? ensures Full(after[..n]) { assert after[..n] == before[..n]; }
    }

    lemma {:induction false} EagerWait(before: seq<Event>, after: seq<Event>, from: nat)
      requires Eager(before, from) && Full(before) && JustWaited(before, after)
      ensures Eager(after, from)
    {
      hide Full;
      forall n | from <= n < |after| && after[n].Waiting? ensures Full(after[..n]) {
        assert after[..n] == if n == |before| then before else before[..n];
      }
    }

    lemma {:induction false} EagerYet(log: seq<Event>)
      ensures Eager(log, |log|)
    {
      hide Full;
    }

    /** The state in a pass: what has been done, what is running and what is left. */
    ghost predicate InPass(passno: nat)
      reads this`done, this`instances, this`numRunning, this`log
    {
      && Steady() && passno >= 1
      && (forall i :: 0 <= i < |done| ==> (done[i] <==> !Wanted(i) || IsStarted(Starts(log), i)))
      && (forall i :: 0 <= i < |done| && !done[i] ==> passno <= Pass(i))
      && (forall f :: f in instances ==> Pass(f) == passno)
      && (forall k :: 0 <= k < |Starts(log)| ==> Starts(log)[k].pass <= passno)
    }

    /** One more check may run. */
    ghost predicate Room()
      reads this`instances
    {
      (opts.maxRunning > 0 ==> |instances| < opts.maxRunning) && (opts.serialize ==> instances == [])
    }

    static function Undone(done: seq<bool>): nat {
      if done == [] then 0 else (if done[0] then 0 else 1) + Undone(done[1..])
    }

    static lemma {:induction false} OneDone(done: seq<bool>, i: nat)
      requires i < |done| && !done[i]
      ensures Undone(done[i := true]) + 1 == Undone(done)
    {
      if i > 0 {
        assert done[i := true][1..] == done[1..][i - 1 := true];
        OneDone(done[1..], i - 1);
      } else {
        assert done[0 := true][1..] == done[1..];
      }
    }

    /** The check of i is due in this pass and nothing keeps it from being started. */
    lemma {:induction false} Due(i: nat, passno: nat)
      requires InPass(passno) && Room() && i < |done| && !done[i] && fses[i].passno <= passno
      requires !opts.forceAllParallel ==> !Blocked(instances, i)
      ensures Wanted(i) && Pass(i) == passno && !IsStarted(Starts(log), i)
      ensures Allowed(Live(log) + multiset{i}) && InOrder(Starts(log) + [Start(i, passno)])
      ensures |done| == |fses|
    {
      hide Live, Starts, Allowed, Blocked, Ignored, AlwaysAllowed;
      NowAllowed();
      MayJoin(instances, i);
      var ss := Starts(log);
      assert forall k :: 0 <= k < |ss| ==> IsStarted(ss, ss[k].fs);
    }

    lemma {:induction false} NowAllowed()
      requires Steady()
      ensures Allowed(multiset(instances)) && Live(log) == multiset(instances)
    {
      hide Live, Starts, Allowed;
    }

    /** Starts the check of i, which is due. */
    method StartOne(i: nat, passno: nat)
      requires InPass(passno) && Room() && i < |done| && !done[i] && fses[i].passno <= passno
      requires !opts.forceAllParallel ==> !Blocked(instances, i)
      modifies this`done, this`instances, this`numRunning, this`log
      ensures InPass(passno) && old(log) <= log && Statuses(log) == Statuses(old(log)) && done == old(done)[i := true]
      ensures Undone(done) < Undone(old(done)) && Starts(log) == Starts(old(log)) + [Start(i, passno)]
      ensures numRunning >= |instances| && (instances == old(instances) || instances == [i] + old(instances))
      ensures |log| == |old(log)| + 1 && log[|old(log)|].Started?
    {
      hide *;
      Due(i, passno);
      PassParts(passno);
      OneDone(done, i);
      StillStarted(Starts(log), Start(i, passno));
      FsckDevice(i, passno);
      Parts();
      done := done[i := true];
      Whole();
      PassWhole(passno);
    }

    lemma {:induction false} PassParts(passno: nat)
      requires InPass(passno)
      ensures Steady() && passno >= 1 && |done| == |fses|
      ensures forall i :: 0 <= i < |done| ==> (done[i] <==> !Wanted(i) || IsStarted(Starts(log), i))
      ensures forall i :: 0 <= i < |done| && !done[i] ==> passno <= Pass(i)
      ensures forall f :: f in instances ==> Pass(f) == passno
      ensures forall k :: 0 <= k < |Starts(log)| ==> Starts(log)[k].pass <= passno
    {
      hide Live, Starts, Failures, AlwaysAllowed, InOrder, IsStarted, Wanted, Pass;
    }

    lemma {:induction false} PassWhole(passno: nat)
      requires Steady() && passno >= 1
      requires forall i :: 0 <= i < |done| ==> (done[i] <==> !Wanted(i) || IsStarted(Starts(log), i))
      requires forall i :: 0 <= i < |done| && !done[i] ==> passno <= Pass(i)
      requires forall f :: f in instances ==> Pass(f) == passno
      requires forall k :: 0 <= k < |Starts(log)| ==> Starts(log)[k].pass <= passno
      ensures InPass(passno)
    {
      hide Steady, Starts, IsStarted, Wanted, Pass;
    }

    /** All file systems before the n-th are done, or left to a later pass. */
    ghost predicate Left(done: seq<bool>, n: nat, passno: nat) {
      n <= |done| == |fses| && forall i :: 0 <= i < n ==> done[i] || passno < fses[i].passno
    }

    static ghost predicate AllDone(done: seq<bool>, n: nat) {
      n <= |done| && forall i :: 0 <= i < n ==> done[i]
    }

    lemma {:induction false} NoneLeft(done: seq<bool>, passno: nat)
      requires |done| == |fses|
      ensures Left(done, 0, passno) && AllDone(done, 0)
    {
    }

    lemma {:induction false} OneMore(done: seq<bool>, done': seq<bool>, i: nat, passno: nat)
      requires i < |done| == |fses| && (done' == done || done' == done[i := true])
      ensures Left(done, i, passno) && (done'[i] || passno < fses[i].passno) ==> Left(done', i + 1, passno)
      ensures AllDone(done, i) && done'[i] ==> AllDone(done', i + 1)
    {
    }

    /** The last pass that has something to check. */
    static function Highest(fses: seq<FsInfo>): int {
      if fses == [] then 0
      else
        var h := Highest(fses[1..]);
        if fses[0].passno > h then fses[0].passno else h
    }

    static lemma {:induction false} HighestAtLeast(fses: seq<FsInfo>, i: nat)
      requires i < |fses|
      ensures fses[i].passno <= Highest(fses)
    {
      if i > 0 { HighestAtLeast(fses[1..], i - 1); }
    }

    /** What was started since then was started in the main loop. */
    static ghost predicate Later(before: seq<Event>, after: seq<Event>) {
      var ss, ts := Starts(before), Starts(after);
      ss <= ts && forall k :: |ss| <= k < |ts| ==> ts[k].pass >= 1
    }

    static lemma {:induction false} LaterSame(before: seq<Event>, mid: seq<Event>, after: seq<Event>)
      ensures Later(before, before)
      ensures Later(before, mid) && Starts(after) == Starts(mid) ==> Later(before, after)
    {
    }

    static lemma {:induction false} LaterAgain(before: seq<Event>, mid: seq<Event>, after: seq<Event>)
      requires Later(before, mid) && Later(mid, after)
      ensures Later(before, after)
    {
      hide Starts;
    }

    static lemma {:induction false} LaterOne(before: seq<Event>, mid: seq<Event>, after: seq<Event>, s: Start)
      requires Later(before, mid) && Starts(after) == Starts(mid) + [s] && s.pass >= 1
      ensures Later(before, after)
    {
      hide Starts;
    }

    lemma {:induction false} RoomLeft()
      requires numRunning >= |instances|
      ensures !opts.serialize && (opts.maxRunning == 0 || numRunning < opts.maxRunning) ==> Room()
    {
    }

    lemma {:induction false} BlockedBySome(list: seq<nat>, i: nat)
      ensures Blocked(list, i) ==> list != []
    {
      hide OnMd, Disk;
    }

    lemma {:induction false} NowAtMaximum()
      requires opts.serialize || (opts.maxRunning != 0 && numRunning >= opts.maxRunning)
      ensures AtMaximum()
    {
    }

    /** The inner loop of check_all: starts what can be started in this pass. */
    method StartPass(passno: nat) returns (passDone: bool, notDoneYet: bool)
      requires InPass(passno) && Room()
      modifies this`done, this`instances, this`numRunning, this`cancelRequested, this`log
      ensures InPass(passno) && old(log) <= log && Statuses(log) == Statuses(old(log)) && Later(old(log), log)
      ensures old(cancelRequested) ==> cancelRequested
      ensures !cancelRequested && passDone ==> Left(done, |fses|, passno) && (!notDoneYet ==> AllDone(done, |fses|))
      ensures passDone && notDoneYet ==> passno < Highest(fses)
      ensures Undone(done) <= Undone(old(done))
      ensures !cancelRequested && !passDone && Undone(done) == Undone(old(done)) ==>
                instances == old(instances) && instances != []
      ensures !cancelRequested ==> AtMaximum() || NoneJoins(done, instances, passno, |fses|)
      ensures forall k :: |old(log)| <= k < |log| ==> log[k].Started?
    {
      hide *;
      passDone, notDoneYet := true, false;
      ghost var before := log;
      LaterSame(log, log, log);
      PassParts(passno);
      NoneLeft(done, passno);
      NoneJoinsStart(done, instances, passno);
      var i := 0;
      while i < |fses|
        invariant 0 <= i <= |fses| && InPass(passno) && Room()
        invariant before <= log && Statuses(log) == Statuses(before) && Later(before, log)
        invariant old(cancelRequested) ==> cancelRequested
        invariant passDone ==> Left(done, i, passno) && (!notDoneYet ==> AllDone(done, i))
        invariant notDoneYet ==> passno < Highest(fses)
        invariant NoneJoins(done, instances, passno, i)
        invariant |before| <= |log| && forall k :: |before| <= k < |log| ==> log[k].Started?
        invariant Undone(done) <= Undone(old(done))
                && (Undone(done) == Undone(old(done)) ==> instances == old(instances))
        invariant !passDone && Undone(done) == Undone(old(done)) ==> instances != []
      {
        var cancelled := Cancelled();
        if cancelled { break; }
        PassParts(passno);
        ghost var done0, list0 := done, instances;
        if done[i] {
        } else if fses[i].passno > passno {
          notDoneYet := true;
          HighestAtLeast(fses, i);
        } else {
          var active := DeviceAlreadyActive(i);
          if active {
            BlockedBySome(instances, i);
            passDone := false;
          } else {
            ghost var mid := log;
            StartOne(i, passno);
            LaterOne(before, mid, log, Start(i, passno));
            if opts.serialize || (opts.maxRunning != 0 && numRunning >= opts.maxRunning) {
              passDone := false;
              NowAtMaximum();
              break;
            }
            RoomLeft();
          }
        }
        OneMore(done0, done, i, passno);
        NoneJoinsNext(done0, list0, done, instances, passno, i);
        i := i + 1;
      }
    }

    // ----- all passes

    /** No check is running, or one of those that were has ended. */
    lemma {:induction false} RoomAgain(n: nat)
      requires Steady() && |instances| <= n && (n > 0 ==> |instances| < n)
      requires (opts.maxRunning > 0 ==> n <= opts.maxRunning) && (opts.serialize ==> n <= 1)
      ensures Room()
    {
      hide Steady;
    }

    lemma {:induction false} Limits()
      requires Steady()
      ensures (opts.maxRunning > 0 ==> |instances| <= opts.maxRunning) && (opts.serialize ==> |instances| <= 1)
    {
      hide Live, Starts, Apart, OnePass;
      assert |multiset(instances)| == |instances|;
    }

    /** After waiting, the pass goes on. */
    lemma {:induction false} PassOn(before: seq<Event>, list: seq<nat>, passno: nat, next: nat)
      requires Steady() && OnlyExits(before, log) && multiset(list) == Live(before) && 1 <= passno <= next
      requires forall i :: 0 <= i < |done| ==> (done[i] <==> !Wanted(i) || IsStarted(Starts(before), i))
      requires forall i :: 0 <= i < |done| && !done[i] ==> next <= Pass(i)
      requires (forall f :: f in list ==> Pass(f) == passno) && (next == passno || instances == [])
      requires forall k :: 0 <= k < |Starts(before)| ==> Starts(before)[k].pass <= passno
      ensures InPass(next)
    {
      hide Starts, Failures, AlwaysAllowed, InOrder, IsStarted, Wanted, Pass;
      Parts();
      forall f | f in instances ensures Pass(f) == next {
        assert f in multiset(instances) && f in Live(before);
      }
    }

    /** wait_many at the end of a pass, or of a part of it. */
    method WaitPass(passno: nat, passDone: bool) returns (status: nat)
      requires InPass(passno) && (passDone ==> Left(done, |fses|, passno))
      modifies this`instances, this`numRunning, this`log
      ensures InPass(if passDone then passno + 1 else passno) && Room() && (passDone ==> instances == [])
      ensures JustWaited(old(log), log) && OnlyExits(old(log), log)
      ensures Statuses(log) == BitOr(Statuses(old(log)), status)
      ensures old(instances) != [] ==> |instances| < |old(instances)|
    {
      hide *;
      PassParts(passno);
      Parts();
      Limits();
      ghost var before, list := log, instances;
      status := WaitMany(!passDone);
      RoomAgain(|list|);
      if passDone { LeftLater(done, passno); }
      PassOn(before, list, passno, if passDone then passno + 1 else passno);
    }

    lemma {:induction false} LeftLater(done: seq<bool>, passno: nat)
      requires Left(done, |fses|, passno)
      ensures forall i :: 0 <= i < |done| && !done[i] ==> passno + 1 <= Pass(i)
    {
    }

    // ----- the whole of check_all

    /** The first file system from k on that is mounted on the root. */
    function FirstRoot(k: nat): (r: nat)
      requires k <= |fses|
      ensures k <= r <= |fses| && (r < |fses| ==> fses[r].root) && forall i :: k <= i < r ==> !fses[i].root
      decreases |fses| - k
    {
      if k == |fses| || fses[k].root then k else FirstRoot(k + 1)
    }

    /** What is started before the first pass. */
    function RootStarts(): seq<Start> {
      var r := FirstRoot(0);
      if opts.parallelRoot || opts.skipRoot || r == |fses| || Ignored(r) then [] else [Start(r, 0)]
    }

    /** The initial scan: file systems that are ignored count as done. */
    method ScanAll()
      requires Steady()
      modifies this`done
      ensures Steady() && |done| == |old(done)|
      ensures forall i :: 0 <= i < |done| ==> done[i] == (old(done)[i] || Ignored(i))
    {
      hide Live, Starts, Failures, AlwaysAllowed, InOrder, IsStarted;
      for i := 0 to |fses|
        invariant |done| == |fses|
        invariant forall j :: 0 <= j < |fses| ==> done[j] == (old(done)[j] || (j < i && Ignored(j)))
      {
        if Ignored(i) { done := done[i := true]; }
      }
    }

    /** Skipping the root skips all its entries. */
    method SkipRoots()
      requires Steady()
      modifies this`done
      ensures Steady() && |done| == |old(done)|
      ensures forall i :: 0 <= i < |done| ==> done[i] == (old(done)[i] || fses[i].root)
    {
      hide Live, Starts, Failures, AlwaysAllowed, InOrder, IsStarted;
      for i := 0 to |fses|
        invariant |done| == |fses|
        invariant forall j :: 0 <= j < |fses| ==> done[j] == (old(done)[j] || (j < i && fses[j].root))
      {
        if fses[i].root { done := done[i := true]; }
      }
    }

    /** Finds the root and checks it alone. */
    method CheckRoot() returns (status: nat, failed: bool)
      requires Steady() && log == [] && instances == []
      requires forall i :: 0 <= i < |done| ==> done[i] == Ignored(i)
      modifies this`done, this`instances, this`numRunning, this`log
      ensures Steady() && instances == [] && status == Statuses(log) && Starts(log) == RootStarts()
      ensures Live(log) == multiset{}
      ensures failed <==> status > EXIT_NONDESTRUCT
      ensures !failed && !opts.skipRoot ==>
                forall i :: 0 <= i < |done| ==> done[i] == (Ignored(i) || IsStarted(Starts(log), i))
      ensures !failed && opts.skipRoot ==>
                forall i :: 0 <= i < |done| ==> (Ignored(i) ==> done[i]) && (done[i] ==> Ignored(i) || fses[i].root)
    {
      hide Live, Starts, Failures, Statuses, AlwaysAllowed, InOrder, IsStarted, Steady, OnlyExits, Ignored, Allowed;
      NothingYet();
      Parts();
      status, failed := 0, false;
      if !opts.parallelRoot {
        var i := 0;
        while i < |fses| && !fses[i].root
          invariant 0 <= i <= |fses| && FirstRoot(0) == FirstRoot(i)
        {
          i := i + 1;
        }
        if i < |fses| {
          if !opts.skipRoot && !Ignored(i) {
            RootAllowed(i);
            FsckDevice(i, 0);
            ghost var mid := log;
            status := WaitMany(false);
            BitOrZeroLeft(status);
            ExitsKeep(mid, log);
            OneStarted(i);
            Parts();
            if status > EXIT_NONDESTRUCT { return status, true; }
          }
          Parts();
          done := done[i := true];
          Whole();
        }
      }
    }

    static lemma {:induction false} NothingYet()
      ensures Starts([]) == [] && Statuses([]) == 0 && Live([]) == multiset{} && forall i :: !IsStarted([], i)
    {
    }

    static lemma {:induction false} OneStarted(i: nat)
      ensures [] + [Start(i, 0)] == [Start(i, 0)] && forall j :: IsStarted([Start(i, 0)], j) <==> j == i
    {
      assert [Start(i, 0)][0].fs == i;
    }

    lemma {:induction false} ExitsKeep(before: seq<Event>, after: seq<Event>)
      requires OnlyExits(before, after)
      ensures Starts(after) == Starts(before) && Live(after) <= Live(before)
    {
      hide Live, Starts, Failures;
    }

    lemma {:induction false} RootAllowed(i: nat)
      requires i < |fses| && !opts.skipRoot && !Ignored(i)
      ensures Allowed(Live([]) + multiset{i}) && InOrder(Starts([]) + [Start(i, 0)])
    {
      hide Pass;
      assert Live([]) + multiset{i} == multiset{i};
      assert |multiset{i}| == 1;
    }

    /** check_all: the status is the or of all exit codes; rooted events belong to the check of the root. */
    method CheckAll() returns (status: nat, ghost rooted: nat)
      requires Steady() && log == [] && done == seq(|fses|, i => false) && !cancelRequested
      modifies this
      ensures Steady() && status == Statuses(log) && rooted <= |log| && InOrder(Starts(log))
      ensures forall n :: 0 <= n <= |log| ==> Allowed(Live(log[..n]))
      ensures Awaited(log) && (!cancelRequested ==> Eager(log, rooted))
      ensures Starts(log[..rooted]) == RootStarts() && Live(log[..rooted]) == multiset{}
      ensures forall k :: |RootStarts()| <= k < |Starts(log)| ==> Starts(log)[k].pass >= 1
      ensures Statuses(log[..rooted]) > EXIT_NONDESTRUCT ==> rooted == |log|
      ensures Statuses(log[..rooted]) <= EXIT_NONDESTRUCT && !cancelRequested ==>
                Live(log) == multiset{} && forall i :: Wanted(i) <==> IsStarted(Starts(log), i)
    {
      hide *;
      NothingYet();
      Parts();
      NoInstances();
      ScanAll();
      var failed;
      status, failed := CheckRoot();
      ghost var root := log;
      rooted := |log|;
      assert root[..rooted] == root;
      LaterSame(root, root, root);
      EagerYet(root);
      if failed {
        Over(root);
        return;
      }
      Parts();
      if opts.skipRoot { SkipRoots(); }
      Begin();
      var notDoneYet, passno := true, 1;
      while notDoneYet
        invariant InPass(passno) && Room() && root <= log && status == Statuses(log) && Later(root, log)
        invariant Eager(log, rooted)
        invariant !notDoneYet ==> AllDone(done, |fses|) && instances == []
        decreases notDoneYet, Undone(done), Highest(fses) - passno, |instances|
      {
        ghost var first := log;
        var passDone;
        passDone, notDoneYet := StartPass(passno);
        LaterAgain(root, first, log);
        EagerStarts(first, log, rooted);
        var cancelled := Cancelled();
        if cancelled { break; }
        NowFull(passno);
        ghost var mid := log;
        var more := WaitPass(passno, passDone);
        WaitedLonger(mid, log);
        EagerWait(mid, log, rooted);
        LaterSame(root, mid, log);
        ExitsKeep(mid, log);
        status := BitOr(status, more);
        if passDone {
          passno := passno + 1;
        } else {
          notDoneYet := true;
        }
      }
      PassParts(passno);
      if !cancelRequested {
        AllStarted(passno);
        NoneDue();
      }
      ghost var mid := log;
      var more := WaitMany(true);
      WaitedLonger(mid, log);
      if !cancelRequested { EagerWait(mid, log, rooted); }
      status := BitOr(status, more);
      ExitsKeep(mid, log);
      LaterSame(root, mid, log);
      Over(root);
    }

    static lemma {:induction false} WaitedLonger(before: seq<Event>, after: seq<Event>)
      requires JustWaited(before, after)
      ensures before <= after
    {
    }

    lemma {:induction false} NoneDue()
      requires forall i :: Wanted(i) <==> IsStarted(Starts(log), i)
      ensures Full(log)
    {
      hide Live, Starts, Failures, Wanted, IsStarted, Apart;
    }

    lemma {:induction false} NoInstances()
      requires multiset(instances) == multiset{} && done == seq(|fses|, i => false)
      ensures instances == [] && forall i :: 0 <= i < |done| ==> !done[i]
    {
      assert |instances| == |multiset(instances)| == 0;
    }

    /** After the initial scan and the check of the root the first pass begins. */
    lemma {:induction false} Begin()
      requires Steady() && instances == [] && Starts(log) == RootStarts()
      requires !opts.skipRoot ==>
                 forall i :: 0 <= i < |done| ==> done[i] == (Ignored(i) || IsStarted(Starts(log), i))
      requires opts.skipRoot ==> forall i :: 0 <= i < |done| ==> done[i] == (Ignored(i) || fses[i].root)
      ensures InPass(1) && Room()
    {
      hide Live, Starts, Failures, AlwaysAllowed;
      Parts();
    }

    lemma {:induction false} AllStarted(passno: nat)
      requires InPass(passno) && AllDone(done, |fses|)
      ensures forall i :: Wanted(i) <==> IsStarted(Starts(log), i)
    {
      hide Live, Starts, Failures, AlwaysAllowed, Ignored;
      Parts();
    }

    /** What the history tells in the end. */
    lemma {:induction false} Over(root: seq<Event>)
      requires Steady() && root <= log && Later(root, log)
      ensures log[..|root|] == root && InOrder(Starts(log)) && Awaited(log)
      ensures instances == [] ==> Live(log) == multiset{}
      ensures forall n :: 0 <= n <= |log| ==> Allowed(Live(log[..n]))
      ensures forall k :: |Starts(root)| <= k < |Starts(log)| ==> Starts(log)[k].pass >= 1
    {
      hide Live, Starts, Failures, Allowed;
      AllAllowed(log);
    }

    lemma {:induction false} AllAllowed(log: seq<Event>)
      requires AlwaysAllowed(log)
      ensures forall n :: 0 <= n <= |log| ==> Allowed(Live(log[..n]))
    {
      hide Live, Allowed;
      assert log[..|log|] == log;
      if log != [] {
        var init := log[..|log| - 1];
        AllAllowed(init);
        forall n | 0 <= n < |log| ensures Allowed(Live(log[..n])) { assert init[..n] == log[..n]; }
      }
    }
  }
}
