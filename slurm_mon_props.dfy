/** What one run of `monitor_nodes` (cogs/slurm_mon.py) promises, stated on
    the `Cycle` function that `SlurmMon.MonitorNodes` is proved to follow:
    the edge-triggered heartbeat, the free-node alert, the lost alert when an
    `int()` raises, the job-completion messages, and what a raise keeps. */
module SlurmMonProps {
  import opened Text
  import opened PyDict
  import Session
  import opened SlurmClient
  import opened AnalyticsCog
  import opened SlurmMonCog

  // ---------------------------------------------------------------- the outbox only grows

  /** `b` is what the channel had held before `a`. */
  predicate Extends(a: seq<Message>, b: seq<Message>) {
    |b| <= |a| && a[..|b|] == b
  }

  /** The messages a step added to what the channel held in `m`. */
  function Added(r: Step, m: Mon): (msgs: seq<Message>)
    requires Extends(r.mon.outbox, m.outbox)
    ensures r.mon.outbox == m.outbox + msgs
  {
    r.mon.outbox[|m.outbox|..]
  }

  /** Only alerts and job reports, no heartbeat message. */
  predicate OnlyReports(msgs: seq<Message>) {
    forall i :: 0 <= i < |msgs| ==> msgs[i].NewResources? || msgs[i].JobFinished?
  }

  /** Only job reports. */
  predicate OnlyJobReports(msgs: seq<Message>) {
    forall i :: 0 <= i < |msgs| ==> msgs[i].JobFinished?
  }

  lemma ExtendsTrans(a: seq<Message>, b: seq<Message>, c: seq<Message>)
    requires Extends(a, b) && Extends(b, c)
    ensures Extends(a, c)
  {
    assert a[..|c|] == a[..|b|][..|c|];
  }

  /** Delivering a message adds at most that message. */
  lemma DeliverAdds(s: Step, msg: Message, p: Poll)
    ensures var r := Deliver(s, msg, p);
      Extends(r.mon.outbox, s.mon.outbox)
      && r.mon.outbox[|s.mon.outbox|..] == (if p.sendOk(s.sends) then [msg] else [])
  {
    var r := Deliver(s, msg, p);
    if p.sendOk(s.sends) {
      assert r.mon.outbox == s.mon.outbox + [msg];
    } else {
      assert r.mon.outbox == s.mon.outbox;
    }
  }

  /** The completion messages for `order`, in order. */
  function JobMessages(jobs: map<string, Job>, order: seq<string>): (msgs: seq<Message>)
    requires forall j :: j in order ==> j in jobs
    ensures |msgs| == |order|
    ensures forall i :: 0 <= i < |order| ==> msgs[i] == JobFinished(order[i], jobs[order[i]])
  {
    seq(|order|, i requires 0 <= i < |order| => JobFinished(order[i], jobs[order[i]]))
  }

  /** How many of the `n` sends from the `from`-th on return before one raises. */
  function OkRun(p: Poll, from: nat, n: nat): (k: nat)
    ensures k <= n
    ensures forall j :: from <= j < from + k ==> p.sendOk(j)
    ensures k < n ==> !p.sendOk(from + k)
    decreases n
  {
    if n == 0 || !p.sendOk(from) then 0 else 1 + OkRun(p, from + 1, n - 1)
  }

  /** One send more: the run grows only if all earlier sends returned. */
  lemma {:induction false} OkRunSnoc(p: Poll, from: nat, n: nat)
    ensures OkRun(p, from, n + 1) ==
              if OkRun(p, from, n) == n && p.sendOk(from + n) then n + 1 else OkRun(p, from, n)
    decreases n
  {
    if n > 0 && p.sendOk(from) {
      OkRunSnoc(p, from + 1, n - 1);
    }
  }

  /** `Announce` in closed form: the messages for the jobs whose sends returned,
      in order, up to the first send that raises, which ends the loop. */
  lemma {:induction false} AnnounceSends(s: Step, jobs: map<string, Job>, order: seq<string>, p: Poll)
    requires forall j :: j in order ==> j in jobs
    requires s.flow == Running
    ensures var r := Announce(s, jobs, order, p);
      AnnouncedUpTo(s, r, jobs, order, OkRun(p, s.sends, |order|))
  {
    if |order| > 0 {
      var n := |order| - 1;
      var pre, last := order[..n], order[n];
      assert pre + [last] == order;
      assert forall j :: j in pre ==> j in order;
      AnnounceSends(s, jobs, pre, p);
      AnnounceStep(s, jobs, pre, last, p);
      OneMoreAnnounced(s, Announce(s, jobs, pre, p), jobs, pre, last, p);
    }
  }

  /** `r` holds what announcing the first `k` of `order` adds to `s`; the loop
      is still running exactly when all of `order` was announced. */
  predicate AnnouncedUpTo(s: Step, r: Step, jobs: map<string, Job>, order: seq<string>, k: nat)
    requires forall j :: j in order ==> j in jobs
    requires k <= |order|
  {
    && r.mon.outbox == s.mon.outbox + JobMessages(jobs, order[..k])
    && r.sends == s.sends + k
    && (r.flow == Running <==> k == |order|)
  }

  /** The inductive step of `AnnounceSends`. */
  lemma OneMoreAnnounced(s: Step, s0: Step, jobs: map<string, Job>, pre: seq<string>, last: string, p: Poll)
    requires forall j :: j in pre + [last] ==> j in jobs
    requires AnnouncedUpTo(s, s0, jobs, pre, OkRun(p, s.sends, |pre|))
    requires s0.flow == Running || s0.flow == Raised
    ensures var r := if s0.flow.Running? then Deliver(s0, JobFinished(last, jobs[last]), p) else s0;
      AnnouncedUpTo(s, r, jobs, pre + [last], OkRun(p, s.sends, |pre| + 1))
  {
    var n := |pre|;
    OkRunSnoc(p, s.sends, n);
    var k0 := OkRun(p, s.sends, n);
    if k0 < n {
      assert s0.flow == Raised && OkRun(p, s.sends, n + 1) == k0;
      AnnounceStopped(s, s0, jobs, pre, last, k0);
    } else {
      assert s0.flow == Running && s0.sends == s.sends + n;
      assert OkRun(p, s.sends, n + 1) == if p.sendOk(s0.sends) then n + 1 else n;
      AnnounceOneMore(s, s0, jobs, pre, last, p);
    }
  }

  /** Once a send has raised, the later jobs are not announced. */
  lemma AnnounceStopped(s: Step, s0: Step, jobs: map<string, Job>, pre: seq<string>, last: string, k: nat)
    requires forall j :: j in pre + [last] ==> j in jobs
    requires k < |pre| && AnnouncedUpTo(s, s0, jobs, pre, k)
    ensures AnnouncedUpTo(s, s0, jobs, pre + [last], k)
  {
    assert (pre + [last])[..k] == pre[..k];
  }

  /** With every earlier job announced, the next send decides whether `last` is. */
  lemma AnnounceOneMore(s: Step, s0: Step, jobs: map<string, Job>, pre: seq<string>, last: string, p: Poll)
    requires forall j :: j in pre + [last] ==> j in jobs
    requires AnnouncedUpTo(s, s0, jobs, pre, |pre|)
    ensures var r := Deliver(s0, JobFinished(last, jobs[last]), p);
      AnnouncedUpTo(s, r, jobs, pre + [last], if p.sendOk(s0.sends) then |pre| + 1 else |pre|)
  {
    var order := pre + [last];
    var msg := JobFinished(last, jobs[last]);
    var r := Deliver(s0, msg, p);
    if p.sendOk(s0.sends) {
      assert r.mon.outbox == s0.mon.outbox + [msg];
      assert order[..|pre| + 1] == order && pre[..|pre|] == pre;
      assert JobMessages(jobs, order) == JobMessages(jobs, pre) + [msg];
    } else {
      assert r == s0.(flow := Raised);
      assert order[..|pre|] == pre[..|pre|];
    }
  }

  // ---------------------------------------------------------------- step 3: finished jobs

  /** Step 3 in closed form: the finished jobs are announced in `order` with the
      records tracked before the cycle; if every send returns, the tracked jobs
      become the current ones and are saved (when the file opens), otherwise a
      send raised and neither the tracked jobs nor the saved file change. */
  lemma JobPhaseSpec(s: Step, p: Poll, order: seq<string>)
    requires forall j :: j in order ==> j in s.mon.jobs
    requires s.flow == Running
    ensures var r, k := JobPhase(s, p, order), OkRun(p, s.sends, |order|);
      && r.mon.outbox == s.mon.outbox + JobMessages(s.mon.jobs, order[..k])
      && r.mon.prevFree == s.mon.prevFree && r.mon.online == s.mon.online && r.logged == s.logged
      && (k == |order| ==>
            r.flow == Running && r.mon.jobs == CurrentJobs(p)
            && r.mon.stateFile == (if p.stateWritable then Some(CurrentJobs(p)) else s.mon.stateFile))
      && (k < |order| ==> r.flow == Raised && r.mon.jobs == s.mon.jobs && r.mon.stateFile == s.mon.stateFile)
  {
    AnnounceSends(s, s.mon.jobs, order, p);
  }

  /** When `squeue` fails or cannot be reached, every tracked job counts as finished. */
  lemma FailedJobQueryFinishesAll(jobs: map<string, Job>, p: Poll)
    requires !Succeeded(p.userJobs)
    ensures Completed(jobs, CurrentJobs(p)) == jobs.Keys
  {
  }

  // ---------------------------------------------------------------- step 2: free nodes

  /** An alert names exactly the nodes that became free, each once, in sorted order. */
  lemma AlertNamesNewlyFree(p: Poll, nodes: Dict<string, NodeInfo>, newly: set<string>)
    requires forall n :: n in newly ==> n in nodes.entries
    requires AlertMessage(p, nodes, newly).Some?
    ensures var ns := AlertMessage(p, nodes, newly).value.nodes;
      && (forall n :: n in newly <==> exists i :: 0 <= i < |ns| && ns[i].name == n)
      && (forall i, j :: 0 <= i < j < |ns| ==> StrLess(ns[i].name, ns[j].name))
  {
    var ns := AlertMessage(p, nodes, newly).value.nodes;
    var names := SortedNames(newly);
    forall n | n in newly ensures exists i :: 0 <= i < |ns| && ns[i].name == n {
      var i :| 0 <= i < |names| && names[i] == n;
      assert ns[i].name == n;
    }
  }

  /** If `int()` raises on any newly free node's data, no alert goes out and the
      cycle ends in the handler, but the free set has already been replaced, so
      those nodes are not announced by a later cycle either. */
  lemma EnrichRaiseLosesAlert(s: Step, p: Poll, nodes: Dict<string, NodeInfo>, bad: string)
    requires nodes.Valid()
    requires bad in FreeSet(nodes) - s.mon.prevFree
    requires !EnrichOk(bad, nodes.entries, p.free, FallbackOf(p))
    ensures FreePhase(s, p, nodes) == s.(mon := s.mon.(prevFree := FreeSet(nodes)), flow := Raised)
  {
    var newly := FreeSet(nodes) - s.mon.prevFree;
    var names := SortedNames(newly);
    EnrichAllOk(names, nodes.entries, p.free, FallbackOf(p));
    var i :| 0 <= i < |names| && names[i] == bad;
    assert !EnrichOk(names[i], nodes.entries, p.free, FallbackOf(p));
    assert AlertMessage(p, nodes, newly).None?;
  }

  /** A free set that is already known produces no alert. */
  lemma FreePhaseSteady(s: Step, p: Poll, nodes: Dict<string, NodeInfo>)
    requires nodes.Valid() && FreeSet(nodes) <= s.mon.prevFree
    ensures FreePhase(s, p, nodes) == s.(mon := s.mon.(prevFree := FreeSet(nodes)))
  {
    assert FreeSet(nodes) - s.mon.prevFree == {};
  }

  /** Step 2 adds at most one message, an alert. */
  lemma NodePhaseAdds(s: Step, p: Poll, analyticsLoaded: bool)
    ensures var r := NodePhase(s, p, analyticsLoaded);
      Extends(r.mon.outbox, s.mon.outbox) && |r.mon.outbox| <= |s.mon.outbox| + 1
      && (|r.mon.outbox| > |s.mon.outbox| ==> r.mon.outbox[|s.mon.outbox|].NewResources?)
  {
    var nodes := NodesOf(p);
    var r := NodePhase(s, p, analyticsLoaded);
    if nodes.IsEmpty() || analyticsLoaded {
      assert r.mon.outbox == s.mon.outbox;
    } else {
      assert r == FreePhase(s, p, nodes);
      FreePhaseAdds(s, p, nodes);
    }
  }

  lemma FreePhaseAdds(s: Step, p: Poll, nodes: Dict<string, NodeInfo>)
    requires nodes.Valid()
    ensures var r := FreePhase(s, p, nodes);
      Extends(r.mon.outbox, s.mon.outbox) && |r.mon.outbox| <= |s.mon.outbox| + 1
      && (|r.mon.outbox| > |s.mon.outbox| ==> r.mon.outbox[|s.mon.outbox|].NewResources?)
  {
    var free := FreeSet(nodes);
    var newly := free - s.mon.prevFree;
    var s1 := s.(mon := s.mon.(prevFree := free));
    var r := FreePhase(s, p, nodes);
    if newly == {} {
      assert r == s1;
    } else {
      assert r == AlertNew(s1, p, nodes, newly);
      match AlertMessage(p, nodes, newly)
      case None =>
        assert r == s1.(flow := Raised);
      case Some(msg) =>
        assert r == Deliver(s1, msg, p);
        DeliverAdds(s1, msg, p);
    }
  }

  // ---------------------------------------------------------------- one cycle

  /** Without the alert channel the cycle returns at once and changes nothing. */
  lemma CycleNoChannel(m: Mon, p: Poll, analyticsLoaded: bool)
    requires !p.channelFound
    ensures Cycle(m, p, analyticsLoaded, []) == Step(m, Returned, 0, None)
  {
  }

  /** An unreachable cluster: `ClusterUnreachable` is posted only if the cluster
      was online before, the cog marks it offline, and the cycle returns without
      looking at nodes or jobs. */
  lemma CycleUnreachable(m: Mon, p: Poll, analyticsLoaded: bool)
    requires p.channelFound && !p.reachable
    ensures var r := Cycle(m, p, analyticsLoaded, []);
      && r.mon == m.(online := false,
                     outbox := m.outbox + if m.online && p.sendOk(0) then [ClusterUnreachable] else [])
      && r.flow == (if m.online && !p.sendOk(0) then Raised else Returned)
      && r.logged == None
  {
  }

  /** The heartbeat is edge-triggered: across consecutive unreachable cycles the
      channel hears about it at most once. */
  lemma UnreachableAnnouncedOnce(m: Mon, p1: Poll, p2: Poll, a1: bool, a2: bool)
    requires p1.channelFound && !p1.reachable && p2.channelFound && !p2.reachable
    ensures var r1 := Cycle(m, p1, a1, []);
      Cycle(r1.mon, p2, a2, []).mon == r1.mon
  {
    CycleUnreachable(m, p1, a1);
    var r1 := Cycle(m, p1, a1, []);
    CycleUnreachable(r1.mon, p2, a2);
  }

  /** The first reachable cycle after an outage marks the cluster online and, if
      the send returns, posts `ConnectionRestored` before anything else. */
  lemma CycleRestored(m: Mon, p: Poll, analyticsLoaded: bool, order: seq<string>)
    requires forall j :: j in order ==> j in m.jobs
    requires p.channelFound && p.reachable && !m.online
    ensures var r := Cycle(m, p, analyticsLoaded, order);
      && r.mon.online
      && (p.sendOk(0) ==> Extends(r.mon.outbox, m.outbox + [ConnectionRestored]))
      && (!p.sendOk(0) ==> r == Step(m.(online := true), Raised, 0, None))
  {
    var s1 := Heartbeat(Step(m, Running, 0, None), p);
    if p.sendOk(0) {
      assert s1 == Step(m.(online := true, outbox := m.outbox + [ConnectionRestored]), Running, 1, None);
      CycleAfterHeartbeat(m, p, analyticsLoaded, order, s1);
    }
  }

  /** Steps 2 and 3 only extend what the heartbeat posted. */
  lemma CycleAfterHeartbeat(m: Mon, p: Poll, analyticsLoaded: bool, order: seq<string>, s1: Step)
    requires forall j :: j in order ==> j in m.jobs
    requires p.channelFound && s1 == Heartbeat(Step(m, Running, 0, None), p) && s1.flow == Running
    ensures var r := Cycle(m, p, analyticsLoaded, order);
      Extends(r.mon.outbox, s1.mon.outbox) && r.mon.online == s1.mon.online
  {
    var s2 := NodePhase(s1, p, analyticsLoaded);
    NodePhaseAdds(s1, p, analyticsLoaded);
    if s2.flow.Running? && p.trackJobs {
      JobPhaseSpec(s2, p, order);
      var r := JobPhase(s2, p, order);
      assert Extends(r.mon.outbox, s2.mon.outbox);
      ExtendsTrans(r.mon.outbox, s2.mon.outbox, s1.mon.outbox);
    }
  }

  /** While the cluster stays online the heartbeat posts nothing: whatever the
      cycle adds is alerts and job reports. */
  lemma CycleOnlineQuiet(m: Mon, p: Poll, analyticsLoaded: bool, order: seq<string>)
    requires forall j :: j in order ==> j in m.jobs
    requires p.channelFound && p.reachable && m.online
    ensures var r := Cycle(m, p, analyticsLoaded, order);
      r.mon.online && Extends(r.mon.outbox, m.outbox) && OnlyReports(Added(r, m))
  {
    var s1 := Step(m, Running, 0, None);
    assert Heartbeat(s1, p) == s1;
    var s2 := NodePhase(s1, p, analyticsLoaded);
    assert UpToJobs(m, p, analyticsLoaded) == s2;
    NodePhaseAdds(s1, p, analyticsLoaded);
    JobPhaseOnlyReports(m, p, analyticsLoaded, order);
    var r := Cycle(m, p, analyticsLoaded, order);
    ReportsConcat(r.mon.outbox, s2.mon.outbox, m.outbox);
  }

  /** Step 3 adds job reports only, and leaves `is_cluster_online` alone. */
  lemma JobPhaseOnlyReports(m: Mon, p: Poll, analyticsLoaded: bool, order: seq<string>)
    requires forall j :: j in order ==> j in m.jobs
    ensures var s2, r := UpToJobs(m, p, analyticsLoaded), Cycle(m, p, analyticsLoaded, order);
      && Extends(r.mon.outbox, s2.mon.outbox) && r.mon.online == s2.mon.online
      && OnlyJobReports(r.mon.outbox[|s2.mon.outbox|..])
  {
    var s2 := UpToJobs(m, p, analyticsLoaded);
    var r := Cycle(m, p, analyticsLoaded, order);
    if s2.flow.Running? && p.trackJobs {
      CycleJobs(m, p, analyticsLoaded, order);
      JobPhaseAddsReports(s2, p, order);
    } else {
      assert r == s2;
      assert r.mon.outbox[|s2.mon.outbox|..] == [];
    }
  }

  lemma JobPhaseAddsReports(s: Step, p: Poll, order: seq<string>)
    requires forall j :: j in order ==> j in s.mon.jobs
    requires s.flow == Running
    ensures var r := JobPhase(s, p, order);
      && Extends(r.mon.outbox, s.mon.outbox) && r.mon.online == s.mon.online
      && OnlyJobReports(r.mon.outbox[|s.mon.outbox|..])
  {
    JobPhaseSpec(s, p, order);
    var r := JobPhase(s, p, order);
    var jm := JobMessages(s.mon.jobs, order[..OkRun(p, s.sends, |order|)]);
    assert r.mon.outbox == s.mon.outbox + jm;
    assert r.mon.outbox[|s.mon.outbox|..] == jm;
  }

  /** At most one alert followed by job reports is only reports. */
  lemma ReportsConcat(c: seq<Message>, b: seq<Message>, a: seq<Message>)
    requires Extends(c, b) && Extends(b, a) && |b| <= |a| + 1
    requires |b| > |a| ==> b[|a|].NewResources?
    requires OnlyJobReports(c[|b|..])
    ensures Extends(c, a) && OnlyReports(c[|a|..])
  {
    ExtendsTrans(c, b, a);
    forall i | |a| <= i < |c| ensures c[i].NewResources? || c[i].JobFinished? {
      if i >= |b| {
        assert c[|b|..][i - |b|] == c[i];
      } else {
        assert c[i] == b[i];
      }
    }
    assert forall i :: 0 <= i < |c| - |a| ==> c[|a|..][i] == c[|a| + i];
  }

  /** Whether the heartbeat lets the cycle go on to step 2. */
  predicate HeartbeatPasses(m: Mon, p: Poll) {
    p.channelFound && p.reachable && (m.online || p.sendOk(0))
  }

  lemma HeartbeatPassesSpec(m: Mon, p: Poll)
    requires HeartbeatPasses(m, p)
    ensures var s1 := Heartbeat(Step(m, Running, 0, None), p);
      && s1.flow == Running && s1.mon.prevFree == m.prevFree && s1.mon.online
      && s1.mon.outbox == m.outbox + (if m.online then [] else [ConnectionRestored])
      && s1.sends == |s1.mon.outbox| - |m.outbox| && s1.logged == None
  {
  }

  /** An empty `sinfo` reply (or none) leaves the free set alone and brings no alert. */
  lemma CycleEmptyNodes(m: Mon, p: Poll, analyticsLoaded: bool)
    requires HeartbeatPasses(m, p) && NodesOf(p).IsEmpty()
    ensures UpToJobs(m, p, analyticsLoaded) == Heartbeat(Step(m, Running, 0, None), p)
  {
  }

  /** With the Analytics cog loaded and nodes reported, `log_status` records the
      counts and the call to `log_node_states`, which the cog does not define,
      raises: the free set is not updated, no alert is posted, and step 3 is
      skipped. */
  lemma CycleAnalyticsLoaded(m: Mon, p: Poll, order: seq<string>)
    requires forall j :: j in order ==> j in m.jobs
    requires HeartbeatPasses(m, p) && !NodesOf(p).IsEmpty()
    ensures var r, s1, nodes := Cycle(m, p, true, order), Heartbeat(Step(m, Running, 0, None), p), NodesOf(p);
      r == s1.(flow := Raised, logged := Some(CountStates(nodes.order, nodes.entries)))
  {
  }

  /** Without the Analytics cog, once nodes are reported the free set becomes the
      current one, whatever happens to the alert. */
  lemma CycleFreeUpdated(m: Mon, p: Poll, order: seq<string>)
    requires forall j :: j in order ==> j in m.jobs
    requires HeartbeatPasses(m, p) && !NodesOf(p).IsEmpty()
    ensures Cycle(m, p, false, order).mon.prevFree == FreeSet(NodesOf(p))
  {
    var s2 := UpToJobs(m, p, false);
    assert s2.mon.prevFree == FreeSet(NodesOf(p));
    if s2.flow.Running? && p.trackJobs {
      JobPhaseSpec(s2, p, order);
    }
  }

  /** A cycle that finds no node newly free posts no alert. */
  lemma CycleSteadyNoAlert(m: Mon, p: Poll, order: seq<string>)
    requires forall j :: j in order ==> j in m.jobs
    requires HeartbeatPasses(m, p) && FreeSet(NodesOf(p)) <= m.prevFree
    ensures var r := Cycle(m, p, false, order);
      Extends(r.mon.outbox, m.outbox)
      && forall i :: |m.outbox| <= i < |r.mon.outbox| ==> !r.mon.outbox[i].NewResources?
  {
    var s1 := Heartbeat(Step(m, Running, 0, None), p);
    HeartbeatPassesSpec(m, p);
    var nodes := NodesOf(p);
    var s2 := NodePhase(s1, p, false);
    if !nodes.IsEmpty() {
      FreePhaseSteady(s1, p, nodes);
    }
    assert s2.mon.outbox == s1.mon.outbox;
    assert UpToJobs(m, p, false) == s2;
    JobPhaseOnlyReports(m, p, false, order);
    var r := Cycle(m, p, false, order);
    NoAlertAfter(r.mon.outbox, s1.mon.outbox, m.outbox);
  }

  lemma NoAlertAfter(c: seq<Message>, b: seq<Message>, a: seq<Message>)
    requires Extends(c, b) && (b == a || b == a + [ConnectionRestored])
    requires OnlyJobReports(c[|b|..])
    ensures Extends(c, a) && forall i :: |a| <= i < |c| ==> !c[i].NewResources?
  {
    assert Extends(b, a) by { assert b[..|a|] == a; }
    ExtendsTrans(c, b, a);
    forall i | |a| <= i < |c| ensures !c[i].NewResources? {
      if i >= |b| {
        assert c[|b|..][i - |b|] == c[i];
      } else {
        assert c[i] == b[i];
      }
    }
  }

  /** Two cycles that get the same `sinfo` reply: the second posts no alert. */
  lemma SameNodesTwiceNoAlert(m: Mon, p1: Poll, p2: Poll, o1: seq<string>, o2: seq<string>)
    requires forall j :: j in o1 ==> j in m.jobs
    requires HeartbeatPasses(m, p1) && !NodesOf(p1).IsEmpty()
    requires var r1 := Cycle(m, p1, false, o1);
      && HeartbeatPasses(r1.mon, p2) && NodesOf(p2) == NodesOf(p1)
      && forall j :: j in o2 ==> j in r1.mon.jobs
    ensures var r1 := Cycle(m, p1, false, o1);
      var r2 := Cycle(r1.mon, p2, false, o2);
      Extends(r2.mon.outbox, r1.mon.outbox)
      && forall i :: |r1.mon.outbox| <= i < |r2.mon.outbox| ==> !r2.mon.outbox[i].NewResources?
  {
    CycleFreeUpdated(m, p1, o1);
    CycleSteadyNoAlert(Cycle(m, p1, false, o1).mon, p2, o2);
  }

  /** Step 3 runs on the jobs tracked before the cycle: when steps 1 and 2 let it,
      the cycle is `JobPhase` on the step they left. */
  lemma CycleJobs(m: Mon, p: Poll, analyticsLoaded: bool, order: seq<string>)
    requires forall j :: j in order ==> j in m.jobs
    requires UpToJobs(m, p, analyticsLoaded).flow == Running && p.trackJobs
    ensures var s2 := UpToJobs(m, p, analyticsLoaded);
      s2.mon.jobs == m.jobs && Cycle(m, p, analyticsLoaded, order) == JobPhase(s2, p, order)
  {
  }

  // ---------------------------------------------------------------- enrichment

  /** When `free -m` reports the memory, the `RealMemory` and `AllocMem` of the
      `scontrol` record play no part: only its CPU keys matter. */
  lemma EnrichPrefersDirectMemory(name: string, basic: NodeInfo, mem: MemStats, fb: Record, fb': Record)
    requires mem.totalGb != 0.0
    requires Lookup(fb, "CPUTot", basic.cpus) == Lookup(fb', "CPUTot", basic.cpus)
    requires Lookup(fb, "CPUAlloc", "0") == Lookup(fb', "CPUAlloc", "0")
    ensures Enrich(name, basic, mem, fb) == Enrich(name, basic, mem, fb')
  {
  }

  /** With neither `free -m` figures nor an `scontrol` record, a node is shown
      with all its `sinfo` CPUs free and no memory; its CPU count must parse. */
  lemma EnrichDefaults(name: string, basic: NodeInfo, mem: MemStats)
    requires mem.totalGb == 0.0
    ensures Enrich(name, basic, mem, map[]) ==
              match ParseInt(basic.cpus)
              case None => None
              case Some(c) => Some(NodeSummary(name, basic.state, c, 0.0, 0.0))
  {
    ParseNatToString(0);
    assert NatToString(0) == "0";
  }
}
