/** The `SlurmMon` cog (cogs/slurm_mon.py): the monitoring cycle `monitor_nodes`
    and the three fields it carries from one cycle to the next
    (`previously_free_nodes`, `is_cluster_online`, `active_user_jobs`).

    One cycle reads the outside world through a `Poll`: the reply of every
    remote command it runs, whether the alert channel exists, whether each
    `channel.send` returns, and the date. A step that raises ends the cycle in
    the `except` handler at the bottom of `monitor_nodes`; the fields keep what
    they held at that point. */
module SlurmMonCog {
  import opened Text
  import opened PyDict
  import Session
  import opened SlurmClient
  import opened AnalyticsCog

  // ---------------------------------------------------------------- state counts

  datatype StateClass = IdleNode | MixedNode | AllocNode | DownNode

  /** The first-match test of the counting loop, on `state.lower().replace("*", "")`. */
  function CountClass(state: string): StateClass {
    var s := RemoveChar(Lower(state), '*');
    if Contains(s, "idle") then IdleNode
    else if Contains(s, "mixed") then MixedNode
    else if Contains(s, "alloc") then AllocNode
    else DownNode
  }

  function Tally(c: Counts, k: StateClass): Counts {
    match k
    case IdleNode => c.(idle := c.idle + 1)
    case MixedNode => c.(mixed := c.mixed + 1)
    case AllocNode => c.(alloc := c.alloc + 1)
    case DownNode => c.(down := c.down + 1)
  }

  /** `idle_c, mixed_c, alloc_c, down_c` after the loop over `names`. */
  function CountStates(names: seq<string>, nodes: map<string, NodeInfo>): (c: Counts)
    requires forall n :: n in names ==> n in nodes
    ensures c.idle + c.mixed + c.alloc + c.down == |names|
  {
    if |names| == 0 then Counts(0, 0, 0, 0)
    else Tally(CountStates(names[..|names| - 1], nodes), CountClass(nodes[names[|names| - 1]].state))
  }

  /** The class of each node, in order. */
  function ClassesOf(names: seq<string>, nodes: map<string, NodeInfo>): (r: seq<StateClass>)
    requires forall n :: n in names ==> n in nodes
    ensures |r| == |names|
    ensures forall i :: 0 <= i < |names| ==> r[i] == CountClass(nodes[names[i]].state)
  {
    if |names| == 0 then []
    else ClassesOf(names[..|names| - 1], nodes) + [CountClass(nodes[names[|names| - 1]].state)]
  }

  /** Each counter is the number of nodes of its class. */
  lemma {:induction false} CountStatesByClass(names: seq<string>, nodes: map<string, NodeInfo>)
    requires forall n :: n in names ==> n in nodes
    ensures var m := multiset(ClassesOf(names, nodes));
      CountStates(names, nodes) == Counts(m[IdleNode], m[MixedNode], m[AllocNode], m[DownNode])
  {
    if |names| > 0 {
      var pre := names[..|names| - 1];
      var k := CountClass(nodes[names[|names| - 1]].state);
      CountStatesByClass(pre, nodes);
      assert ClassesOf(names, nodes) == ClassesOf(pre, nodes) + [k];
      TallyAdds(multiset(ClassesOf(pre, nodes)), k);
    }
  }

  /** Tallying one more node of class `k` adds `k` to the multiset counted. */
  lemma TallyAdds(m: multiset<StateClass>, k: StateClass)
    ensures var m' := m + multiset{k};
      Tally(Counts(m[IdleNode], m[MixedNode], m[AllocNode], m[DownNode]), k)
        == Counts(m'[IdleNode], m'[MixedNode], m'[AllocNode], m'[DownNode])
  {
  }

  method TallyStates(nodes: Dict<string, NodeInfo>) returns (c: Counts)
    requires nodes.Valid()
    ensures c == CountStates(nodes.order, nodes.entries)
  {
    var idle, mixed, alloc, down := 0, 0, 0, 0;
    var i := 0;
    while i < |nodes.order|
      invariant i <= |nodes.order|
      invariant Counts(idle, mixed, alloc, down) == CountStates(nodes.order[..i], nodes.entries)
    {
      var s := RemoveChar(Lower(nodes.entries[nodes.order[i]].state), '*');
      if Contains(s, "idle") {
        idle := idle + 1;
      } else if Contains(s, "mixed") {
        mixed := mixed + 1;
      } else if Contains(s, "alloc") {
        alloc := alloc + 1;
      } else {
        down := down + 1;
      }
      assert nodes.order[..i + 1][..i] == nodes.order[..i];
      i := i + 1;
    }
    assert nodes.order[..i] == nodes.order;
    c := Counts(idle, mixed, alloc, down);
  }

  // ---------------------------------------------------------------- free nodes

  /** The test that builds `current_free_ids`: the lowercased state, `*` NOT
      removed, mentions "idle" or "mixed". */
  predicate IsFreeState(state: string) {
    Contains(Lower(state), "idle") || Contains(Lower(state), "mixed")
  }

  function FreeNames(names: seq<string>, nodes: map<string, NodeInfo>): (r: set<string>)
    requires forall n :: n in names ==> n in nodes
    ensures forall n :: n in r <==> n in names && IsFreeState(nodes[n].state)
  {
    if |names| == 0 then {}
    else
      var last := names[|names| - 1];
      FreeNames(names[..|names| - 1], nodes) + if IsFreeState(nodes[last].state) then {last} else {}
  }

  /** `current_free_ids` for a node dict. */
  function FreeSet(nodes: Dict<string, NodeInfo>): (r: set<string>)
    requires nodes.Valid()
    ensures forall n :: n in r <==> n in nodes.entries && IsFreeState(nodes.entries[n].state)
  {
    FreeNames(nodes.order, nodes.entries)
  }

  method FreeNodeSet(nodes: Dict<string, NodeInfo>) returns (free: set<string>)
    requires nodes.Valid()
    ensures free == FreeSet(nodes)
  {
    free := {};
    var i := 0;
    while i < |nodes.order|
      invariant i <= |nodes.order|
      invariant free == FreeNames(nodes.order[..i], nodes.entries)
    {
      var name := nodes.order[i];
      var st := Lower(nodes.entries[name].state);
      if Contains(st, "idle") || Contains(st, "mixed") {
        free := free + {name};
      }
      assert nodes.order[..i + 1][..i] == nodes.order[..i];
      i := i + 1;
    }
    assert nodes.order[..i] == nodes.order;
  }

  /** A node counted as free is counted as idle or mixed; for a state without `*`
      the converse holds too. */
  lemma FreeStateCounted(state: string)
    ensures IsFreeState(state) ==> CountClass(state) == IdleNode || CountClass(state) == MixedNode
    ensures '*' !in state && (CountClass(state) == IdleNode || CountClass(state) == MixedNode) ==> IsFreeState(state)
  {
    var low := Lower(state);
    if Contains(low, "idle") {
      RemoveCharKeepsSubstring(low, "idle", '*');
    } else if Contains(low, "mixed") {
      RemoveCharKeepsSubstring(low, "mixed", '*');
    }
    if '*' !in state {
      assert '*' !in low;
      RemoveCharAbsent(low, '*');
    }
  }

  /** `list(s)`: the elements of a set, in whatever order iteration yields them. */
  method ListOf(s: set<string>) returns (xs: seq<string>)
    ensures forall i, j :: 0 <= i < j < |xs| ==> xs[i] != xs[j]
    ensures forall x :: x in xs <==> x in s
  {
    xs := [];
    var rest := s;
    while rest != {}
      invariant rest <= s
      invariant forall i, j :: 0 <= i < j < |xs| ==> xs[i] != xs[j]
      invariant forall x :: x in xs <==> x in s && x !in rest
      decreases |rest|
    {
      var x :| x in rest;
      xs := xs + [x];
      rest := rest - {x};
    }
  }

  /** `sorted(list(s))` */
  method SortedList(s: set<string>) returns (r: seq<string>)
    ensures r == SortedNames(s)
  {
    var listed := ListOf(s);
    r := SortStrings(listed);
    assert forall x :: x in r <==> x in multiset(listed);
    StrictlySortedUnique(r, SortedNames(s));
  }

  // ---------------------------------------------------------------- enrichment

  /** One entry of `ai_node_data`, the data the alert summarises. */
  datatype NodeSummary = NodeSummary(name: string, state: string, freeCpu: int, freeRamGb: real, totalRamGb: real)

  /** `rec.get(k, default)` */
  function Lookup(rec: Record, k: string, default: string): string {
    if k in rec then rec[k] else default
  }

  /** One pass of the enrichment loop for a node with sinfo record `basic`, direct
      memory stats `mem` and scontrol record `fb`; `None` is the `ValueError` of an
      `int()`. CPUTot falls back to the sinfo CPU count and CPUAlloc to 0; when the
      direct total is 0 the total and free memory come from RealMemory and AllocMem
      (0 when missing), and used memory is left as it was. */
  function Enrich(name: string, basic: NodeInfo, mem: MemStats, fb: Record): (r: Option<NodeSummary>)
    ensures r.Some? ==> r.value.name == name && r.value.state == basic.state
  {
    var cpuTot := ParseInt(Lookup(fb, "CPUTot", basic.cpus));
    var cpuAlloc := ParseInt(Lookup(fb, "CPUAlloc", "0"));
    if cpuTot.None? || cpuAlloc.None? then None
    else if mem.totalGb == 0.0 then
      var realMem := ParseInt(Lookup(fb, "RealMemory", "0"));
      var allocMem := ParseInt(Lookup(fb, "AllocMem", "0"));
      if realMem.None? || allocMem.None? then None
      else Some(NodeSummary(name, basic.state, cpuTot.value - cpuAlloc.value,
                            Gb(realMem.value - allocMem.value), Gb(realMem.value)))
    else Some(NodeSummary(name, basic.state, cpuTot.value - cpuAlloc.value, mem.freeGb, mem.totalGb))
  }

  method EnrichNode(name: string, basic: NodeInfo, mem0: MemStats, fb: Record) returns (r: Option<NodeSummary>)
    ensures r == Enrich(name, basic, mem0, fb)
  {
    var mem := mem0;
    var cpuTot := ParseInt(Lookup(fb, "CPUTot", basic.cpus));
    if cpuTot.None? {
      return None;
    }
    var cpuAlloc := ParseInt(Lookup(fb, "CPUAlloc", "0"));
    if cpuAlloc.None? {
      return None;
    }
    if mem.totalGb == 0.0 {
      var realMem := ParseInt(Lookup(fb, "RealMemory", "0"));
      if realMem.None? {
        return None;
      }
      var allocMem := ParseInt(Lookup(fb, "AllocMem", "0"));
      if allocMem.None? {
        return None;
      }
      mem := mem.(totalGb := Gb(realMem.value), freeGb := Gb(realMem.value - allocMem.value));
    }
    r := Some(NodeSummary(name, basic.state, cpuTot.value - cpuAlloc.value, mem.freeGb, mem.totalGb));
  }

  /** The enrichment loop over `names`; `None` when some node raises. */
  function EnrichAll(names: seq<string>, nodes: map<string, NodeInfo>, free: string -> Session.Reply,
                     fallback: map<string, Record>): (r: Option<seq<NodeSummary>>)
    requires forall n :: n in names ==> n in nodes
    ensures r.Some? ==> |r.value| == |names|
  {
    if |names| == 0 then Some([])
    else
      var last := names[|names| - 1];
      match EnrichAll(names[..|names| - 1], nodes, free, fallback)
      case None => None
      case Some(xs) =>
        match Enrich(last, nodes[last], MemoryDirect(free(last)), Lookup2(fallback, last))
        case None => None
        case Some(x) => Some(xs + [x])
  }

  /** Whether node `name` enriches without raising. */
  predicate EnrichOk(name: string, nodes: map<string, NodeInfo>, free: string -> Session.Reply,
                     fallback: map<string, Record>)
    requires name in nodes
  {
    Enrich(name, nodes[name], MemoryDirect(free(name)), Lookup2(fallback, name)).Some?
  }

  /** The loop succeeds exactly when every node enriches. */
  lemma {:induction false} EnrichAllOk(names: seq<string>, nodes: map<string, NodeInfo>, free: string -> Session.Reply,
                                       fallback: map<string, Record>)
    requires forall n :: n in names ==> n in nodes
    ensures EnrichAll(names, nodes, free, fallback).Some? <==>
              forall i :: 0 <= i < |names| ==> EnrichOk(names[i], nodes, free, fallback)
  {
    if |names| > 0 {
      var pre := names[..|names| - 1];
      var last := names[|names| - 1];
      EnrichAllOk(pre, nodes, free, fallback);
      EnrichAllSnoc(names, nodes, free, fallback);
      assert forall i :: 0 <= i < |pre| ==> pre[i] == names[i];
      assert names[|pre|] == last;
    }
  }

  /** The last pass of the loop succeeds when the earlier ones did and its node enriches. */
  lemma EnrichAllSnoc(names: seq<string>, nodes: map<string, NodeInfo>, free: string -> Session.Reply,
                      fallback: map<string, Record>)
    requires forall n :: n in names ==> n in nodes
    requires |names| > 0
    ensures EnrichAll(names, nodes, free, fallback).Some? <==>
              EnrichAll(names[..|names| - 1], nodes, free, fallback).Some? &&
              EnrichOk(names[|names| - 1], nodes, free, fallback)
  {
  }

  /** When it succeeds, the loop yields one summary per name, in order. */
  lemma {:induction false} EnrichAllNames(names: seq<string>, nodes: map<string, NodeInfo>, free: string -> Session.Reply,
                                          fallback: map<string, Record>)
    requires forall n :: n in names ==> n in nodes
    ensures var r := EnrichAll(names, nodes, free, fallback);
      r.Some? ==> forall i :: 0 <= i < |names| ==> r.value[i].name == names[i]
  {
    if |names| > 0 {
      var pre := names[..|names| - 1];
      var last := names[|names| - 1];
      EnrichAllNames(pre, nodes, free, fallback);
      var r0 := EnrichAll(pre, nodes, free, fallback);
      var x := Enrich(last, nodes[last], MemoryDirect(free(last)), Lookup2(fallback, last));
      if r0.Some? && x.Some? {
        assert EnrichAll(names, nodes, free, fallback) == Some(r0.value + [x.value]);
        assert names == pre + [last];
        NamesSnoc(r0.value, x.value, pre, last);
      } else {
        assert EnrichAll(names, nodes, free, fallback).None?;
      }
    }
  }

  lemma NamesSnoc(xs: seq<NodeSummary>, x: NodeSummary, pre: seq<string>, last: string)
    requires |xs| == |pre| && forall i :: 0 <= i < |pre| ==> xs[i].name == pre[i]
    requires x.name == last
    ensures forall i :: 0 <= i < |pre| + 1 ==> (xs + [x])[i].name == (pre + [last])[i]
  {
  }

  /** One more pass of the loop. */
  lemma EnrichAllStep(names: seq<string>, nodes: map<string, NodeInfo>, free: string -> Session.Reply,
                      fallback: map<string, Record>, i: nat)
    requires forall n :: n in names ==> n in nodes
    requires i < |names|
    ensures EnrichAll(names[..i + 1], nodes, free, fallback) ==
              match EnrichAll(names[..i], nodes, free, fallback)
              case None => None
              case Some(xs) =>
                match Enrich(names[i], nodes[names[i]], MemoryDirect(free(names[i])), Lookup2(fallback, names[i]))
                case None => None
                case Some(x) => Some(xs + [x])
  {
    assert names[..i + 1][..i] == names[..i];
  }

  /** `fallback_details.get(node_name, {})` */
  function Lookup2(fallback: map<string, Record>, name: string): Record {
    if name in fallback then fallback[name] else map[]
  }

  method EnrichNodes(names: seq<string>, nodes: map<string, NodeInfo>, p: Poll, fallback: map<string, Record>)
    returns (r: Option<seq<NodeSummary>>)
    requires forall n :: n in names ==> n in nodes
    ensures r == EnrichAll(names, nodes, p.free, fallback)
  {
    var out: seq<NodeSummary> := [];
    var i := 0;
    while i < |names|
      invariant i <= |names|
      invariant EnrichAll(names[..i], nodes, p.free, fallback) == Some(out)
    {
      var name := names[i];
      var x := EnrichNode(name, nodes[name], MemoryDirect(p.free(name)), Lookup2(fallback, name));
      EnrichAllStep(names, nodes, p.free, fallback, i);
      if x.None? {
        EnrichAllNone(names, nodes, p.free, fallback, i + 1);
        return None;
      }
      out := out + [x.value];
      i := i + 1;
    }
    assert names[..i] == names;
    r := Some(out);
  }

  /** Once the loop has raised, it stays raised. */
  lemma {:induction false} EnrichAllNone(names: seq<string>, nodes: map<string, NodeInfo>, free: string -> Session.Reply,
                                         fallback: map<string, Record>, k: nat)
    requires forall n :: n in names ==> n in nodes
    requires k <= |names|
    requires EnrichAll(names[..k], nodes, free, fallback).None?
    ensures EnrichAll(names, nodes, free, fallback).None?
    decreases |names| - k
  {
    if k < |names| {
      EnrichAllStep(names, nodes, free, fallback, k);
      EnrichAllNone(names, nodes, free, fallback, k + 1);
    } else {
      assert names[..k] == names;
    }
  }

  // ---------------------------------------------------------------- one cycle

  /** What the cog posts to the alert channel. */
  datatype Message =
    | ClusterUnreachable                                                    // "CRITICAL: Cluster Unreachable"
    | ConnectionRestored                                                    // "Cluster Connection Restored"
    | NewResources(nodes: seq<NodeSummary>, totalJobs: nat, users: Dict<string, nat>)  // summarised by Gemini
    | JobFinished(id: string, job: Job)                                     // "Job Finished!"

  /** The outside world as one cycle sees it. */
  datatype Poll = Poll(
    channelFound: bool,              // DISCORD_CHANNEL_ID is set and names a channel
    reachable: bool,                 // `is_reachable()`
    sinfo: Session.Reply,            // `get_node_states`
    scontrol: Session.Reply,         // `get_node_details_fallback(list(newly_free))`
    free: string -> Session.Reply,   // `get_node_memory_direct(node)`
    squeue: Session.Reply,           // `get_queue_summary`
    userJobs: Session.Reply,         // `get_user_jobs(TARGET_CLUSTER_USER)`
    trackJobs: bool,                 // `TARGET_CLUSTER_USER and DISCORD_USER_ID`
    sendOk: nat -> bool,             // whether the k-th `channel.send` of the cycle returns
    now: Date, ts: string,           // the date and timestamp `log_status` writes
    historyWritable: bool,           // whether `data/history.csv` opens for appending
    stateWritable: bool)             // whether `data/job_state.json` opens for writing

  function NodesOf(p: Poll): (d: Dict<string, NodeInfo>)
    ensures d.Valid()
  {
    if Succeeded(p.sinfo) then SinfoNodes(p.sinfo.stdout) else Empty()
  }

  function FallbackOf(p: Poll): map<string, Record> {
    if Succeeded(p.scontrol) then ScontrolDetails(p.scontrol.stdout) else map[]
  }

  function QueueOf(p: Poll): (nat, Dict<string, nat>) {
    if Succeeded(p.squeue) then (|QueueUsers(p.squeue.stdout)|, UserCounts(QueueUsers(p.squeue.stdout)))
    else (0, Empty())
  }

  function CurrentJobs(p: Poll): map<string, Job> {
    if Succeeded(p.userJobs) then UserJobs(p.userJobs.stdout) else map[]
  }

  /** The cog's fields, the channel's messages and the saved job state. */
  datatype Mon = Mon(prevFree: set<string>, online: bool, jobs: map<string, Job>,
                     outbox: seq<Message>, stateFile: Option<map<string, Job>>)

  /** Whether the cycle goes on, has returned, or has raised into the handler. */
  datatype Flow = Running | Returned | Raised

  /** Where the cycle is: the state, the flow, how many sends have returned this
      cycle, and the counts handed to `log_status`, if any. */
  datatype Step = Step(mon: Mon, flow: Flow, sends: nat, logged: Option<Counts>)

  /** `await channel.send(msg)` */
  function Deliver(s: Step, msg: Message, p: Poll): (r: Step)
    ensures r.mon.(outbox := s.mon.outbox) == s.mon && r.logged == s.logged
    ensures r.flow == Raised || r.mon.outbox == s.mon.outbox + [msg]
  {
    if p.sendOk(s.sends) then s.(mon := s.mon.(outbox := s.mon.outbox + [msg]), sends := s.sends + 1)
    else s.(flow := Raised)
  }

  /** Step 1, the heartbeat: only a change of reachability is announced. */
  function Heartbeat(s: Step, p: Poll): (r: Step)
    ensures r.mon.prevFree == s.mon.prevFree && r.mon.jobs == s.mon.jobs && r.mon.stateFile == s.mon.stateFile
    ensures r.logged == s.logged
  {
    if !p.reachable then
      if s.mon.online then
        var s1 := Deliver(s.(mon := s.mon.(online := false)), ClusterUnreachable, p);
        if s1.flow.Running? then s1.(flow := Returned) else s1
      else s.(flow := Returned)
    else if !s.mon.online then
      Deliver(s.(mon := s.mon.(online := true)), ConnectionRestored, p)
    else s
  }

  /** Step 2, node monitoring. */
  ghost function NodePhase(s: Step, p: Poll, analyticsLoaded: bool): (r: Step)
    ensures r.mon.online == s.mon.online && r.mon.jobs == s.mon.jobs && r.mon.stateFile == s.mon.stateFile
  {
    var nodes := NodesOf(p);
    if nodes.IsEmpty() then s
    else if analyticsLoaded then
      // `log_status` runs, then `log_node_states`, which the cog does not define, raises.
      s.(logged := Some(CountStates(nodes.order, nodes.entries)), flow := Raised)
    else FreePhase(s, p, nodes)
  }

  /** The free-node part of step 2: the set of free nodes replaces the old one
      before anything can raise, and the nodes new to it are announced. */
  ghost function FreePhase(s: Step, p: Poll, nodes: Dict<string, NodeInfo>): (r: Step)
    requires nodes.Valid()
    ensures r.mon.prevFree == FreeSet(nodes) && r.logged == s.logged
    ensures r.mon.online == s.mon.online && r.mon.jobs == s.mon.jobs && r.mon.stateFile == s.mon.stateFile
  {
    var free := FreeSet(nodes);
    var newly := free - s.mon.prevFree;
    var s1 := s.(mon := s.mon.(prevFree := free));
    if newly == {} then s1 else AlertNew(s1, p, nodes, newly)
  }

  /** The alert for the newly free nodes: enrich them in sorted order and read the
      queue; `None` when an enrichment raises. */
  ghost function AlertMessage(p: Poll, nodes: Dict<string, NodeInfo>, newly: set<string>): (r: Option<Message>)
    requires forall n :: n in newly ==> n in nodes.entries
    ensures r.Some? ==> r.value.NewResources? && |r.value.nodes| == |SortedNames(newly)|
    ensures r.Some? ==> forall i :: 0 <= i < |r.value.nodes| ==> r.value.nodes[i].name == SortedNames(newly)[i]
    ensures r.Some? ==> r.value.totalJobs == QueueOf(p).0 && r.value.users == QueueOf(p).1
  {
    var names := SortedNames(newly);
    EnrichAllNames(names, nodes.entries, p.free, FallbackOf(p));
    match EnrichAll(names, nodes.entries, p.free, FallbackOf(p))
    case None => None
    case Some(summaries) =>
      var q := QueueOf(p);
      Some(NewResources(summaries, q.0, q.1))
  }

  /** Posting the alert, or raising when it could not be built. */
  ghost function AlertNew(s: Step, p: Poll, nodes: Dict<string, NodeInfo>, newly: set<string>): (r: Step)
    requires forall n :: n in newly ==> n in nodes.entries
    ensures r.mon.(outbox := s.mon.outbox) == s.mon && r.logged == s.logged
  {
    match AlertMessage(p, nodes, newly)
    case None => s.(flow := Raised)
    case Some(msg) => Deliver(s, msg, p)
  }

  /** Announcing one more job after `order`. */
  lemma AnnounceStep(s: Step, jobs: map<string, Job>, order: seq<string>, j: string, p: Poll)
    requires forall x :: x in order ==> x in jobs
    requires j in jobs
    ensures Announce(s, jobs, order + [j], p) ==
              var s0 := Announce(s, jobs, order, p);
              if s0.flow.Running? then Deliver(s0, JobFinished(j, jobs[j]), p) else s0
  {
    assert (order + [j])[..|order|] == order;
  }

  /** The completion messages for `order`, sent one by one until a send raises. */
  function Announce(s: Step, jobs: map<string, Job>, order: seq<string>, p: Poll): (r: Step)
    requires forall j :: j in order ==> j in jobs
    ensures r.mon.(outbox := s.mon.outbox) == s.mon && r.logged == s.logged
    ensures r.flow == Raised || r.flow == s.flow
  {
    if |order| == 0 then s
    else
      var s0 := Announce(s, jobs, order[..|order| - 1], p);
      var last := order[|order| - 1];
      if s0.flow.Running? then Deliver(s0, JobFinished(last, jobs[last]), p) else s0
  }

  /** Step 3, job completion tracking, announcing the finished jobs in `order`. */
  function JobPhase(s: Step, p: Poll, order: seq<string>): (r: Step)
    requires forall j :: j in order ==> j in s.mon.jobs
    ensures r.mon.prevFree == s.mon.prevFree && r.mon.online == s.mon.online
  {
    var current := CurrentJobs(p);
    var s1 := Announce(s, s.mon.jobs, order, p);
    if s1.flow.Running? then
      s1.(mon := s1.mon.(jobs := current, stateFile := if p.stateWritable then Some(current) else s1.mon.stateFile))
    else s1
  }

  /** The jobs `completed` holds: tracked before, missing from the current reply. */
  function Completed(old_jobs: map<string, Job>, current: map<string, Job>): set<string> {
    old_jobs.Keys - current.Keys
  }

  ghost predicate Enumerates(xs: seq<string>, s: set<string>) {
    && (forall i, j :: 0 <= i < j < |xs| ==> xs[i] != xs[j])
    && (forall x :: x in xs <==> x in s)
  }

  /** One run of `monitor_nodes` from state `m`; `order` is the order in which the
      set `completed` is iterated. */
  ghost function Cycle(m: Mon, p: Poll, analyticsLoaded: bool, order: seq<string>): (r: Step)
    requires forall j :: j in order ==> j in m.jobs
    ensures r.flow == Running ==> p.channelFound && p.reachable
  {
    var s2 := UpToJobs(m, p, analyticsLoaded);
    if s2.flow.Running? && p.trackJobs then JobPhase(s2, p, order) else s2
  }

  /** The cycle up to step 3: the channel lookup, the heartbeat and step 2. */
  ghost function UpToJobs(m: Mon, p: Poll, analyticsLoaded: bool): (r: Step)
    ensures r.mon.jobs == m.jobs && r.mon.stateFile == m.stateFile
    ensures r.flow == Running ==> p.channelFound && p.reachable
  {
    var s0 := Step(m, Running, 0, None);
    if !p.channelFound then s0.(flow := Returned)
    else
      var s1 := Heartbeat(s0, p);
      if s1.flow.Running? then NodePhase(s1, p, analyticsLoaded) else s1
  }

  /** Building the alert of `AlertMessage`: the `scontrol` fallback, the
      enrichment in sorted order, and the queue summary. */
  method BuildAlert(p: Poll, nodes: Dict<string, NodeInfo>, newly: set<string>) returns (msg: Option<Message>)
    requires forall n :: n in newly ==> n in nodes.entries
    ensures msg == AlertMessage(p, nodes, newly)
  {
    var fallback := GetNodeDetailsFallback(p.scontrol);
    assert fallback == FallbackOf(p);
    var sorted := SortedList(newly);
    var summaries := EnrichNodes(sorted, nodes.entries, p, fallback);
    assert summaries == EnrichAll(SortedNames(newly), nodes.entries, p.free, FallbackOf(p));
    if summaries.None? {
      return None;
    }
    var total, users := GetQueueSummary(p.squeue);
    assert (total, users) == QueueOf(p);
    msg := Some(NewResources(summaries.value, total, users));
  }

  // ---------------------------------------------------------------- the cog

  class SlurmMon {
    var previouslyFreeNodes: set<string>
    var isClusterOnline: bool
    var activeUserJobs: map<string, Job>
    /** The messages delivered to the alert channel. */
    var outbox: seq<Message>
    /** What `data/job_state.json` holds, as the job dict it encodes. */
    var stateFile: Option<map<string, Job>>

    function Snapshot(): Mon
      reads this
    {
      Mon(previouslyFreeNodes, isClusterOnline, activeUserJobs, outbox, stateFile)
    }

    /** `__init__` and `load_state`: nothing is free yet, the cluster counts as
        online, and the tracked jobs are those of the state file when it exists
        and parses (`stored`), none otherwise. */
    constructor(stored: Option<map<string, Job>>)
      ensures previouslyFreeNodes == {} && isClusterOnline && outbox == []
      ensures activeUserJobs == (if stored.Some? then stored.value else map[])
      ensures stateFile == stored
    {
      previouslyFreeNodes := {};
      isClusterOnline := true;
      outbox := [];
      stateFile := stored;
      activeUserJobs := if stored.Some? then stored.value else map[];
    }

    /** `channel.send(msg)`, the `k`-th send of the cycle. */
    method Post(msg: Message, p: Poll, k: nat) returns (delivered: bool)
      modifies this
      ensures delivered == p.sendOk(k)
      ensures Step(Snapshot(), if delivered then Running else Raised, if delivered then k + 1 else k, None)
              == Deliver(Step(old(Snapshot()), Running, k, None), msg, p)
    {
      delivered := p.sendOk(k);
      if delivered {
        outbox := outbox + [msg];
      }
    }

    /** Step 1 of `monitor_nodes`. */
    method CheckHeartbeat(p: Poll) returns (flow: Flow, sends: nat)
      modifies this
      ensures Step(Snapshot(), flow, sends, None) == Heartbeat(Step(old(Snapshot()), Running, 0, None), p)
    {
      flow, sends := Running, 0;
      if !p.reachable {
        if isClusterOnline {
          isClusterOnline := false;
          var ok := Post(ClusterUnreachable, p, 0);
          if ok {
            sends := 1;
            flow := Returned;
          } else {
            flow := Raised;
          }
        } else {
          flow := Returned;
        }
        return;
      }
      if !isClusterOnline {
        isClusterOnline := true;
        var ok := Post(ConnectionRestored, p, 0);
        if ok {
          sends := 1;
        } else {
          flow := Raised;
        }
      }
    }

    /** Step 2 of `monitor_nodes`. */
    method WatchNodes(p: Poll, analytics: Analytics?, sends0: nat) returns (flow: Flow, sends: nat, logged: Option<Counts>)
      modifies this, if analytics != null then {analytics.disk} else {}
      ensures Step(Snapshot(), flow, sends, logged) == NodePhase(Step(old(Snapshot()), Running, sends0, None), p, analytics != null)
      ensures analytics != null ==>
                (analytics.disk.files ==
                   if logged.Some? && p.historyWritable then AppendRow(old(analytics.disk.files), p.now, Row(p.ts, logged.value))
                   else old(analytics.disk.files))
    {
      flow, sends, logged := Running, sends0, None;
      var nodes := GetNodeStates(p.sinfo);
      assert nodes == NodesOf(p);
      if nodes.IsEmpty() {
        return;
      }
      var counts := TallyStates(nodes);
      if analytics != null {
        analytics.LogStatus(p.now, p.ts, counts, p.historyWritable);
        logged := Some(counts);
        flow := Raised;
        return;
      }
      flow, sends := UpdateFree(p, nodes, sends);
    }

    /** From `current_free_ids` to the alert, in step 2. */
    method UpdateFree(p: Poll, nodes: Dict<string, NodeInfo>, sends0: nat) returns (flow: Flow, sends: nat)
      requires nodes.Valid()
      modifies this
      ensures Step(Snapshot(), flow, sends, None) == FreePhase(Step(old(Snapshot()), Running, sends0, None), p, nodes)
    {
      flow, sends := Running, sends0;
      var current := FreeNodeSet(nodes);
      var newly := current - previouslyFreeNodes;
      previouslyFreeNodes := current;
      if newly == {} {
        return;
      }
      flow, sends := AlertNewlyFree(p, nodes, newly, sends);
    }

    /** The `if newly_free:` block of step 2. */
    method AlertNewlyFree(p: Poll, nodes: Dict<string, NodeInfo>, newly: set<string>, sends0: nat) returns (flow: Flow, sends: nat)
      requires forall n :: n in newly ==> n in nodes.entries
      modifies this
      ensures Step(Snapshot(), flow, sends, None) == AlertNew(Step(old(Snapshot()), Running, sends0, None), p, nodes, newly)
    {
      flow, sends := Running, sends0;
      var msg := BuildAlert(p, nodes, newly);
      if msg.None? {
        flow := Raised;
        return;
      }
      var ok := Post(msg.value, p, sends);
      if ok {
        sends := sends + 1;
      } else {
        flow := Raised;
      }
    }

    /** Step 3 of `monitor_nodes`; `order` is the order in which `completed` was
        iterated. */
    method TrackJobs(p: Poll, sends0: nat) returns (flow: Flow, sends: nat, ghost order: seq<string>)
      modifies this
      ensures forall j :: j in order ==> j in old(activeUserJobs)
      ensures Step(Snapshot(), flow, sends, None) == JobPhase(Step(old(Snapshot()), Running, sends0, None), p, order)
      ensures forall i, j :: 0 <= i < j < |order| ==> order[i] != order[j]
      ensures forall j :: j in order ==> j in Completed(old(activeUserJobs), CurrentJobs(p))
      ensures flow == Running ==> Enumerates(order, Completed(old(activeUserJobs), CurrentJobs(p)))
    {
      var current := GetUserJobs(p.userJobs);
      assert current == CurrentJobs(p);
      var completed := activeUserJobs.Keys - current.Keys;
      flow, sends, order := AnnounceCompleted(p, completed, sends0);
      if flow != Running {
        return;
      }
      activeUserJobs := current;
      if p.stateWritable {
        stateFile := Some(activeUserJobs);
      }
    }

    /** `for jid in completed: ... await channel.send(...)` */
    method AnnounceCompleted(p: Poll, completed: set<string>, sends0: nat) returns (flow: Flow, sends: nat, ghost order: seq<string>)
      requires completed <= activeUserJobs.Keys
      modifies this
      ensures flow == Running || flow == Raised
      ensures forall j :: j in order ==> j in completed
      ensures Step(Snapshot(), flow, sends, None) == Announce(Step(old(Snapshot()), Running, sends0, None), old(activeUserJobs), order, p)
      ensures forall i, j :: 0 <= i < j < |order| ==> order[i] != order[j]
      ensures flow == Running ==> Enumerates(order, completed)
    {
      ghost var s0 := Step(Snapshot(), Running, sends0, None);
      flow, sends, order := Running, sends0, [];
      var rest := completed;
      while rest != {}
        invariant rest <= completed
        invariant activeUserJobs == s0.mon.jobs
        invariant forall i, j :: 0 <= i < j < |order| ==> order[i] != order[j]
        invariant forall x :: x in order <==> x in completed && x !in rest
        invariant Step(Snapshot(), Running, sends, None) == Announce(s0, s0.mon.jobs, order, p)
        decreases |rest|
      {
        var jid :| jid in rest;
        AnnounceStep(s0, s0.mon.jobs, order, jid, p);
        var ok := Post(JobFinished(jid, activeUserJobs[jid]), p, sends);
        order := order + [jid];
        if !ok {
          flow := Raised;
          return;
        }
        sends := sends + 1;
        rest := rest - {jid};
      }
    }

    /** One run of `monitor_nodes`, with the Analytics cog loaded or not
        (`analytics` null). */
    method MonitorNodes(p: Poll, analytics: Analytics?) returns (flow: Flow, logged: Option<Counts>, ghost order: seq<string>)
      modifies this, if analytics != null then {analytics.disk} else {}
      ensures forall j :: j in order ==> j in old(activeUserJobs)
      ensures var r := Cycle(old(Snapshot()), p, analytics != null, order);
        Snapshot() == r.mon && flow == r.flow && logged == r.logged
      ensures analytics != null ==>
                (analytics.disk.files ==
                   if logged.Some? && p.historyWritable then AppendRow(old(analytics.disk.files), p.now, Row(p.ts, logged.value))
                   else old(analytics.disk.files))
      ensures forall i, j :: 0 <= i < j < |order| ==> order[i] != order[j]
      ensures forall j :: j in order ==> j in Completed(old(activeUserJobs), CurrentJobs(p))
      ensures flow == Running && p.trackJobs ==> Enumerates(order, Completed(old(activeUserJobs), CurrentJobs(p)))
    {
      ghost var m := Snapshot();
      flow, logged, order := Running, None, [];
      if !p.channelFound {
        flow := Returned;
        return;
      }
      var sends;
      flow, sends := CheckHeartbeat(p);
      if flow != Running {
        return;
      }
      ghost var s1 := Heartbeat(Step(m, Running, 0, None), p);
      flow, sends, logged := WatchNodes(p, analytics, sends);
      if flow != Running || !p.trackJobs {
        return;
      }
      ghost var s2 := NodePhase(s1, p, analytics != null);
      assert logged == None;
      flow, sends, order := TrackJobs(p, sends);
    }
  }
}
