/** The single-file bot monitor.py: its own Slurm client (`sinfo` limited to
    three partitions, `scontrol` details, `squeue` counts), the module-global
    free set its monitoring task diffs against, and the `!status`, `!inspect`
    and `!queue` prefix commands.

    Every client call opens a fresh, unretried SSH session; a reply of
    `RunFailed` (or `Unreachable`) stands for `conn.run` raising, which the
    client catches. */
module LegacyMonitor {
  import opened Text
  import opened PyDict
  import Session
  import opened SlurmClient
  import Ranking
  import CommandsCog
  import SlurmMonCog

  // ---------------------------------------------------------------- sinfo

  const TargetPartitions: seq<string> := ["alto", "medio", "normal"]

  /** A five-field sinfo line whose `*`-stripped partition is a target. */
  predicate InTarget(line: string) {
    match SinfoLine(line)
    case None => false
    case Some(kv) => kv.1.partition in TargetPartitions
  }

  /** What one line contributes to the legacy `get_node_states`. */
  function TargetSinfoLine(line: string): Option<(string, NodeInfo)> {
    if InTarget(line) then SinfoLine(line) else None
  }

  /** The dict the legacy `get_node_states` returns for a successful `sinfo`. */
  function TargetNodes(stdout: string): (d: Dict<string, NodeInfo>)
    ensures d.Valid()
  {
    KeyedFold(SinfoLines(stdout), TargetSinfoLine)
  }

  function NodesOf(reply: Session.Reply): (d: Dict<string, NodeInfo>)
    ensures d.Valid()
  {
    if Succeeded(reply) then TargetNodes(reply.stdout) else Empty()
  }

  method GetTargetNodes(reply: Session.Reply) returns (nodes: Dict<string, NodeInfo>)
    ensures nodes == NodesOf(reply)
  {
    nodes := Empty();
    if !Succeeded(reply) {
      return;
    }
    var lines := SplitOn(Strip(reply.stdout), '\n');
    if Contains(lines[0], "PARTITION") {
      lines := lines[1..];
    }
    assert lines == SinfoLines(reply.stdout);
    nodes := ParseTargetLines(lines);
  }

  /** The loop over the header-less lines. */
  method ParseTargetLines(lines: seq<string>) returns (nodes: Dict<string, NodeInfo>)
    ensures nodes == KeyedFold(lines, TargetSinfoLine)
  {
    nodes := Empty();
    var i := 0;
    while i < |lines|
      invariant i <= |lines|
      invariant nodes == KeyedFold(lines[..i], TargetSinfoLine)
    {
      KeyedFoldStep(lines, i, TargetSinfoLine);
      nodes := AddTargetLine(nodes, lines[i]);
      i := i + 1;
    }
    assert lines[..i] == lines;
  }

  /** One pass of the loop: a five-field line of a target partition is stored. */
  method AddTargetLine(nodes: Dict<string, NodeInfo>, line: string) returns (next: Dict<string, NodeInfo>)
    requires nodes.Valid()
    ensures next == Insert(nodes, TargetSinfoLine(line))
  {
    next := nodes;
    var parts := Words(line);
    if |parts| >= 5 {
      var part := RemoveChar(parts[0], '*');
      if part in TargetPartitions {
        next := nodes.Set(parts[1], NodeInfo(part, parts[2], parts[3], parts[4]));
      }
    }
  }

  /** The legacy dict is the newer client's parse of just the target-partition
      lines: same header rule, same overwrite rule, same key order. */
  lemma {:induction false} TargetNodesAreFilteredSinfo(stdout: string)
    ensures TargetNodes(stdout) == KeyedFold(Filter(SinfoLines(stdout), InTarget), SinfoLine)
  {
    var lines := SinfoLines(stdout);
    TargetGuard();
    KeyedFoldFilter(lines, InTarget, SinfoLine, TargetSinfoLine);
  }

  lemma TargetGuard()
    ensures forall l :: TargetSinfoLine(l) == if InTarget(l) then SinfoLine(l) else None
  {
  }

  /** Every node the legacy client reports sits in one of the three target partitions,
      and came from some kept sinfo line. */
  lemma {:induction false} TargetNodesInTargets(stdout: string, n: string)
    requires n in TargetNodes(stdout).entries
    ensures TargetNodes(stdout).entries[n].partition in TargetPartitions
    ensures exists i :: 0 <= i < |SinfoLines(stdout)| && SinfoLine(SinfoLines(stdout)[i]) == Some((n, TargetNodes(stdout).entries[n]))
  {
    var lines, d := SinfoLines(stdout), TargetNodes(stdout);
    KeyedFoldValues(lines, TargetSinfoLine, n);
    var i :| 0 <= i < |lines| && TargetSinfoLine(lines[i]) == Some((n, d.entries[n]));
    TargetLineKept(lines[i]);
  }

  /** A line the legacy client keeps is a target-partition line of the newer parse. */
  lemma TargetLineKept(line: string)
    requires TargetSinfoLine(line).Some?
    ensures SinfoLine(line) == TargetSinfoLine(line)
    ensures TargetSinfoLine(line).value.1.partition in TargetPartitions
  {
  }

  // ---------------------------------------------------------------- scontrol, squeue

  /** What the legacy `get_node_details` returns: the same allow-listed
      `NodeName=` block scan as the newer fallback. */
  function DetailsOf(reply: Session.Reply): map<string, Record> {
    if Succeeded(reply) then ScontrolDetails(reply.stdout) else map[]
  }

  method GetNodeDetails(reply: Session.Reply) returns (details: map<string, Record>)
    ensures details == DetailsOf(reply)
  {
    details := map[];
    if Succeeded(reply) {
      details := ScanLines(SplitOn(reply.stdout, '\n'));
    }
  }

  /** Only the five allowed keys are ever stored. */
  lemma DetailsKeysAllowed(reply: Session.Reply, n: string, k: string)
    requires n in DetailsOf(reply) && k in DetailsOf(reply)[n]
    ensures k in AllowList
  {
    ScanKeysAllowed(SplitOn(reply.stdout, '\n'));
  }

  /** The legacy `get_queue_summary`, which runs the same counting code: the total
      is the number of non-empty lines and the sum of the per-user counts, every
      listed user has at least one job, and a failure gives `(0, {})`. */
  lemma QueueSummarySpec(reply: Session.Reply)
    ensures var (total, users) := CommandsCog.QueueSummary(reply);
      && users.Valid()
      && total == SumOver(users.order, users.entries)
      && (forall u :: u in users.entries ==> users.entries[u] >= 1)
      && (!Succeeded(reply) ==> total == 0 && users.entries == map[])
  {
    CommandsCog.QueueTopIffJobs(reply);
    if Succeeded(reply) {
      var us := QueueUsers(reply.stdout);
      forall u | u in UserCounts(us).entries ensures UserCounts(us).entries[u] >= 1 {
        UserCountsOccurrences(us, u);
      }
    }
  }

  // ---------------------------------------------------------------- monitor_nodes

  /** The test that builds `current_free_ids`: the lowercased state with `*`
      removed mentions "idle" or "mixed". */
  predicate LegacyFree(state: string) {
    var s := RemoveChar(Lower(state), '*');
    Contains(s, "idle") || Contains(s, "mixed")
  }

  /** `current_free_ids` after the loop over `names`. */
  function FreeAmong(names: seq<string>, nodes: map<string, NodeInfo>): (r: set<string>)
    requires forall n :: n in names ==> n in nodes
    ensures forall n :: n in r <==> n in names && LegacyFree(nodes[n].state)
  {
    if |names| == 0 then {}
    else
      var n := names[|names| - 1];
      FreeAmong(names[..|names| - 1], nodes) + (if LegacyFree(nodes[n].state) then {n} else {})
  }

  /** One field of the "New Resources Available!" embed. */
  datatype FreeField = FreeField(partition: string, state: string, freeCpu: int, cpuTot: int,
                                 freeMemMb: int, realMemMb: int)

  /** How many users the alert's queue context lists. */
  const TopAlertUsers: nat := 5

  /** The alert: one field per newly free node with both records, and the queue context. */
  datatype Alert = Alert(fields: map<string, FreeField>, totalJobs: nat, topUsers: seq<Ranking.Entry>)

  /** How one run of the task ends. */
  datatype Outcome =
    | NoChannel                // no channel id, or no such channel
    | NoNodes                  // `get_node_states` returned `{}`
    | NothingNew               // no node became free
    | FieldRaised              // an `int()` of a field raised `ValueError`
    | Alerted(alert: Alert)    // `channel.send(embed=embed)`

  /** The outside world as one run of the task sees it. */
  datatype Poll = Poll(
    channelIdSet: bool,        // TARGET_CHANNEL_ID is set
    channelFound: bool,        // `bot.get_channel(int(channel_id))` finds it
    sinfo: Session.Reply,      // `get_node_states`
    scontrol: Session.Reply,   // `get_node_details(list(newly_free))`
    squeue: Session.Reply)     // `get_queue_summary`

  /** `int(d.get(k, 0))`; `None` is a `ValueError`. */
  function IntOrZero(d: Record, k: string): Option<int> {
    if k in d then ParseInt(d[k]) else Some(0)
  }

  /** The field of a node with sinfo record `basic` and scontrol record `detail`. */
  function FieldOf(basic: NodeInfo, detail: Record): Option<FreeField> {
    match (IntOrZero(detail, "RealMemory"), IntOrZero(detail, "AllocMem"),
           IntOrZero(detail, "CPUTot"), IntOrZero(detail, "CPUAlloc"))
    case (Some(realMem), Some(allocMem), Some(cpuTot), Some(cpuAlloc)) =>
      Some(FreeField(basic.partition, basic.state, cpuTot - cpuAlloc, cpuTot, realMem - allocMem, realMem))
    case _ => None
  }

  /** `if node_basic and node_detail`: the sinfo record exists (it always has four
      keys, so it is truthy) and the scontrol record exists and is not empty. */
  predicate Qualifies(n: string, nodes: Dict<string, NodeInfo>, details: map<string, Record>) {
    n in nodes.entries && n in details && details[n] != map[]
  }

  /** The fields of the alert for `newly`, or `None` when some `int()` raises;
      whether one raises does not depend on the order the set is visited in. */
  function AlertFields(newly: set<string>, nodes: Dict<string, NodeInfo>, details: map<string, Record>)
    : Option<map<string, FreeField>>
  {
    if exists n :: n in newly && Qualifies(n, nodes, details) && FieldOf(nodes.entries[n], details[n]).None? then None
    else Some(map n | n in newly && Qualifies(n, nodes, details) :: FieldOf(nodes.entries[n], details[n]).value)
  }

  /** The global `previously_free_nodes` after one run of the task. */
  function NextFree(prev: set<string>, p: Poll): set<string> {
    if !p.channelIdSet || !p.channelFound then prev
    else
      var nodes := NodesOf(p.sinfo);
      if nodes.IsEmpty() then prev else FreeAmong(nodes.order, nodes.entries)
  }

  /** How one run of the task ends, from the global set `prev` it starts with. */
  function RunOutcome(prev: set<string>, p: Poll): Outcome {
    if !p.channelIdSet || !p.channelFound then NoChannel
    else
      var nodes := NodesOf(p.sinfo);
      if nodes.IsEmpty() then NoNodes
      else
        var newly := FreeAmong(nodes.order, nodes.entries) - prev;
        if newly == {} then NothingNew
        else match AlertFields(newly, nodes, DetailsOf(p.scontrol))
          case None => FieldRaised
          case Some(fields) => Alerted(AlertOf(fields, p.squeue))
  }

  /** The alert for `fields`, with the queue context from `get_queue_summary`. */
  function AlertOf(fields: map<string, FreeField>, squeue: Session.Reply): Alert {
    var (total, users) := CommandsCog.QueueSummary(squeue);
    Alert(fields, total, Ranking.TopUsers(users, TopAlertUsers))
  }

  /** The module global and the task that diffs against it. */
  class Monitor {
    var previouslyFreeNodes: set<string>

    constructor()
      ensures previouslyFreeNodes == {}
    {
      previouslyFreeNodes := {};
    }

    /** One run of `monitor_nodes`. */
    method MonitorNodes(p: Poll) returns (out: Outcome)
      modifies this
      ensures previouslyFreeNodes == NextFree(old(previouslyFreeNodes), p)
      ensures out == RunOutcome(old(previouslyFreeNodes), p)
    {
      if !p.channelIdSet || !p.channelFound {
        return NoChannel;
      }
      var nodes := GetTargetNodes(p.sinfo);
      if nodes.IsEmpty() {
        return NoNodes;
      }
      var current := FreeNodes(nodes);
      var newly := current - previouslyFreeNodes;
      previouslyFreeNodes := current;
      if newly == {} {
        return NothingNew;
      }
      var details := GetNodeDetails(p.scontrol);
      var fields := BuildFields(newly, nodes, details);
      if fields.None? {
        return FieldRaised;
      }
      var total, users := GetQueueSummary(p.squeue);
      out := Alerted(Alert(fields.value, total, Ranking.TopUsers(users, TopAlertUsers)));
    }
  }

  /** The loop that builds `current_free_ids`. */
  method FreeNodes(nodes: Dict<string, NodeInfo>) returns (current: set<string>)
    requires nodes.Valid()
    ensures current == FreeAmong(nodes.order, nodes.entries)
  {
    current := {};
    var i := 0;
    while i < |nodes.order|
      invariant i <= |nodes.order|
      invariant current == FreeAmong(nodes.order[..i], nodes.entries)
    {
      var name := nodes.order[i];
      var state := RemoveChar(Lower(nodes.entries[name].state), '*');
      assert nodes.order[..i + 1][..i] == nodes.order[..i];
      if Contains(state, "idle") || Contains(state, "mixed") {
        current := current + {name};
      }
      i := i + 1;
    }
    assert nodes.order[..i] == nodes.order;
  }

  /** The loop over `newly_free`, visiting the set in whatever order it yields. */
  method BuildFields(newly: set<string>, nodes: Dict<string, NodeInfo>, details: map<string, Record>)
    returns (r: Option<map<string, FreeField>>)
    ensures r == AlertFields(newly, nodes, details)
  {
    var fields := map[];
    var rest := newly;
    while rest != {}
      invariant rest <= newly
      invariant forall n :: n in newly - rest && Qualifies(n, nodes, details) ==> FieldOf(nodes.entries[n], details[n]).Some?
      invariant fields == map n | n in newly - rest && Qualifies(n, nodes, details) :: FieldOf(nodes.entries[n], details[n]).value
      decreases rest
    {
      var n :| n in rest;
      if n in nodes.entries && n in details && details[n] != map[] {
        var f := FieldOf(nodes.entries[n], details[n]);
        if f.None? {
          return None;
        }
        fields := fields[n := f.value];
      }
      rest := rest - {n};
    }
    assert newly - rest == newly;
    r := Some(fields);
  }

  /** No channel: the task returns before touching the global. */
  lemma NoChannelKeepsFree(prev: set<string>, p: Poll)
    requires !p.channelIdSet || !p.channelFound
    ensures NextFree(prev, p) == prev && RunOutcome(prev, p) == NoChannel
  {
  }

  /** The global is replaced by the current free set as soon as nodes are read,
      before any alert is built, so it is updated even when a field raises. */
  lemma FreeReplacedBeforeAlert(prev: set<string>, p: Poll)
    requires p.channelIdSet && p.channelFound && !NodesOf(p.sinfo).IsEmpty()
    ensures forall n :: n in NextFree(prev, p) <==>
              n in NodesOf(p.sinfo).entries && LegacyFree(NodesOf(p.sinfo).entries[n].state)
  {
    var nodes := NodesOf(p.sinfo);
    assert NextFree(prev, p) == FreeAmong(nodes.order, nodes.entries);
    FreeAmongEntries(nodes);
  }

  /** With a channel and nodes, the run gets past both early returns. */
  lemma PastEarlyReturns(prev: set<string>, p: Poll)
    requires p.channelIdSet && p.channelFound && !NodesOf(p.sinfo).IsEmpty()
    ensures RunOutcome(prev, p) != NoChannel && RunOutcome(prev, p) != NoNodes
  {
  }

  lemma FreeAmongEntries(nodes: Dict<string, NodeInfo>)
    requires nodes.Valid()
    ensures forall n :: n in FreeAmong(nodes.order, nodes.entries) <==>
              n in nodes.entries && LegacyFree(nodes.entries[n].state)
  {
    forall n ensures n in FreeAmong(nodes.order, nodes.entries) <==>
                     n in nodes.entries && LegacyFree(nodes.entries[n].state) {
      assert n in nodes.entries <==> n in nodes.order;
    }
  }

  /** A field shows the node's sinfo partition and state, its scontrol CPU and
      memory totals, and what is left once the allocated part is taken away. */
  predicate ShowsNode(f: FreeField, basic: NodeInfo, detail: Record) {
    && f.partition == basic.partition && f.state == basic.state
    && Some(f.cpuTot) == IntOrZero(detail, "CPUTot")
    && Some(f.cpuTot - f.freeCpu) == IntOrZero(detail, "CPUAlloc")
    && Some(f.realMemMb) == IntOrZero(detail, "RealMemory")
    && Some(f.realMemMb - f.freeMemMb) == IntOrZero(detail, "AllocMem")
  }

  /** A field is built exactly when all four numbers parse, and then shows the node. */
  lemma FieldOfSpec(basic: NodeInfo, detail: Record)
    ensures FieldOf(basic, detail).Some? <==>
      && IntOrZero(detail, "RealMemory").Some? && IntOrZero(detail, "AllocMem").Some?
      && IntOrZero(detail, "CPUTot").Some? && IntOrZero(detail, "CPUAlloc").Some?
    ensures FieldOf(basic, detail).Some? ==> ShowsNode(FieldOf(basic, detail).value, basic, detail)
  {
  }

  /** When no `int()` raises, the fields are exactly the qualifying nodes of `newly`,
      each shown from its own records. */
  lemma AlertFieldsShape(newly: set<string>, nodes: Dict<string, NodeInfo>, details: map<string, Record>)
    requires AlertFields(newly, nodes, details).Some?
    ensures var fields := AlertFields(newly, nodes, details).value;
      && (forall n :: n in fields <==> n in newly && Qualifies(n, nodes, details))
      && (forall n :: n in fields ==> Qualifies(n, nodes, details) && ShowsNode(fields[n], nodes.entries[n], details[n]))
  {
    var fields := AlertFields(newly, nodes, details).value;
    forall n | n in fields
      ensures Qualifies(n, nodes, details) && ShowsNode(fields[n], nodes.entries[n], details[n])
    {
      FieldOfSpec(nodes.entries[n], details[n]);
    }
  }

  /** An alert lists exactly the nodes that were not free on the previous run, are
      free now and have both records, each shown from its own records. */
  lemma AlertFieldsSpec(prev: set<string>, p: Poll)
    requires RunOutcome(prev, p).Alerted?
    ensures var fields := RunOutcome(prev, p).alert.fields;
      var nodes := NodesOf(p.sinfo);
      var details := DetailsOf(p.scontrol);
      && (forall n :: n in fields <==> n !in prev && n in NextFree(prev, p) && Qualifies(n, nodes, details))
      && (forall n :: n in fields ==> Qualifies(n, nodes, details) && ShowsNode(fields[n], nodes.entries[n], details[n]))
  {
    var nodes := NodesOf(p.sinfo);
    var details := DetailsOf(p.scontrol);
    var newly := FreeAmong(nodes.order, nodes.entries) - prev;
    assert NextFree(prev, p) == FreeAmong(nodes.order, nodes.entries);
    assert RunOutcome(prev, p).alert.fields == AlertFields(newly, nodes, details).value;
    AlertFieldsShape(newly, nodes, details);
  }

  /** The queue context: the total is the number of queued jobs summed over users,
      and the listed users are min(5, users) of them, most jobs first, each with
      its own count, with nobody left out having more jobs than anybody listed. */
  lemma AlertTopUsers(fields: map<string, FreeField>, squeue: Session.Reply)
    ensures var (total, users) := CommandsCog.QueueSummary(squeue);
      var top := AlertOf(fields, squeue).topUsers;
      && AlertOf(fields, squeue).totalJobs == total == SumOver(users.order, users.entries)
      && |top| == (if |users.order| <= TopAlertUsers then |users.order| else TopAlertUsers)
      && Ranking.Descending(top)
      && (forall e :: e in top ==> e.0 in users.entries && users.entries[e.0] == e.1)
      && (forall u :: u in users.entries && (forall e :: e in top ==> e.0 != u) ==>
            forall e :: e in top ==> users.entries[u] <= e.1)
  {
    var (total, users) := CommandsCog.QueueSummary(squeue);
    CommandsCog.QueueTopIffJobs(squeue);
    Ranking.TopUsersSpec(users, TopAlertUsers);
    forall u | u in users.entries && (forall e :: e in Ranking.TopUsers(users, TopAlertUsers) ==> e.0 != u)
      ensures forall e :: e in Ranking.TopUsers(users, TopAlertUsers) ==> users.entries[u] <= e.1
    {
      Ranking.TopUsersDominate(users, TopAlertUsers, u);
    }
  }

  /** The anti-spam guarantee: after one run reads a set of nodes, a second run
      that reads the same nodes raises no alert. */
  lemma SameNodesTwiceQuiet(prev: set<string>, p1: Poll, p2: Poll)
    requires p1.channelIdSet && p1.channelFound && p2.channelIdSet && p2.channelFound
    requires NodesOf(p1.sinfo) == NodesOf(p2.sinfo) && !NodesOf(p1.sinfo).IsEmpty()
    ensures RunOutcome(NextFree(prev, p1), p2) == NothingNew
  {
  }

  // ---------------------------------------------------------------- !status

  /** The `STATE_COLORS` key of a state: the first of idle, mixed, alloc, drain,
      down (the dict's key order) that the lowercased state contains, and
      "unknown" otherwise (the sixth key and the default coincide). */
  function StateKey(state: string): string {
    var s := Lower(state);
    if Contains(s, "idle") then "idle"
    else if Contains(s, "mixed") then "mixed"
    else if Contains(s, "alloc") then "alloc"
    else if Contains(s, "drain") then "drain"
    else if Contains(s, "down") then "down"
    else "unknown"
  }

  /** The emoji of the legacy `!status`: 🟢 🟠 🔴 ⚫, and ⚪ otherwise. */
  datatype Dot = GreenDot | OrangeDot | RedDot | BlackDot | WhiteDot

  /** The emoji chosen for a key, by substring tests on the key. */
  function KeyDot(k: string): Dot {
    if Contains(k, "idle") then GreenDot
    else if Contains(k, "mixed") then OrangeDot
    else if Contains(k, "alloc") then RedDot
    else if Contains(k, "down") then BlackDot
    else WhiteDot
  }

  function StatusDot(state: string): Dot {
    KeyDot(StateKey(state))
  }

  /** The emoji each state key selects; "drain" and "unknown" share ⚪. */
  lemma KeyDotIdle() ensures KeyDot("idle") == GreenDot {
    assert StartsWith("idle", "idle");
  }

  lemma KeyDotMixed() ensures KeyDot("mixed") == OrangeDot {
    MissingCharNotContained("mixed", "idle", 2);
    assert StartsWith("mixed", "mixed");
  }

  lemma KeyDotAlloc() ensures KeyDot("alloc") == RedDot {
    MissingCharNotContained("alloc", "idle", 0);
    MissingCharNotContained("alloc", "mixed", 0);
    assert StartsWith("alloc", "alloc");
  }

  lemma KeyDotDrain() ensures KeyDot("drain") == WhiteDot {
    MissingCharNotContained("drain", "idle", 2);
    MissingCharNotContained("drain", "mixed", 0);
    MissingCharNotContained("drain", "alloc", 2);
    MissingCharNotContained("drain", "down", 1);
  }

  lemma KeyDotDown() ensures KeyDot("down") == BlackDot {
    MissingCharNotContained("down", "idle", 0);
    MissingCharNotContained("down", "mixed", 0);
    MissingCharNotContained("down", "alloc", 0);
    assert StartsWith("down", "down");
  }

  lemma KeyDotUnknown() ensures KeyDot("unknown") == WhiteDot {
    MissingCharNotContained("unknown", "idle", 0);
    MissingCharNotContained("unknown", "mixed", 0);
    MissingCharNotContained("unknown", "alloc", 0);
    MissingCharNotContained("unknown", "down", 0);
  }

  /** What the legacy emoji means for the lowercased state `s`: 🟢 iff it
      mentions idle, 🟠 iff mixed but not idle, 🔴 iff alloc but neither, ⚫ iff
      down but none of those and not drain, so a drained node that is also down
      shows ⚪. */
  lemma StatusDotSpec(state: string)
    ensures var s := Lower(state);
      && (StatusDot(state) == GreenDot <==> Contains(s, "idle"))
      && (StatusDot(state) == OrangeDot <==> !Contains(s, "idle") && Contains(s, "mixed"))
      && (StatusDot(state) == RedDot <==> !Contains(s, "idle") && !Contains(s, "mixed") && Contains(s, "alloc"))
      && (StatusDot(state) == BlackDot <==>
            !Contains(s, "idle") && !Contains(s, "mixed") && !Contains(s, "alloc") &&
            !Contains(s, "drain") && Contains(s, "down"))
  {
    var s := Lower(state);
    if Contains(s, "idle") {
      KeyDotIdle();
    } else if Contains(s, "mixed") {
      KeyDotMixed();
    } else if Contains(s, "alloc") {
      KeyDotAlloc();
    } else if Contains(s, "drain") {
      KeyDotDrain();
    } else if Contains(s, "down") {
      KeyDotDown();
    } else {
      KeyDotUnknown();
    }
  }

  /** For a state without `*`, the legacy emoji agrees with the newer `/status`
      on idle, mixed and allocated nodes; every other state is ⚫ or ⚪ here and ⚫ there. */
  lemma StatusDotMatchesLight(state: string)
    requires '*' !in state
    ensures StatusDot(state) == GreenDot <==> CommandsCog.StatusLight(state) == CommandsCog.Green
    ensures StatusDot(state) == OrangeDot <==> CommandsCog.StatusLight(state) == CommandsCog.Yellow
    ensures StatusDot(state) == RedDot <==> CommandsCog.StatusLight(state) == CommandsCog.Red
    ensures StatusDot(state) in {BlackDot, WhiteDot} <==> CommandsCog.StatusLight(state) == CommandsCog.Black
  {
    var low := Lower(state);
    assert '*' !in low;
    RemoveCharAbsent(low, '*');
    StatusDotSpec(state);
  }

  /** One `"{emoji} `name`"` line of the legacy board. */
  datatype DotLine = DotLine(dot: Dot, node: string)

  datatype DotField = DotField(partition: string, lines: seq<DotLine>)

  /** `!status` edits its message to a failure notice or to one field per partition. */
  datatype LegacyStatus = StatusFailed | DotBoard(fields: seq<DotField>)

  function DotLinesOf(pairs: seq<(string, string)>): (r: seq<DotLine>)
    ensures |r| == |pairs|
    ensures forall i :: 0 <= i < |pairs| ==> r[i] == DotLine(StatusDot(pairs[i].1), pairs[i].0)
  {
    if |pairs| == 0 then []
    else
      var last := pairs[|pairs| - 1];
      DotLinesOf(pairs[..|pairs| - 1]) + [DotLine(StatusDot(last.1), last.0)]
  }

  function DotFieldsOf(parts: seq<string>, groups: map<string, seq<(string, string)>>): (r: seq<DotField>)
    requires forall p :: p in parts ==> p in groups
    ensures |r| == |parts|
    ensures forall i :: 0 <= i < |parts| ==> r[i] == DotField(parts[i], DotLinesOf(groups[parts[i]]))
  {
    if |parts| == 0 then []
    else DotFieldsOf(parts[..|parts| - 1], groups) + [DotField(parts[|parts| - 1], DotLinesOf(groups[parts[|parts| - 1]]))]
  }

  /** The board `!status` shows for the dict the legacy `get_node_states` returned. */
  function StatusBoard(nodes: Dict<string, NodeInfo>): LegacyStatus
    requires nodes.Valid()
  {
    if nodes.IsEmpty() then StatusFailed
    else
      var g := CommandsCog.Grouped(nodes.order, nodes.entries);
      DotBoard(DotFieldsOf(g.order, g.entries))
  }

  /** `!status`: the grouping loop is the same as the newer `/status`'s. */
  method Status(nodes: Dict<string, NodeInfo>) returns (r: LegacyStatus)
    requires nodes.Valid()
    ensures r == StatusBoard(nodes)
  {
    if nodes.IsEmpty() {
      return StatusFailed;
    }
    var groups := CommandsCog.GroupByPartition(nodes);
    var fields := DotFields(groups);
    r := DotBoard(fields);
  }

  /** The loop adding one embed field per partition, in first-seen order. */
  method DotFields(groups: CommandsCog.Groups) returns (fields: seq<DotField>)
    requires groups.Valid()
    ensures fields == DotFieldsOf(groups.order, groups.entries)
  {
    fields := [];
    var i := 0;
    while i < |groups.order|
      invariant i <= |groups.order|
      invariant fields == DotFieldsOf(groups.order[..i], groups.entries)
    {
      var part := groups.order[i];
      var lines := DotRows(groups.entries[part]);
      DotFieldsStep(groups.order, groups.entries, i);
      fields := fields + [DotField(part, lines)];
      i := i + 1;
    }
    assert groups.order[..i] == groups.order;
  }

  lemma DotFieldsStep(parts: seq<string>, groups: map<string, seq<(string, string)>>, i: nat)
    requires forall p :: p in parts ==> p in groups
    requires i < |parts|
    ensures forall p :: p in parts[..i] ==> p in groups
    ensures DotFieldsOf(parts[..i + 1], groups) == DotFieldsOf(parts[..i], groups) + [DotField(parts[i], DotLinesOf(groups[parts[i]]))]
  {
    assert parts[..i + 1][..i] == parts[..i];
  }

  method DotRows(pairs: seq<(string, string)>) returns (lines: seq<DotLine>)
    ensures lines == DotLinesOf(pairs)
  {
    lines := [];
    var i := 0;
    while i < |pairs|
      invariant i <= |pairs|
      invariant lines == DotLinesOf(pairs[..i])
    {
      var (name, state) := pairs[i];
      assert pairs[..i + 1][..i] == pairs[..i];
      lines := lines + [DotLine(StatusDot(state), name)];
      i := i + 1;
    }
    assert pairs[..i] == pairs;
  }

  /** The legacy board has the newer board's layout: the same partitions in the
      same order, each listing the same nodes in the same order. */
  lemma StatusBoardsAgree(nodes: Dict<string, NodeInfo>)
    requires nodes.Valid()
    ensures StatusBoard(nodes).StatusFailed? <==> CommandsCog.StatusBoard(nodes).FetchFailed?
    ensures StatusBoard(nodes).DotBoard? ==>
      var a := StatusBoard(nodes).fields;
      var b := CommandsCog.StatusBoard(nodes).fields;
      && |a| == |b|
      && forall i :: 0 <= i < |a| ==>
           && a[i].partition == b[i].partition
           && |a[i].lines| == |b[i].visuals|
           && forall j :: 0 <= j < |a[i].lines| ==> a[i].lines[j].node == b[i].visuals[j].node
  {
    if !nodes.IsEmpty() {
      var g := CommandsCog.Grouped(nodes.order, nodes.entries);
      var a := DotFieldsOf(g.order, g.entries);
      var b := CommandsCog.FieldsOf(g.order, g.entries);
      forall i | 0 <= i < |a|
        ensures a[i].partition == b[i].partition && |a[i].lines| == |b[i].visuals|
        ensures forall j :: 0 <= j < |a[i].lines| ==> a[i].lines[j].node == b[i].visuals[j].node
      {
        var pairs := g.entries[g.order[i]];
        assert a[i].lines == DotLinesOf(pairs);
        assert b[i].visuals == CommandsCog.VisualsOf(pairs);
      }
    }
  }

  // ---------------------------------------------------------------- !inspect

  /** `!inspect NODE`: the name is used as typed (no `huk` prefix). */
  datatype NodeReport =
    | NodeUnknown                     // "Could not get details for NODE"
    | ReportRaised                    // an `int()` raised `ValueError`
    | NodeReport(cpuAlloc: int, cpuTot: int, load: string, memAllocMb: int, memRealMb: int, memFreeMb: int)

  function Inspect(node: string, reply: Session.Reply): NodeReport {
    var details := DetailsOf(reply);
    if node !in details || details[node] == map[] then NodeUnknown
    else
      var data := details[node];
      match (IntOrZero(data, "CPUAlloc"), IntOrZero(data, "CPUTot"),
             IntOrZero(data, "RealMemory"), IntOrZero(data, "AllocMem"))
      case (Some(ca), Some(ct), Some(mr), Some(ma)) =>
        NodeReport(ca, ct, SlurmMonCog.Lookup(data, "CPULoad", "N/A"), ma, mr, mr - ma)
      case _ => ReportRaised
  }

  /** A report shows the node's own scontrol values (0 for a missing number,
      "N/A" for a missing load), and free memory is real minus allocated. */
  lemma InspectSpec(node: string, reply: Session.Reply)
    ensures var r := Inspect(node, reply); var details := DetailsOf(reply);
      && (r.NodeUnknown? <==> node !in details || details[node] == map[])
      && (r.NodeReport? ==>
            && Some(r.cpuAlloc) == IntOrZero(details[node], "CPUAlloc")
            && Some(r.cpuTot) == IntOrZero(details[node], "CPUTot")
            && Some(r.memRealMb) == IntOrZero(details[node], "RealMemory")
            && Some(r.memAllocMb) == IntOrZero(details[node], "AllocMem")
            && r.memFreeMb == r.memRealMb - r.memAllocMb
            && (r.load == "N/A" <==> "CPULoad" !in details[node] || details[node]["CPULoad"] == "N/A"))
      && (r.ReportRaised? ==> exists k :: k in details[node] && k in AllowList && ParseInt(details[node][k]).None?)
  {
    var r := Inspect(node, reply);
    var details := DetailsOf(reply);
    if r.ReportRaised? {
      var data := details[node];
      if Succeeded(reply) {
        ScanKeysAllowed(SplitOn(reply.stdout, '\n'));
      }
      if IntOrZero(data, "CPUAlloc").None? {
        assert "CPUAlloc" in data;
      } else if IntOrZero(data, "CPUTot").None? {
        assert "CPUTot" in data;
      } else if IntOrZero(data, "RealMemory").None? {
        assert "RealMemory" in data;
      } else {
        assert "AllocMem" in data;
      }
    }
  }

  // ---------------------------------------------------------------- !queue

  /** `!queue`: the total and the User Activity field, `None` being "No active jobs.". */
  datatype LegacyQueue = LegacyQueue(total: nat, activity: Option<seq<Ranking.Entry>>)

  /** `lines[:15]` of the fully sorted list, when there are users. */
  function Queue(total: nat, users: Dict<string, nat>): LegacyQueue
    requires users.Valid()
  {
    var sorted := Ranking.SortByCount(Ranking.Items(users));
    LegacyQueue(total, if users.IsEmpty() then None else Some(if |sorted| <= 15 then sorted else sorted[..15]))
  }

  /** Slicing the lines after sorting lists the same users as the newer `/queue`. */
  lemma QueueMatchesNewer(total: nat, users: Dict<string, nat>)
    requires users.Valid()
    ensures Queue(total, users).activity == CommandsCog.Queue(total, users).topUsers
  {
  }
}
