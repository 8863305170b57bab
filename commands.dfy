/** The slash commands of cogs/commands.py: `/status`, `/inspect` and `/queue`.

    `/status` and `/queue` are given what the client call they make returned;
    `/inspect` is given the replies to its three remote commands, because it
    chains them (the node name it resolves names every command, and the state
    it reads from the second one picks the third). An embed is modelled as the
    content of its fields, without Discord's markdown. */
module CommandsCog {
  import opened Text
  import opened PyDict
  import Session
  import opened SlurmClient
  import Ranking
  import SlurmMonCog

  // ---------------------------------------------------------------- /status

  /** The emoji in front of a node: 🟢 idle, 🟡 mixed, 🔴 allocated, ⚫ anything else. */
  datatype Light = Green | Yellow | Red | Black

  /** The first-match test on `state.lower().replace("*", "")`. */
  function StatusLight(state: string): Light {
    var s := RemoveChar(Lower(state), '*');
    if Contains(s, "idle") then Green
    else if Contains(s, "mixed") then Yellow
    else if Contains(s, "alloc") then Red
    else Black
  }

  function LightOf(k: SlurmMonCog.StateClass): Light {
    match k
    case IdleNode => Green
    case MixedNode => Yellow
    case AllocNode => Red
    case DownNode => Black
  }

  /** The colour `/status` shows for a node is the class the monitor counts it under. */
  lemma StatusLightIsCountClass(state: string)
    ensures StatusLight(state) == LightOf(SlurmMonCog.CountClass(state))
  {
  }

  /** A node the monitor treats as free is shown green or yellow. */
  lemma FreeNodeShownFree(state: string)
    requires SlurmMonCog.IsFreeState(state)
    ensures StatusLight(state) == Green || StatusLight(state) == Yellow
  {
    SlurmMonCog.FreeStateCounted(state);
  }

  /** Stars (Slurm's "not responding" mark) never change the colour. */
  lemma StatusLightIgnoresStars(state: string)
    ensures StatusLight(RemoveChar(state, '*')) == StatusLight(state)
  {
    var low, t := Lower(state), RemoveChar(Lower(state), '*');
    LowerRemoveCommute(state, '*');
    RemoveCharAbsent(t, '*');
    assert RemoveChar(Lower(RemoveChar(state, '*')), '*') == t;
  }

  /** Letter case never changes the colour. */
  lemma StatusLightIgnoresCase(state: string)
    ensures StatusLight(Lower(state)) == StatusLight(state)
  {
    LowerIdempotent(state);
  }

  lemma LowerIdempotent(s: string)
    ensures Lower(Lower(s)) == Lower(s)
  {
    var l := Lower(s);
    forall i | 0 <= i < |s| ensures Lower(l)[i] == l[i] {
      assert l[i] == LowerChar(s[i]);
    }
  }

  /** `partitions`: each partition's `(name, state)` pairs. */
  type Groups = Dict<string, seq<(string, string)>>

  predicate Known(names: seq<string>, nodes: map<string, NodeInfo>) {
    forall n :: n in names ==> n in nodes
  }

  /** The dict the grouping loop builds from the nodes of `names`, visited in order. */
  function Grouped(names: seq<string>, nodes: map<string, NodeInfo>): (g: Groups)
    requires Known(names, nodes)
    ensures g.Valid()
  {
    if |names| == 0 then Empty()
    else
      var g := Grouped(names[..|names| - 1], nodes);
      var n := names[|names| - 1];
      var p := nodes[n].partition;
      g.Set(p, g.Get(p, []) + [(n, nodes[n].state)])
  }

  /** The partition of each node, in order. */
  function PartitionsOf(names: seq<string>, nodes: map<string, NodeInfo>): (r: seq<string>)
    requires Known(names, nodes)
    ensures |r| == |names|
    ensures forall i :: 0 <= i < |names| ==> r[i] == nodes[names[i]].partition
  {
    if |names| == 0 then [] else PartitionsOf(names[..|names| - 1], nodes) + [nodes[names[|names| - 1]].partition]
  }

  /** The `(name, state)` pairs of the nodes of `names` that sit in partition `p`, in order. */
  function InPartition(names: seq<string>, nodes: map<string, NodeInfo>, p: string): (r: seq<(string, string)>)
    requires Known(names, nodes)
    ensures forall e :: e in r ==> e.0 in names && nodes[e.0].partition == p && e.1 == nodes[e.0].state
  {
    if |names| == 0 then []
    else
      var n := names[|names| - 1];
      InPartition(names[..|names| - 1], nodes, p) + (if nodes[n].partition == p then [(n, nodes[n].state)] else [])
  }

  /** Every node of `names` is listed under its own partition. */
  lemma {:induction false} InPartitionComplete(names: seq<string>, nodes: map<string, NodeInfo>, n: string)
    requires Known(names, nodes) && n in names
    ensures (n, nodes[n].state) in InPartition(names, nodes, nodes[n].partition)
  {
    var pre := names[..|names| - 1];
    var last := names[|names| - 1];
    if last != n {
      assert names == pre + [last];
      InPartitionComplete(pre, nodes, n);
    }
  }

  /** The grouping loop puts the partitions in order of first appearance, and under
      each the nodes of that partition in dict order. */
  lemma {:induction false} GroupedSpec(names: seq<string>, nodes: map<string, NodeInfo>)
    requires Known(names, nodes)
    ensures Grouped(names, nodes).order == Dedup(PartitionsOf(names, nodes))
    ensures forall p :: Grouped(names, nodes).Get(p, []) == InPartition(names, nodes, p)
  {
    if |names| > 0 {
      var pre := names[..|names| - 1];
      var n := names[|names| - 1];
      var p := nodes[n].partition;
      GroupedSpec(pre, nodes);
      var parts := PartitionsOf(names, nodes);
      assert parts[..|parts| - 1] == PartitionsOf(pre, nodes);
      var g := Grouped(pre, nodes);
      assert p in g.entries <==> p in g.order;
    }
  }

  /** One `"{emoji} `name`"` line. */
  datatype Visual = Visual(light: Light, node: string)

  /** One `Partition: P` field. */
  datatype PartitionField = PartitionField(partition: string, visuals: seq<Visual>)

  /** `/status` answers with a failure notice or with one field per partition. */
  datatype StatusReply = FetchFailed | Board(fields: seq<PartitionField>)

  function VisualsOf(pairs: seq<(string, string)>): (r: seq<Visual>)
    ensures |r| == |pairs|
    ensures forall i :: 0 <= i < |pairs| ==> r[i] == Visual(StatusLight(pairs[i].1), pairs[i].0)
  {
    if |pairs| == 0 then [] else VisualsOf(pairs[..|pairs| - 1]) + [Visual(StatusLight(pairs[|pairs| - 1].1), pairs[|pairs| - 1].0)]
  }

  function FieldsOf(parts: seq<string>, groups: map<string, seq<(string, string)>>): (r: seq<PartitionField>)
    requires forall p :: p in parts ==> p in groups
    ensures |r| == |parts|
    ensures forall i :: 0 <= i < |parts| ==> r[i] == PartitionField(parts[i], VisualsOf(groups[parts[i]]))
  {
    if |parts| == 0 then []
    else FieldsOf(parts[..|parts| - 1], groups) + [PartitionField(parts[|parts| - 1], VisualsOf(groups[parts[|parts| - 1]]))]
  }

  /** The reply of `/status` for the dict `get_node_states` returned. */
  function StatusBoard(nodes: Dict<string, NodeInfo>): StatusReply
    requires nodes.Valid()
  {
    if nodes.IsEmpty() then FetchFailed
    else
      var g := Grouped(nodes.order, nodes.entries);
      Board(FieldsOf(g.order, g.entries))
  }

  method Status(nodes: Dict<string, NodeInfo>) returns (r: StatusReply)
    requires nodes.Valid()
    ensures r == StatusBoard(nodes)
  {
    if nodes.IsEmpty() {
      return FetchFailed;
    }
    var groups := GroupByPartition(nodes);
    var fields := PartitionFields(groups);
    r := Board(fields);
  }

  /** The loop adding one embed field per partition, in first-seen order. */
  method PartitionFields(groups: Groups) returns (fields: seq<PartitionField>)
    requires groups.Valid()
    ensures fields == FieldsOf(groups.order, groups.entries)
  {
    fields := [];
    var i := 0;
    while i < |groups.order|
      invariant i <= |groups.order|
      invariant fields == FieldsOf(groups.order[..i], groups.entries)
    {
      var part := groups.order[i];
      var visuals := VisualRows(groups.entries[part]);
      FieldsOfStep(groups.order, groups.entries, i);
      fields := fields + [PartitionField(part, visuals)];
      i := i + 1;
    }
    assert groups.order[..i] == groups.order;
  }

  lemma FieldsOfStep(parts: seq<string>, groups: map<string, seq<(string, string)>>, i: nat)
    requires forall p :: p in parts ==> p in groups
    requires i < |parts|
    ensures forall p :: p in parts[..i] ==> p in groups
    ensures FieldsOf(parts[..i + 1], groups) == FieldsOf(parts[..i], groups) + [PartitionField(parts[i], VisualsOf(groups[parts[i]]))]
  {
    assert parts[..i + 1][..i] == parts[..i];
  }

  /** The grouping loop of `status`. */
  method GroupByPartition(nodes: Dict<string, NodeInfo>) returns (groups: Groups)
    requires nodes.Valid()
    ensures groups == Grouped(nodes.order, nodes.entries)
  {
    groups := Empty();
    var i := 0;
    while i < |nodes.order|
      invariant i <= |nodes.order|
      invariant groups == Grouped(nodes.order[..i], nodes.entries)
    {
      var name := nodes.order[i];
      var data := nodes.entries[name];
      var p := data.partition;
      GroupedStep(nodes.order, nodes.entries, i);
      AppendMember(groups, p, (name, data.state));
      if p !in groups.entries {
        groups := groups.Set(p, []);
      }
      groups := groups.Set(p, groups.entries[p] + [(name, data.state)]);
      i := i + 1;
    }
    assert nodes.order[..i] == nodes.order;
  }

  lemma GroupedStep(names: seq<string>, nodes: map<string, NodeInfo>, i: nat)
    requires Known(names, nodes) && i < |names|
    ensures Known(names[..i], nodes) && Known(names[..i + 1], nodes)
    ensures var g := Grouped(names[..i], nodes); var p := nodes[names[i]].partition;
      Grouped(names[..i + 1], nodes) == g.Set(p, g.Get(p, []) + [(names[i], nodes[names[i]].state)])
  {
    assert names[..i + 1][..i] == names[..i];
  }

  /** `if p not in d: d[p] = []` then `d[p].append(x)` is `d[p] = d.get(p, []) + [x]`. */
  lemma AppendMember(g: Groups, p: string, x: (string, string))
    requires g.Valid()
    ensures var g1 := if p !in g.entries then g.Set(p, []) else g;
      g1.Valid() && p in g1.entries && g1.Set(p, g1.entries[p] + [x]) == g.Set(p, g.Get(p, []) + [x])
  {
  }

  /** The inner loop of `status`: one visual per `(name, state)` pair. */
  method VisualRows(pairs: seq<(string, string)>) returns (visuals: seq<Visual>)
    ensures visuals == VisualsOf(pairs)
  {
    visuals := [];
    var i := 0;
    while i < |pairs|
      invariant i <= |pairs|
      invariant visuals == VisualsOf(pairs[..i])
    {
      var (name, state) := pairs[i];
      assert pairs[..i + 1][..i] == pairs[..i];
      visuals := visuals + [Visual(StatusLight(state), name)];
      i := i + 1;
    }
    assert pairs[..i] == pairs;
  }

  /** `fields` holds one field per partition of `names`, in order of first
      appearance, and each field lists exactly that partition's nodes, in order,
      with their colours. */
  ghost predicate ListsPartitions(fields: seq<PartitionField>, names: seq<string>, nodes: map<string, NodeInfo>)
    requires Known(names, nodes)
  {
    var parts := Dedup(PartitionsOf(names, nodes));
    && |fields| == |parts|
    && forall i :: 0 <= i < |fields| ==>
         fields[i].partition == parts[i] && fields[i].visuals == VisualsOf(InPartition(names, nodes, parts[i]))
  }

  /** `/status` fails exactly when `get_node_states` found no node; otherwise its
      fields list the partitions as `ListsPartitions` says. */
  lemma StatusBoardSpec(nodes: Dict<string, NodeInfo>)
    requires nodes.Valid()
    ensures StatusBoard(nodes).FetchFailed? <==> nodes.entries == map[]
    ensures StatusBoard(nodes).Board? ==> ListsPartitions(StatusBoard(nodes).fields, nodes.order, nodes.entries)
  {
    EmptyIffNoEntries(nodes);
    if !nodes.IsEmpty() {
      var g := Grouped(nodes.order, nodes.entries);
      GroupedSpec(nodes.order, nodes.entries);
      assert StatusBoard(nodes) == Board(FieldsOf(g.order, g.entries));
      BoardFields(g, nodes.order, nodes.entries);
    }
  }

  lemma BoardFields(g: Groups, names: seq<string>, nodes: map<string, NodeInfo>)
    requires Known(names, nodes) && g.Valid()
    requires g.order == Dedup(PartitionsOf(names, nodes))
    requires forall p :: g.Get(p, []) == InPartition(names, nodes, p)
    ensures ListsPartitions(FieldsOf(g.order, g.entries), names, nodes)
  {
    var fields := FieldsOf(g.order, g.entries);
    forall i | 0 <= i < |fields|
      ensures fields[i].partition == g.order[i]
      ensures fields[i].visuals == VisualsOf(InPartition(names, nodes, g.order[i]))
    {
      var p := g.order[i];
      assert fields[i] == PartitionField(p, VisualsOf(g.entries[p]));
      assert g.Get(p, []) == InPartition(names, nodes, p);
    }
  }

  /** Every node appears on the `/status` board, under its partition, with its colour. */
  lemma StatusShowsEveryNode(nodes: Dict<string, NodeInfo>, n: string)
    requires nodes.Valid() && n in nodes.entries
    ensures StatusBoard(nodes).Board?
    ensures exists i :: 0 <= i < |StatusBoard(nodes).fields| &&
              StatusBoard(nodes).fields[i].partition == nodes.entries[n].partition &&
              Visual(StatusLight(nodes.entries[n].state), n) in StatusBoard(nodes).fields[i].visuals
  {
    StatusBoardSpec(nodes);
    assert n in nodes.order;
    ListedOnce(StatusBoard(nodes).fields, nodes.order, nodes.entries, n);
  }

  lemma ListedOnce(fields: seq<PartitionField>, names: seq<string>, nodes: map<string, NodeInfo>, n: string)
    requires Known(names, nodes) && ListsPartitions(fields, names, nodes) && n in names
    ensures exists i :: 0 <= i < |fields| &&
              fields[i].partition == nodes[n].partition &&
              Visual(StatusLight(nodes[n].state), n) in fields[i].visuals
  {
    var i := PartitionListed(names, nodes, n);
    var pairs := InPartition(names, nodes, nodes[n].partition);
    InPartitionComplete(names, nodes, n);
    var j :| 0 <= j < |pairs| && pairs[j] == (n, nodes[n].state);
    assert fields[i].visuals == VisualsOf(pairs);
    assert fields[i].visuals[j] == Visual(StatusLight(nodes[n].state), n);
  }

  /** The partition of every node has its place among the partitions listed. */
  lemma PartitionListed(names: seq<string>, nodes: map<string, NodeInfo>, n: string) returns (i: nat)
    requires Known(names, nodes) && n in names
    ensures i < |Dedup(PartitionsOf(names, nodes))| && Dedup(PartitionsOf(names, nodes))[i] == nodes[n].partition
  {
    var parts := PartitionsOf(names, nodes);
    var k :| 0 <= k < |names| && names[k] == n;
    assert parts[k] == nodes[n].partition;
    assert nodes[n].partition in Dedup(parts);
    i :| 0 <= i < |Dedup(parts)| && Dedup(parts)[i] == nodes[n].partition;
  }

  /** Every line on the `/status` board is a node of that field's partition, with its colour. */
  lemma StatusShowsOnlyItsNodes(nodes: Dict<string, NodeInfo>, i: nat, v: Visual)
    requires nodes.Valid()
    requires StatusBoard(nodes).Board? && i < |StatusBoard(nodes).fields|
    requires v in StatusBoard(nodes).fields[i].visuals
    ensures v.node in nodes.entries
    ensures nodes.entries[v.node].partition == StatusBoard(nodes).fields[i].partition
    ensures v.light == StatusLight(nodes.entries[v.node].state)
  {
    StatusBoardSpec(nodes);
    var f := StatusBoard(nodes).fields[i];
    var pairs := InPartition(nodes.order, nodes.entries, f.partition);
    assert f.visuals == VisualsOf(pairs);
    var j :| 0 <= j < |f.visuals| && f.visuals[j] == v;
    assert pairs[j] in pairs;
  }

  // ---------------------------------------------------------------- /inspect

  /** The RAM field: `used/total GB` from `free -m`, or `N GB (Reported)` from RealMemory. */
  datatype Ram = Direct(usedGb: real, totalGb: real) | Reported(gb: real)

  /** `/inspect` answers with a detective embed, or raises when RealMemory is not an integer. */
  datatype InspectReply =
    | Inspected(node: string, activity: Detective, cpuAlloc: string, cpuTot: string, ram: Ram)
    | InspectRaised

  /** What `get_node_details_fallback([node])` returns for the reply to its `scontrol`. */
  function Fallback(reply: Session.Reply): map<string, Record> {
    if Succeeded(reply) then ScontrolDetails(reply.stdout) else map[]
  }

  /** The state `inspect` hands to the detective: `data.get("State", "UNKNOWN")`. */
  function InspectState(data: Record): string {
    SlurmMonCog.Lookup(data, "State", "UNKNOWN")
  }

  /** `/inspect NODE`, given the replies to `free -m` over SSH, to `scontrol show
      node`, and to the command the detective picks. */
  function Inspect(node: string, memReply: Session.Reply, fbReply: Session.Reply, detReply: Session.Reply): InspectReply {
    var full := ResolveNodeName(node);
    var data := SlurmMonCog.Lookup2(Fallback(fbReply), full);
    match RamField(MemoryDirect(memReply), data)
    case None => InspectRaised
    case Some(ram) =>
      Inspected(full, DetectiveInfo(InspectState(data), detReply),
                SlurmMonCog.Lookup(data, "CPUAlloc", "?"), SlurmMonCog.Lookup(data, "CPUTot", "?"), ram)
  }

  /** The RAM field: the direct stats when their total is positive, else
      `int(data.get('RealMemory', 0))` megabytes; `None` is that `int()`'s `ValueError`. */
  function RamField(mem: MemStats, data: Record): Option<Ram> {
    if mem.totalGb > 0.0 then Some(Direct(mem.usedGb, mem.totalGb))
    else if "RealMemory" !in data then Some(Reported(0.0))
    else match ParseInt(data["RealMemory"])
      case None => None
      case Some(mb) => Some(Reported(Gb(mb)))
  }

  lemma UnknownNotBusy()
    ensures !BusyState("UNKNOWN")
  {
    LowerUnknown();
    UnknownLacksBusyWords();
  }

  lemma LowerUnknown()
    ensures Lower("UNKNOWN") == "unknown"
  {
  }

  lemma UnknownLacksBusyWords()
    ensures !Contains("unknown", "alloc") && !Contains("unknown", "mix")
  {
    MissingCharNotContained("unknown", "alloc", 0);
    MissingCharNotContained("unknown", "mix", 0);
  }

  /** The scontrol records never hold "State", so the state `inspect` reads is
      always "UNKNOWN". */
  lemma InspectStateUnknown(fbReply: Session.Reply, full: string)
    ensures InspectState(SlurmMonCog.Lookup2(Fallback(fbReply), full)) == "UNKNOWN"
  {
    if Succeeded(fbReply) {
      ScanKeysAllowed(SplitOn(fbReply.stdout, '\n'));
    }
    assert "State" !in AllowList;
  }

  /** Because the state is always "UNKNOWN", `/inspect` hands the detective the
      idle path (LastBusyTime) whatever the node is doing, and never reports a
      running job. */
  lemma InspectNeverShowsJob(node: string, memReply: Session.Reply, fbReply: Session.Reply, detReply: Session.Reply)
    ensures var r := Inspect(node, memReply, fbReply, detReply);
      r.Inspected? ==> r.activity == DetectiveInfo("UNKNOWN", detReply) && !r.activity.RunningJob?
  {
    InspectStateUnknown(fbReply, ResolveNodeName(node));
    UnknownNotBusy();
  }

  /** The embed names the resolved node: a bare number N becomes `hukN`. */
  lemma InspectResolvesName(node: string, memReply: Session.Reply, fbReply: Session.Reply, detReply: Session.Reply)
    ensures Inspect(node, memReply, fbReply, detReply).Inspected? ==>
      && (IsDigits(node) ==> Inspect(node, memReply, fbReply, detReply).node == "huk" + node)
      && (!IsDigits(node) ==> Inspect(node, memReply, fbReply, detReply).node == node)
  {
  }

  /** When `free -m` gives a positive total, the RAM field shows it and the command
      cannot raise, whatever scontrol said. */
  lemma InspectPrefersDirect(node: string, memReply: Session.Reply, fbReply: Session.Reply, detReply: Session.Reply)
    requires MemoryDirect(memReply).totalGb > 0.0
    ensures Inspect(node, memReply, fbReply, detReply).Inspected?
    ensures Inspect(node, memReply, fbReply, detReply).ram
      == Direct(MemoryDirect(memReply).usedGb, MemoryDirect(memReply).totalGb)
    ensures Succeeded(memReply)
  {
  }

  /** A node scontrol knows nothing about shows `?/?` cores and 0 GB reported
      when `free -m` gives no total. */
  lemma InspectUnknownNode(node: string, memReply: Session.Reply, fbReply: Session.Reply, detReply: Session.Reply)
    requires ResolveNodeName(node) !in Fallback(fbReply)
    requires MemoryDirect(memReply).totalGb <= 0.0
    ensures Inspect(node, memReply, fbReply, detReply).Inspected?
    ensures Inspect(node, memReply, fbReply, detReply).cpuAlloc == "?"
    ensures Inspect(node, memReply, fbReply, detReply).cpuTot == "?"
    ensures Inspect(node, memReply, fbReply, detReply).ram == Reported(0.0)
  {
  }

  /** `/inspect` raises only when `free -m` gave no positive total and the node's
      RealMemory is not an integer literal. */
  lemma InspectRaisesOnlyOnBadRealMemory(node: string, memReply: Session.Reply, fbReply: Session.Reply, detReply: Session.Reply)
    requires Inspect(node, memReply, fbReply, detReply).InspectRaised?
    ensures MemoryDirect(memReply).totalGb <= 0.0
    ensures var fb := Fallback(fbReply); var full := ResolveNodeName(node);
      && full in fb && "RealMemory" in fb[full]
      && !DigitGroups(fb[full]["RealMemory"])
  {
  }

  // ---------------------------------------------------------------- /queue

  const TopQueueUsers: nat := 15

  /** The `/queue` embed: the total, and the top users when there are any. */
  datatype QueueReply = QueueReply(total: nat, topUsers: Option<seq<Ranking.Entry>>)

  /** What `get_queue_summary` returns for the reply to its `squeue`. */
  function QueueSummary(reply: Session.Reply): (r: (nat, Dict<string, nat>))
    ensures r.1.Valid()
  {
    if Succeeded(reply) then (|QueueUsers(reply.stdout)|, UserCounts(QueueUsers(reply.stdout)))
    else (0, Empty())
  }

  function Queue(total: nat, users: Dict<string, nat>): QueueReply
    requires users.Valid()
  {
    QueueReply(total, if users.IsEmpty() then None else Some(Ranking.TopUsers(users, TopQueueUsers)))
  }

  /** The top-users list has min(15, users) entries, most jobs first, each with its
      own count, and nobody left out has more jobs than anybody listed. */
  lemma QueueTopUsers(total: nat, users: Dict<string, nat>)
    requires users.Valid() && !users.IsEmpty()
    ensures Queue(total, users).topUsers.Some?
    ensures var top := Queue(total, users).topUsers.value;
      && |top| == (if |users.order| <= TopQueueUsers then |users.order| else TopQueueUsers)
      && Ranking.Descending(top)
      && (forall e :: e in top ==> e.0 in users.entries && users.entries[e.0] == e.1)
      && (forall u :: u in users.entries && (forall e :: e in top ==> e.0 != u) ==>
            forall e :: e in top ==> users.entries[u] <= e.1)
  {
    Ranking.TopUsersSpec(users, TopQueueUsers);
    forall u | u in users.entries && (forall e :: e in Ranking.TopUsers(users, TopQueueUsers) ==> e.0 != u)
      ensures forall e :: e in Ranking.TopUsers(users, TopQueueUsers) ==> users.entries[u] <= e.1
    {
      Ranking.TopUsersDominate(users, TopQueueUsers, u);
    }
  }

  /** For the summary of an `squeue` reply, the Top Users field appears exactly when
      the total is positive, and the total is the sum of the per-user counts. */
  lemma QueueTopIffJobs(reply: Session.Reply)
    ensures var (total, users) := QueueSummary(reply);
      && users.Valid()
      && (Queue(total, users).topUsers.Some? <==> total > 0)
      && total == SumOver(users.order, users.entries)
  {
    if Succeeded(reply) {
      var us := QueueUsers(reply.stdout);
      UserCountsSum(us);
      if |us| > 0 {
        var d := UserCounts(us);
        assert us[|us| - 1] in d.entries;
        assert us[|us| - 1] in d.order;
      }
    }
  }
}
