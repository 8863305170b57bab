/** `SlurmClient` (utils/slurm_client.py): the parsers that turn the output of
    `sinfo`, `scontrol show node`, `squeue` and `free -m` into dicts, the node-name
    shorthand and the "detective" lookup. Each remote command reaches the parser
    as a `Session.Reply`: what `with get_connection() as conn: conn.run(cmd)`
    produced (see module Session). Every parser turns an unreachable cluster, a
    raising `run` and a non-zero exit into its empty result, as the source's
    `except` and `if not result.ok` branches do. */
module SlurmClient {
  import opened Text
  import opened PyDict
  import Session

  /** `result.ok` after a successful connection. */
  predicate Succeeded(reply: Session.Reply) {
    reply.Done? && reply.ok
  }

  // ---------------------------------------------------------------- sinfo

  /** One value of the dict `get_node_states` returns. */
  datatype NodeInfo = NodeInfo(partition: string, state: string, cpus: string, memory: string)

  /** The lines the loop of `get_node_states` visits: the stripped output split on
      newlines, with the first line dropped exactly when it contains "PARTITION". */
  function SinfoLines(stdout: string): (r: seq<string>)
    ensures var all := SplitOn(Strip(stdout), '\n');
      && |r| == (if Contains(all[0], "PARTITION") then |all| - 1 else |all|)
      && r == all[|all| - |r|..]
  {
    var all := SplitOn(Strip(stdout), '\n');
    if Contains(all[0], "PARTITION") then all[1..] else all
  }

  /** What one `sinfo -o "%P %n %T %c %m"` line contributes: `None` for a line with
      fewer than five fields. */
  function SinfoLine(line: string): (r: Option<(string, NodeInfo)>)
    ensures r.Some? <==> |Words(line)| >= 5
    ensures r.Some? ==> '*' !in r.value.1.partition
    ensures r.Some? ==> (r.value.0 == Words(line)[1] && r.value.1.state == Words(line)[2]
                         && r.value.1.cpus == Words(line)[3] && r.value.1.memory == Words(line)[4])
  {
    var parts := Words(line);
    if |parts| >= 5 then Some((parts[1], NodeInfo(RemoveChar(parts[0], '*'), parts[2], parts[3], parts[4])))
    else None
  }

  /** The dict `get_node_states` returns for a successful `sinfo`. */
  function SinfoNodes(stdout: string): (d: Dict<string, NodeInfo>)
    ensures d.Valid()
  {
    KeyedFold(SinfoLines(stdout), SinfoLine)
  }

  method GetNodeStates(reply: Session.Reply) returns (nodes: Dict<string, NodeInfo>)
    ensures Succeeded(reply) ==> nodes == SinfoNodes(reply.stdout)
    ensures !Succeeded(reply) ==> nodes == Empty()
  {
    nodes := Empty();
    if !Succeeded(reply) {
      return;
    }
    var lines := SplitOn(Strip(reply.stdout), '\n');
    if Contains(lines[0], "PARTITION") {
      lines := lines[1..];
    }
    assert lines == SinfoLines(reply.stdout);
    nodes := ParseSinfoLines(lines);
  }

  /** The loop of `get_node_states` over the kept lines. */
  method ParseSinfoLines(lines: seq<string>) returns (nodes: Dict<string, NodeInfo>)
    ensures nodes == KeyedFold(lines, SinfoLine)
  {
    nodes := Empty();
    var i := 0;
    while i < |lines|
      invariant i <= |lines|
      invariant nodes == KeyedFold(lines[..i], SinfoLine)
    {
      KeyedFoldStep(lines, i, SinfoLine);
      nodes := AddSinfoLine(nodes, lines[i]);
      i := i + 1;
    }
    assert lines[..i] == lines;
  }

  /** One pass of the loop of `get_node_states`. */
  method AddSinfoLine(nodes: Dict<string, NodeInfo>, line: string) returns (next: Dict<string, NodeInfo>)
    requires nodes.Valid()
    ensures next == Insert(nodes, SinfoLine(line))
  {
    next := nodes;
    var parts := Words(line);
    if |parts| >= 5 {
      var part := RemoveChar(parts[0], '*');
      next := nodes.Set(parts[1], NodeInfo(part, parts[2], parts[3], parts[4]));
    }
  }

  /** A data line `P N T C M` parses to the record of node `N`, with every `*`
      removed from the partition and the other fields kept as written. */
  lemma SinfoLineFields(line: string, p: string, n: string, t: string, c: string, m: string)
    requires IsWord(p) && IsWord(n) && IsWord(t) && IsWord(c) && IsWord(m)
    requires line == JoinWith([p, n, t, c, m], ' ')
    ensures SinfoLine(line) == Some((n, NodeInfo(RemoveChar(p, '*'), t, c, m)))
  {
    WordsJoin5(p, n, t, c, m);
    SinfoLineOfWords(line, p, n, t, c, m);
  }

  lemma SinfoLineOfWords(line: string, p: string, n: string, t: string, c: string, m: string)
    requires Words(line) == [p, n, t, c, m]
    ensures SinfoLine(line) == Some((n, NodeInfo(RemoveChar(p, '*'), t, c, m)))
  {
  }



  /** A node is in the result exactly when some kept line with five fields names
      it in its second field; its record comes from the last such line. */
  lemma SinfoNodesLastLineWins(stdout: string, i: nat)
    requires i < |SinfoLines(stdout)| && |Words(SinfoLines(stdout)[i])| >= 5
    requires forall j :: i < j < |SinfoLines(stdout)| && |Words(SinfoLines(stdout)[j])| >= 5 ==>
               Words(SinfoLines(stdout)[j])[1] != Words(SinfoLines(stdout)[i])[1]
    ensures Words(SinfoLines(stdout)[i])[1] in SinfoNodes(stdout).entries
    ensures SinfoNodes(stdout).entries[Words(SinfoLines(stdout)[i])[1]] == SinfoLine(SinfoLines(stdout)[i]).value.1
  {
    KeyedFoldLastWins(SinfoLines(stdout), SinfoLine, i);
  }

  // ---------------------------------------------------------------- free -m

  /** `get_node_memory_direct`'s stats dict, in GB. */
  datatype MemStats = MemStats(totalGb: real, usedGb: real, freeGb: real)

  const ZeroStats := MemStats(0.0, 0.0, 0.0)

  /** `int(tok) / 1024.0` */
  function Gb(mb: int): real { mb as real / 1024.0 }

  /** `get_node_memory_direct`: the three integers of `free -m`'s Mem row, each
      divided by 1024. The three `int()` calls run in order and a `ValueError`
      is caught after the ones before it have been stored, so a bad token leaves
      its field and the later ones at zero. */
  function MemoryDirect(reply: Session.Reply): (m: MemStats)
    ensures m != ZeroStats ==> Succeeded(reply) && |Words(Strip(reply.stdout))| == 3
    ensures Succeeded(reply) && |Words(Strip(reply.stdout))| == 3 ==>
              var parts := Words(Strip(reply.stdout));
              && (ParseInt(parts[0]).Some? ==> m.totalGb == Gb(ParseInt(parts[0]).value))
              && (ParseInt(parts[0]).None? ==> m == ZeroStats)
              && (ParseInt(parts[0]).Some? && ParseInt(parts[1]).Some? ==> m.usedGb == Gb(ParseInt(parts[1]).value))
              && (ParseInt(parts[1]).None? ==> m.usedGb == 0.0 && m.freeGb == 0.0)
              && (ParseInt(parts[0]).Some? && ParseInt(parts[1]).Some? && ParseInt(parts[2]).Some? ==>
                    m.freeGb == Gb(ParseInt(parts[2]).value))
              && (ParseInt(parts[2]).None? ==> m.freeGb == 0.0)
  {
    if !Succeeded(reply) then ZeroStats
    else
      var parts := Words(Strip(reply.stdout));
      if |parts| != 3 then ZeroStats
      else match (ParseInt(parts[0]), ParseInt(parts[1]), ParseInt(parts[2]))
        case (None, _, _) => ZeroStats
        case (Some(t), None, _) => MemStats(Gb(t), 0.0, 0.0)
        case (Some(t), Some(u), None) => MemStats(Gb(t), Gb(u), 0.0)
        case (Some(t), Some(u), Some(f)) => MemStats(Gb(t), Gb(u), Gb(f))
  }

  /** What `free -m | awk '{print $2, $3, $4}'` prints for total, used and free
      megabytes reads back as those amounts in GB. */
  lemma MemoryDirectReadsFree(out: string, total: nat, used: nat, free: nat)
    requires out == JoinWith([NatToString(total), NatToString(used), NatToString(free)], ' ') + "\n"
    ensures MemoryDirect(Session.Done(true, out)) == MemStats(Gb(total), Gb(used), Gb(free))
  {
    var line := JoinWith([NatToString(total), NatToString(used), NatToString(free)], ' ');
    DigitsAreWord(NatToString(total));
    DigitsAreWord(NatToString(used));
    DigitsAreWord(NatToString(free));
    WordsJoin3(NatToString(total), NatToString(used), NatToString(free));
    StripNewline(line);
    ParseNatToString(total);
    ParseNatToString(used);
    ParseNatToString(free);
  }

  /** `(line + "\n").strip()` is `line` for a line that begins and ends with a
      non-space character. */
  lemma StripNewline(line: string)
    requires |line| > 0 && !IsSpace(line[0]) && !IsSpace(line[|line| - 1])
    ensures Strip(line + "\n") == line
  {
    assert TrimLeft(line + "\n") == line + "\n";
    assert (line + "\n")[..|line|] == line;
    StripUnchanged(line);
  }

  // ---------------------------------------------------------------- scontrol show node

  /** The keys `get_node_details_fallback` keeps. */
  const AllowList: set<string> := {"RealMemory", "AllocMem", "CPUAlloc", "CPUTot", "CPULoad"}

  type Record = map<string, string>

  /** `tok.split("=", 1)` for a token containing `=`, kept only for an allowed key. */
  function TokenEntry(tok: string): (r: Option<(string, string)>)
    ensures r.Some? ==> r.value.0 in AllowList && '=' !in r.value.0 && tok == r.value.0 + "=" + r.value.1
  {
    match IndexOfChar(tok, '=')
    case None => None
    case Some(e) =>
      assert tok == tok[..e] + "=" + tok[e + 1..];
      if tok[..e] in AllowList then Some((tok[..e], tok[e + 1..])) else None
  }

  /** Every `Key=Value` token with an allowed key is kept, with the whole text after
      the first `=` as its value. */
  lemma TokenEntryKeeps(k: string, v: string)
    requires k in AllowList && '=' !in k
    ensures TokenEntry(k + "=" + v) == Some((k, v))
  {
    var tok := k + "=" + v;
    assert tok[|k|] == '=';
    assert forall j :: 0 <= j < |k| ==> tok[j] == k[j];
    assert tok[..|k|] == k && tok[|k| + 1..] == v;
  }

  /** The inner loop over one line's tokens: `details[current_node][k] = v`. */
  function FoldTokens(rec: Record, toks: seq<string>): (r: Record)
    ensures forall k :: k in r ==> k in rec || k in AllowList
  {
    if |toks| == 0 then rec
    else
      var r0 := FoldTokens(rec, toks[..|toks| - 1]);
      match TokenEntry(toks[|toks| - 1])
      case None => r0
      case Some(kv) => r0[kv.0 := kv.1]
  }

  /** The first word of a line that starts with `NodeName=` starts with it too. */
  lemma NodeLineFirstWord(line: string)
    requires StartsWith(line, "NodeName=")
    ensures |Words(line)| > 0 && StartsWith(Words(line)[0], "NodeName=")
  {
    assert forall j :: 0 <= j < 9 ==> line[j] == "NodeName="[j];
    var k := WordEnd(line, 0);
    assert k >= 9;
    WordsHead(line);
    assert line[..k][..9] == line[..9];
  }

  /** `w.split("=")` for `w` starting with `NodeName=`: the second piece is the
      first piece of what follows `NodeName=`. */
  lemma NodeWordSplit(w: string)
    requires StartsWith(w, "NodeName=")
    ensures |SplitOn(w, '=')| >= 2 && SplitOn(w, '=')[1] == SplitOn(w[9..], '=')[0]
  {
    assert forall j :: 0 <= j < 9 ==> w[j] == "NodeName="[j];
    assert w[8] == '=';
    assert IndexOfChar(w, '=') == Some(8);
  }

  lemma NodeNamePiece(w: string)
    requires StartsWith(w, "NodeName=")
    ensures var n := SplitOn(w[9..], '=')[0];
      w == "NodeName=" + n || StartsWith(w, "NodeName=" + n + "=")
  {
    var rest := w[9..];
    SplitOnHead(rest, '=');
    assert w == "NodeName=" + rest;
    var n := SplitOn(rest, '=')[0];
    if n != rest {
      assert rest[..|n| + 1] == n + "=";
      assert w[..9 + |n| + 1] == "NodeName=" + n + "=";
    }
  }

  /** `line.split()[0].split("=")[1]` on a line that starts with `NodeName=`: the
      text after `NodeName=` in the first word, up to the next `=`. */
  function NodeNameOf(line: string): (n: string)
    requires StartsWith(line, "NodeName=")
    ensures '=' !in n
    ensures |Words(line)| > 0 &&
            (Words(line)[0] == "NodeName=" + n || StartsWith(Words(line)[0], "NodeName=" + n + "="))
  {
    NodeLineFirstWord(line);
    var w := Words(line)[0];
    NodeWordSplit(w);
    NodeNamePiece(w);
    SplitOn(w, '=')[1]
  }

  /** The state of the scan: the dict built so far and `current_node`; `None` and
      the empty name are both falsy, so both are the empty string here. */
  datatype Scan = Scan(details: map<string, Record>, current: string) {
    predicate CursorValid() {
      current != "" ==> current in details
    }
  }

  const ScanStart := Scan(map[], "")

  predicate IsNodeLine(raw: string) {
    StartsWith(Strip(raw), "NodeName=")
  }

  /** One pass of the outer loop of `get_node_details_fallback`. */
  function ScanLine(s: Scan, raw: string): (r: Scan)
    requires s.CursorValid()
    ensures r.CursorValid()
  {
    AbsorbTokens(EnterNode(s, Strip(raw)), Strip(raw))
  }

  /** `if line.startswith("NodeName="): current_node = ...; details[current_node] = {}` */
  function EnterNode(s: Scan, line: string): (r: Scan)
    requires s.CursorValid()
    ensures r.CursorValid()
    ensures StartsWith(line, "NodeName=") ==> r.current == NodeNameOf(line) && r.details == s.details[r.current := map[]]
    ensures !StartsWith(line, "NodeName=") ==> r == s
  {
    if StartsWith(line, "NodeName=") then
      var n := NodeNameOf(line);
      Scan(s.details[n := map[]], n)
    else s
  }

  /** `if current_node: for tok in line.split(): ...` */
  function AbsorbTokens(s: Scan, line: string): (r: Scan)
    requires s.CursorValid()
    ensures r.CursorValid() && r.current == s.current && r.details.Keys == s.details.Keys
    ensures s.current != "" ==> r.details == s.details[s.current := FoldTokens(s.details[s.current], Words(line))]
    ensures s.current == "" ==> r == s
  {
    if s.current != "" then
      Scan(s.details[s.current := FoldTokens(s.details[s.current], Words(line))], s.current)
    else s
  }

  /** The scan over `lines`, starting from state `s`. */
  function ScanFrom(s: Scan, lines: seq<string>): (r: Scan)
    requires s.CursorValid()
    ensures r.CursorValid()
  {
    if |lines| == 0 then s else ScanLine(ScanFrom(s, lines[..|lines| - 1]), lines[|lines| - 1])
  }

  /** The dict `get_node_details_fallback` returns for a successful `scontrol`. */
  function ScontrolDetails(stdout: string): map<string, Record> {
    ScanFrom(ScanStart, SplitOn(stdout, '\n')).details
  }

  method GetNodeDetailsFallback(reply: Session.Reply) returns (details: map<string, Record>)
    ensures Succeeded(reply) ==> details == ScontrolDetails(reply.stdout)
    ensures !Succeeded(reply) ==> details == map[]
  {
    details := map[];
    if !Succeeded(reply) {
      return;
    }
    details := ScanLines(SplitOn(reply.stdout, '\n'));
  }

  /** The outer loop of `get_node_details_fallback`. */
  method ScanLines(lines: seq<string>) returns (details: map<string, Record>)
    ensures details == ScanFrom(ScanStart, lines).details
  {
    details := map[];
    var current := "";
    var i := 0;
    while i < |lines|
      invariant i <= |lines|
      invariant Scan(details, current) == ScanFrom(ScanStart, lines[..i])
    {
      ScanFromStep(lines, i);
      details, current := ScanOneLine(details, current, lines[i]);
      i := i + 1;
    }
    assert lines[..i] == lines;
  }

  /** One pass of that loop. */
  method ScanOneLine(details0: map<string, Record>, current0: string, raw: string) returns (details: map<string, Record>, current: string)
    requires Scan(details0, current0).CursorValid()
    ensures Scan(details, current) == ScanLine(Scan(details0, current0), raw)
  {
    details, current := details0, current0;
    var line := Strip(raw);
    if StartsWith(line, "NodeName=") {
      current := NodeNameOf(line);
      details := details[current := map[]];
    }
    assert Scan(details, current) == EnterNode(Scan(details0, current0), line);
    if current != "" {
      var rec := FoldLineTokens(details[current], Words(line));
      details := details[current := rec];
    }
  }

  /** `for tok in line.split(): ... details[current_node][k] = v` on the record
      of the current node. */
  method FoldLineTokens(rec: Record, toks: seq<string>) returns (r: Record)
    ensures r == FoldTokens(rec, toks)
  {
    r := rec;
    var j := 0;
    while j < |toks|
      invariant j <= |toks|
      invariant r == FoldTokens(rec, toks[..j])
    {
      FoldTokensStep(rec, toks, j);
      var tok := toks[j];
      match IndexOfChar(tok, '=') {
        case None =>
        case Some(e) =>
          var k, v := tok[..e], tok[e + 1..];
          if k in AllowList {
            r := r[k := v];
          }
      }
      j := j + 1;
    }
    assert toks[..j] == toks;
  }

  lemma ScanFromStep(lines: seq<string>, i: nat)
    requires i < |lines|
    ensures ScanFrom(ScanStart, lines[..i + 1]) == ScanLine(ScanFrom(ScanStart, lines[..i]), lines[i])
  {
    assert lines[..i + 1][..i] == lines[..i];
  }

  lemma FoldTokensStep(rec: Record, toks: seq<string>, j: nat)
    requires j < |toks|
    ensures FoldTokens(rec, toks[..j + 1]) ==
              match TokenEntry(toks[j])
              case None => FoldTokens(rec, toks[..j])
              case Some(kv) => FoldTokens(rec, toks[..j])[kv.0 := kv.1]
  {
    assert toks[..j + 1][..j] == toks[..j];
  }

  /** Only the five allowed keys are ever stored, under any node. */
  lemma {:induction false} ScanKeysAllowed(lines: seq<string>)
    ensures KeysAllowed(ScanFrom(ScanStart, lines))
  {
    if |lines| > 0 {
      ScanKeysAllowed(lines[..|lines| - 1]);
      ScanLineKeysAllowed(ScanFrom(ScanStart, lines[..|lines| - 1]), lines[|lines| - 1]);
    }
  }

  /** Every record of the scan holds allowed keys only. */
  predicate KeysAllowed(s: Scan) {
    forall n, k :: n in s.details && k in s.details[n] ==> k in AllowList
  }

  lemma ScanLineKeysAllowed(s: Scan, raw: string)
    requires s.CursorValid() && KeysAllowed(s)
    ensures KeysAllowed(ScanLine(s, raw))
  {
  }

  /** Lines before the first `NodeName=` line change nothing. */
  lemma {:induction false} ScanPreambleIgnored(pre: seq<string>)
    requires forall i :: 0 <= i < |pre| ==> !IsNodeLine(pre[i])
    ensures ScanFrom(ScanStart, pre) == ScanStart
  {
    if |pre| > 0 {
      ScanPreambleIgnored(pre[..|pre| - 1]);
    }
  }

  /** Scanning `a + b` is scanning `b` from where `a` left off. */
  lemma {:induction false} ScanAppend(s: Scan, a: seq<string>, b: seq<string>)
    requires s.CursorValid()
    ensures ScanFrom(s, a + b) == ScanFrom(ScanFrom(s, a), b)
  {
    if |b| > 0 {
      assert (a + b)[..|a + b| - 1] == a + b[..|b| - 1];
      ScanAppend(s, a, b[..|b| - 1]);
    } else {
      assert a + b == a;
    }
  }

  /** The output of `scontrol` may start with any text: if none of it is a
      `NodeName=` line, the result is that of the rest alone. */
  lemma ScanSkipsPreamble(pre: seq<string>, rest: seq<string>)
    requires forall i :: 0 <= i < |pre| ==> !IsNodeLine(pre[i])
    ensures ScanFrom(ScanStart, pre + rest) == ScanFrom(ScanStart, rest)
  {
    ScanAppend(ScanStart, pre, rest);
    ScanPreambleIgnored(pre);
  }

  /** A `NodeName=` line (re)starts that node's record from empty, holding just
      the allowed tokens of that line, and leaves every other node's record alone. */
  lemma ScanNodeLineRestarts(s: Scan, raw: string)
    requires s.CursorValid() && IsNodeLine(raw) && NodeNameOf(Strip(raw)) != ""
    ensures var n := NodeNameOf(Strip(raw));
      ScanLine(s, raw) == Scan(s.details[n := FoldTokens(map[], Words(Strip(raw)))], n)
  {
    var line := Strip(raw);
    var n := NodeNameOf(line);
    var e := EnterNode(s, line);
    var f := FoldTokens(map[], Words(line));
    assert e == Scan(s.details[n := map[]], n);
    assert AbsorbTokens(e, line) == Scan(e.details[n := f], n);
    MapUpdateTwice(s.details, n, map[], f);
  }

  /** A `NodeName=` line whose name is empty records an empty entry under `""`
      and leaves the cursor unset, so the following lines are skipped until the
      next `NodeName=` line. */
  lemma ScanEmptyNodeName(s: Scan, raw: string)
    requires s.CursorValid() && IsNodeLine(raw) && NodeNameOf(Strip(raw)) == ""
    ensures ScanLine(s, raw) == Scan(s.details["" := map[]], "")
    ensures forall raw' :: !IsNodeLine(raw') ==> ScanLine(ScanLine(s, raw), raw') == ScanLine(s, raw)
  {
  }

  lemma MapUpdateTwice<K, V>(d: map<K, V>, k: K, a: V, b: V)
    ensures d[k := a][k := b] == d[k := b]
  {
  }

  /** The node names the `NodeName=` lines among `lines` announce. */
  function BlockNames(lines: seq<string>): set<string> {
    if |lines| == 0 then {}
    else
      var last := lines[|lines| - 1];
      BlockNames(lines[..|lines| - 1]) + if IsNodeLine(last) then {NodeNameOf(Strip(last))} else {}
  }

  lemma ScanLineNodes(s: Scan, raw: string)
    requires s.CursorValid()
    ensures ScanLine(s, raw).details.Keys == s.details.Keys + if IsNodeLine(raw) then {NodeNameOf(Strip(raw))} else {}
  {
  }

  /** The nodes with an entry are exactly those some line starts a block for. */
  lemma {:induction false} ScanNodes(lines: seq<string>)
    ensures ScanFrom(ScanStart, lines).details.Keys == BlockNames(lines)
  {
    if |lines| > 0 {
      ScanNodes(lines[..|lines| - 1]);
      ScanLineNodes(ScanFrom(ScanStart, lines[..|lines| - 1]), lines[|lines| - 1]);
    }
  }

  // ---------------------------------------------------------------- squeue -h -o %u

  /** `[u for u in stdout.strip().split('\n') if u]`: one user per queued job. */
  function QueueUsers(stdout: string): (r: seq<string>)
    ensures forall u :: u in r ==> |u| > 0 && '\n' !in u
  {
    Filter(SplitOn(Strip(stdout), '\n'), u => |u| > 0)
  }

  /** `user_counts[u] = user_counts.get(u, 0) + 1` over the users. */
  function UserCounts(users: seq<string>): (d: Dict<string, nat>)
    ensures d.Valid()
  {
    if |users| == 0 then Empty() else Bump(UserCounts(users[..|users| - 1]), users[|users| - 1])
  }

  /** `users[u] = users.get(u, 0) + 1` */
  function Bump(d: Dict<string, nat>, u: string): (r: Dict<string, nat>)
    requires d.Valid()
    ensures r.Valid() && u in r.entries
    ensures r.entries == d.entries[u := d.Get(u, 0) + 1]
  {
    d.Set(u, d.Get(u, 0) + 1)
  }

  method GetQueueSummary(reply: Session.Reply) returns (total: nat, counts: Dict<string, nat>)
    ensures Succeeded(reply) ==> total == |QueueUsers(reply.stdout)| && counts == UserCounts(QueueUsers(reply.stdout))
    ensures !Succeeded(reply) ==> total == 0 && counts == Empty()
  {
    if !Succeeded(reply) {
      return 0, Empty();
    }
    var users := QueueUsers(reply.stdout);
    counts := CountUsers(users);
    total := |users|;
  }

  /** The counting loop of `get_queue_summary`. */
  method CountUsers(users: seq<string>) returns (counts: Dict<string, nat>)
    ensures counts == UserCounts(users)
  {
    counts := Empty();
    var i := 0;
    while i < |users|
      invariant i <= |users|
      invariant counts == UserCounts(users[..i])
    {
      counts := CountOne(users, i, counts);
      i := i + 1;
    }
    assert users[..i] == users;
  }

  /** One pass of the counting loop. */
  method CountOne(users: seq<string>, i: nat, counts: Dict<string, nat>) returns (next: Dict<string, nat>)
    requires i < |users| && counts == UserCounts(users[..i])
    ensures next == UserCounts(users[..i + 1])
  {
    UserCountsStep(users, i);
    var u := users[i];
    next := Bump(counts, u);
  }

  lemma UserCountsStep(users: seq<string>, i: nat)
    requires i < |users|
    ensures UserCounts(users[..i + 1]) == Bump(UserCounts(users[..i]), users[i])
  {
    var s := users[..i + 1];
    assert s[..|s| - 1] == users[..i] && s[|s| - 1] == users[i];
  }

  /** Every user in the queue has an entry holding the number of its jobs, and
      there is no other entry; so each count is at least 1. */
  lemma {:induction false} UserCountsOccurrences(users: seq<string>, u: string)
    ensures u in UserCounts(users).entries <==> u in users
    ensures u in users ==> UserCounts(users).entries[u] == multiset(users)[u] >= 1
  {
    if |users| > 0 {
      var pre := users[..|users| - 1];
      UserCountsOccurrences(pre, u);
      assert users == pre + [users[|users| - 1]];
    }
  }

  /** The sum of `m`'s values over `keys`. */
  function SumOver(keys: seq<string>, m: map<string, nat>): nat
    requires forall k :: k in keys ==> k in m
  {
    if |keys| == 0 then 0 else SumOver(keys[..|keys| - 1], m) + m[keys[|keys| - 1]]
  }

  lemma {:induction false} SumOverFrame(keys: seq<string>, m: map<string, nat>, k: string, v: nat)
    requires forall x :: x in keys ==> x in m
    requires k !in keys
    ensures SumOver(keys, m[k := v]) == SumOver(keys, m)
  {
    if |keys| > 0 {
      SumOverFrame(keys[..|keys| - 1], m, k, v);
    }
  }

  lemma {:induction false} SumOverIncrement(keys: seq<string>, m: map<string, nat>, k: string)
    requires forall x :: x in keys ==> x in m
    requires k in keys && forall i, j :: 0 <= i < j < |keys| ==> keys[i] != keys[j]
    ensures SumOver(keys, m[k := m[k] + 1]) == SumOver(keys, m) + 1
  {
    var pre := keys[..|keys| - 1];
    var last := keys[|keys| - 1];
    if last == k {
      assert k !in pre;
      SumOverFrame(pre, m, k, m[k] + 1);
    } else {
      SumOverIncrement(pre, m, k);
    }
  }

  /** The total returned beside the counts is their sum. */
  lemma {:induction false} UserCountsSum(users: seq<string>)
    ensures SumOver(UserCounts(users).order, UserCounts(users).entries) == |users|
  {
    if |users| > 0 {
      var pre := users[..|users| - 1];
      var u := users[|users| - 1];
      var d := UserCounts(pre);
      var d2 := UserCounts(users);
      assert d2 == Bump(d, u) == d.Set(u, d.Get(u, 0) + 1);
      UserCountsSum(pre);
      if u in d.entries {
        assert d2.order == d.order && d2.entries == d.entries[u := d.entries[u] + 1];
        SumOverIncrement(d.order, d.entries, u);
      } else {
        assert d2.order == d.order + [u] && d2.entries == d.entries[u := 1];
        SumOverFrame(d.order, d.entries, u, 1);
        assert d2.order[..|d2.order| - 1] == d.order;
        assert SumOver(d2.order, d2.entries) == SumOver(d.order, d2.entries) + 1;
      }
    }
  }

  // ---------------------------------------------------------------- squeue -u USER

  /** One value of the dict `get_user_jobs` returns. */
  datatype Job = Job(name: string, state: string, node: string)

  /** What one `squeue -o "%i %j %T %N"` line contributes. */
  function JobLine(line: string): (r: Option<(string, Job)>)
    ensures r.Some? <==> |Words(line)| >= 4
    ensures r.Some? ==> (r.value.0 == Words(line)[0]
                         && r.value.1 == Job(Words(line)[1], Words(line)[2], Words(line)[3]))
  {
    if |line| == 0 then None
    else
      var parts := Words(line);
      if |parts| >= 4 then Some((parts[0], Job(parts[1], parts[2], parts[3]))) else None
  }

  function JobLines(stdout: string): seq<string> {
    SplitOn(Strip(stdout), '\n')
  }

  /** The dict `get_user_jobs` returns for a successful `squeue`. */
  function UserJobs(stdout: string): map<string, Job> {
    KeyedFold(JobLines(stdout), JobLine).entries
  }

  method GetUserJobs(reply: Session.Reply) returns (jobs: map<string, Job>)
    ensures Succeeded(reply) ==> jobs == UserJobs(reply.stdout)
    ensures !Succeeded(reply) ==> jobs == map[]
  {
    jobs := map[];
    if !Succeeded(reply) {
      return;
    }
    jobs := ParseJobLines(JobLines(reply.stdout));
  }

  /** The loop of `get_user_jobs` over the output's lines. */
  method ParseJobLines(lines: seq<string>) returns (jobs: map<string, Job>)
    ensures jobs == KeyedFold(lines, JobLine).entries
  {
    jobs := map[];
    var i := 0;
    while i < |lines|
      invariant i <= |lines|
      invariant jobs == KeyedFold(lines[..i], JobLine).entries
    {
      KeyedFoldStep(lines, i, JobLine);
      jobs := AddJobLine(jobs, lines[i]);
      i := i + 1;
    }
    assert lines[..i] == lines;
  }

  /** One pass of that loop: a non-empty line with four fields records its job. */
  method AddJobLine(jobs: map<string, Job>, line: string) returns (next: map<string, Job>)
    ensures next == match JobLine(line) case None => jobs case Some(kv) => jobs[kv.0 := kv.1]
  {
    next := jobs;
    if |line| > 0 {
      var parts := Words(line);
      if |parts| >= 4 {
        next := jobs[parts[0] := Job(parts[1], parts[2], parts[3])];
      }
    }
  }

  /** A line `ID NAME STATE NODE` parses to job `ID`'s record. */
  lemma JobLineFields(line: string, id: string, name: string, state: string, node: string)
    requires IsWord(id) && IsWord(name) && IsWord(state) && IsWord(node)
    requires line == JoinWith([id, name, state, node], ' ')
    ensures JobLine(line) == Some((id, Job(name, state, node)))
  {
    WordsJoin4(id, name, state, node);
  }

  /** A job is tracked exactly when some line with four fields starts with its id. */
  lemma UserJobsKeys(stdout: string, id: string)
    ensures id in UserJobs(stdout) <==>
            exists i :: 0 <= i < |JobLines(stdout)| && |Words(JobLines(stdout)[i])| >= 4 && Words(JobLines(stdout)[i])[0] == id
  {
    KeyedFoldKeys(JobLines(stdout), JobLine, id);
  }

  // ---------------------------------------------------------------- names and detective info

  /** `resolve_node_name`: "120" becomes "huk120"; anything else is kept. */
  function ResolveNodeName(short: string): (r: string)
    ensures IsDigits(short) ==> r == "huk" + short
    ensures !IsDigits(short) ==> r == short
    ensures !IsDigits(r)
  {
    if IsDigits(short) then
      assert ("huk" + short)[0] == 'h';
      "huk" + short
    else short
  }

  /** Resolving twice is resolving once. */
  lemma ResolveIdempotent(short: string)
    ensures ResolveNodeName(ResolveNodeName(short)) == ResolveNodeName(short)
  {
  }

  /** What `get_detective_info` reports. */
  datatype Detective =
    | RunningJob(job: string, user: string, elapsed: string)   // "Running job 'J' by U (T)"
    | IdleSince(timestamp: string)                              // "Idle since T"
    | NoDetails                                                 // "No details available."

  /** The node counts as busy when its lowercased state mentions "alloc" or "mix". */
  predicate BusyState(state: string) {
    Contains(Lower(state), "alloc") || Contains(Lower(state), "mix")
  }

  /** The marker an idle node's `scontrol` line is searched for. */
  const LastBusyKey := "LastBusyTime="

  lemma LastBusyKeyNoSpace()
    ensures |LastBusyKey| > 0 && NoSpace(LastBusyKey)
  {
    GraphicNoSpace(LastBusyKey);
  }

  /** `get_detective_info`: for a busy node `reply` is that of `squeue -w NODE -h
      -o "%u %j %M"`, otherwise that of `scontrol show node NODE | grep
      LastBusyTime`. */
  function DetectiveInfo(state: string, reply: Session.Reply): (r: Detective)
    ensures r.RunningJob? ==> BusyState(state) && Succeeded(reply)
    ensures r.IdleSince? ==> !BusyState(state) && Succeeded(reply) && Contains(reply.stdout, LastBusyKey)
    ensures r.IdleSince? ==> |r.timestamp| > 0 && NoSpace(r.timestamp)
    ensures r.RunningJob? ==> |r.job| > 0 && |r.user| > 0 && |r.elapsed| > 0
  {
    if BusyState(state) then BusyDetective(reply) else IdleDetective(reply)
  }

  /** Scenario A: the first word of the first row is the user, the second the job
      and the third the elapsed time. */
  function BusyDetective(reply: Session.Reply): (r: Detective)
    ensures r.RunningJob? ==> Succeeded(reply) && |r.job| > 0 && |r.user| > 0 && |r.elapsed| > 0
    ensures !r.IdleSince?
  {
    if Succeeded(reply) && |Strip(reply.stdout)| > 0 then
      var lines := SplitOn(Strip(reply.stdout), '\n');
      var parts := Words(lines[0]);
      if |parts| >= 3 then RunningJob(parts[1], parts[0], parts[2]) else NoDetails
    else NoDetails
  }

  /** Scenario B: the first word after the first `LastBusyTime=`. An empty piece
      there raises `IndexError`, which the handler turns into "No details
      available.". */
  function IdleDetective(reply: Session.Reply): (r: Detective)
    ensures r.IdleSince? ==> Succeeded(reply) && Contains(reply.stdout, LastBusyKey)
    ensures r.IdleSince? ==> |r.timestamp| > 0 && NoSpace(r.timestamp)
    ensures !r.RunningJob?
  {
    if Succeeded(reply) && Contains(reply.stdout, LastBusyKey) then
      var ws := Words(SecondPiece(reply.stdout, LastBusyKey));
      if |ws| > 0 then IdleSince(ws[0]) else NoDetails
    else NoDetails
  }

  /** A `grep LastBusyTime` line `...LastBusyTime=T ...` yields `Idle since T`: the
      first word after the first `LastBusyTime=` (at `k`), whatever precedes it and
      whatever whitespace-separated tokens follow it. */
  lemma DetectiveReadsLastBusyTime(state: string, out: string, k: nat, ts: string, rest: string)
    requires !BusyState(state)
    requires IndexOf(out, LastBusyKey) == Some(k) && out[k + |LastBusyKey|..] == ts + rest
    requires IsWord(ts) && !Contains(ts, LastBusyKey)
    requires rest == [] || IsSpace(rest[0])
    ensures DetectiveInfo(state, Session.Done(true, out)) == IdleSince(ts)
  {
    LastBusyKeyNoSpace();
    WordAfterSeparator(out, LastBusyKey, ts, rest);
    assert IdleDetective(Session.Done(true, out)) == IdleSince(ts);
  }

  /** The first row `U J T ...` of a busy node's `squeue` reply yields `Running job J
      by U (T)`, whatever further columns and rows follow. */
  lemma DetectiveReadsSqueueRow(state: string, out: string, cols: seq<string>, tail: string)
    requires BusyState(state)
    requires |cols| >= 3 && forall i :: 0 <= i < |cols| ==> IsWord(cols[i])
    requires out == JoinWith(cols, ' ') + "\n" + tail
    ensures DetectiveInfo(state, Session.Done(true, out)) == RunningJob(cols[1], cols[0], cols[2])
  {
    FirstRowWords(cols, tail);
    assert BusyDetective(Session.Done(true, out)) == RunningJob(cols[1], cols[0], cols[2]);
  }
}
