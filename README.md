# Slurm monitor bot, modelled in Dafny

A Discord bot watches a Slurm cluster that it reaches over a two-hop SSH
session: first a bastion host, then the head node through it. It posts an
alert when nodes become free. It reports the user's own jobs when they finish,
and records the cluster's capacity in a CSV history. It also answers
`/status`, `/inspect` and `/queue`. An older single-file version of the bot,
monitor.py, does the same with prefix commands (`!status` and so on) and a
global free set.

This project models the parsing and decision logic of that bot and proves what it
promises. Every remote command reaches the model as its reply: either
unreachable, `run` raised, or exit status plus stdout. Discord, the channel and
the filesystem become explicit state or parameters.

Modules, one per source file, plus two for the Python primitives they use:

- `Text` models Python's `str.split()`, `split(c)`, `strip()`, `lower()` (ASCII),
  `replace(c, "")`, `in`, `int()` (where `None` is `ValueError`), `str(n)` and
  `sorted()` on distinct strings.
- `PyDict` models the insertion-ordered `dict` and the "parse each line,
  `d[k] = v`" loop that every parser uses. In that loop, later lines overwrite
  earlier ones, and keys keep their first-insertion order.
- `Session` models `SlurmClient.get_connection`:
  - three attempts, with cleanup of partial hops and a 5-second sleep after each
    failure;
  - `ConnectionError` when all three attempts fail;
  - teardown of both hops after the command.

  The SSH library is an oracle that says, for each attempt, which step raises. A
  ghost trace records hop construction, opening, closing and sleeping.
- `SlurmClient` (utils/slurm_client.py) models the parsers for `sinfo`,
  `scontrol show node`, `squeue` and `free -m`. It also models the `huk` name
  shorthand and the "detective" lookup.
- `Ranking` models `sorted(users.items(), key=count, reverse=True)[:n]`. This is
  a stable descending insertion sort, so users with equal counts keep their
  dict order.
- `AnalyticsCog` (cogs/analytics.py) models the monthly rotation of
  `data/history.csv` and the row appended on each cycle.
- `SlurmMonCog` (cogs/slurm_mon.py) models the `SlurmMon` cog as a class with
  the source's three fields. Its `MonitorNodes` follows the ghost function
  `Cycle`, one run of `monitor_nodes`:
  - the channel lookup;
  - the edge-triggered heartbeat;
  - state counting for the analytics cog;
  - the free-node diff and the alert for newly free nodes;
  - the job-completion messages.

  A step that raises ends the run in the source's generic `except`, and the
  fields keep what they held at that point. `SlurmMonProps` proves what a run
  promises.
- `CommandsCog` (cogs/commands.py) models `/status` (nodes grouped by partition,
  one coloured light per node), `/inspect` and `/queue` (the top 15 users).
- `LegacyMonitor` (monitor.py) models:
  - the older client, which keeps only the `alto`, `medio` and `normal`
    partitions;
  - the global free set and the alert with its five top users;
  - `!status` with its `STATE_COLORS` first-match key;
  - `!inspect` and `!queue`.

  It is compared against the newer cogs where the two agree.

Behaviour the model follows as the code is written:

- Whenever the `Analytics` cog is loaded, the cog calls
  `analytics_cog.log_node_states`, which the Analytics class does not define.
  The resulting `AttributeError` ends every cycle in the generic handler
  after `log_status`, before the free-node diff. The model has that raise
  (`SlurmMonProps.CycleAnalyticsLoaded`). The free set and the alerts therefore
  only work when the cog is not loaded.
- `/inspect` reads the node state from `State`, a key the scontrol parser never
  keeps. Its state is therefore always "UNKNOWN", and its activity line never
  shows a running job (`CommandsCog.InspectStateUnknown`,
  `CommandsCog.InspectNeverShowsJob`).
- When `get_user_jobs` fails, it returns `{}`. Every tracked job is then
  reported as finished (`SlurmMonProps.FailedJobQueryFinishesAll`).
- In the newer cog, an `int()` that raises while a free node is enriched loses
  the alert for that cycle. The free set has already been replaced, so the
  alert is never repeated (`SlurmMonProps.EnrichRaiseLosesAlert`).

## Model

| member | source | states |
|---|---|---|
| Text.Strip | utils/slurm_client.py:101 | `strip()`: result no longer than the input, no whitespace at either end |
| Text.StripInfix | utils/slurm_client.py:101 | `strip()` keeps an infix of the input and everything outside that infix is whitespace, so with `Text.Strip` exactly the surrounding whitespace goes |
| Text.Words | utils/slurm_client.py:105 | `split()`: every piece is non-empty and free of whitespace |
| Text.WordsJoin | utils/slurm_client.py:105 | non-empty words joined by single spaces split back into exactly those words |
| Text.SplitOn | utils/slurm_client.py:101 | `split(c)`: at least one piece, no piece contains `c` |
| Text.SplitOnJoin | utils/slurm_client.py:101 | joining the pieces of `split(c)` with `c` gives the string back |
| Text.JoinWithSplit | cogs/analytics.py:44 | pieces free of `c`, joined with `c`, split back into the same pieces |
| Text.Lower | utils/slurm_client.py:204 | `lower()`: same length, every character lowered (ASCII) |
| Text.RemoveChar | utils/slurm_client.py:107 | `replace(c, "")`: the result has no `c` and is no longer than the input |
| Text.RemoveCharMultiset | utils/slurm_client.py:107 | `replace(c, "")` keeps every other character exactly as often as the input has it |
| Text.RemoveCharAppend | utils/slurm_client.py:107 | `replace` distributes over concatenation, so the kept characters stay in their order |
| Text.RemoveCharAbsent | utils/slurm_client.py:107 | removing a character that is absent changes nothing |
| Text.IndexOf | utils/slurm_client.py:220-222 | the index found is an occurrence of `sub`; an index exists iff `sub in s` |
| Text.IndexOfFirst | utils/slurm_client.py:220-222 | the index found is the first occurrence: `sub` starts at no earlier index |
| Text.SecondPiece | utils/slurm_client.py:222 | `s.split(sep)[1]` is the text right after the first `sep`, up to the next `sep` or the end, and holds no `sep` |
| Text.WordAfterSeparator | utils/slurm_client.py:222 | `s.split(sep)[1].split()[0]` is the word right after the first `sep` when whitespace or the end follows that word |
| Text.FirstRowWords | utils/slurm_client.py:209-211 | the first line of the stripped output splits into the words of its first row, whatever rows follow |
| Text.ParseInt | cogs/slurm_mon.py:153-158 | `int()` succeeds exactly on optionally signed decimal digit groups |
| Text.ParseNatToString | cogs/analytics.py:44 | `int(str(n)) == n` |
| Text.NatToStringInjective | cogs/analytics.py:33 | different numbers print differently |
| Text.SortStrings | cogs/slurm_mon.py:148 | `sorted()` of distinct names is strictly increasing and a permutation |
| Text.SortedNames | cogs/slurm_mon.py:148 | `sorted(list(s))` is strictly increasing and holds exactly the elements of `s` |
| Text.StrictlySortedUnique | cogs/slurm_mon.py:148 | two strictly sorted sequences with the same elements are equal, so the order `list()` picks does not matter |
| PyDict.Dict.Set | utils/slurm_client.py:111 | `d[k] = v`: the entry is updated; a new key goes to the end, an existing key keeps its place |
| PyDict.EmptyIffNoEntries | cogs/commands.py:17 | `not d` iff the dict has no entries |
| PyDict.Dedup | cogs/commands.py:24 | keys in order of first appearance: no repeats, same elements, and each key first appears before the first appearance of every key after it |
| PyDict.KeyedFoldStep | utils/slurm_client.py:104-113 | one more line of the loop is one more `d[k] = v` |
| PyDict.KeyedFoldKeys | utils/slurm_client.py:104-113 | a key is present iff some line parses to it |
| PyDict.KeyedFoldLastWins | utils/slurm_client.py:104-113 | the value under a key comes from the last line that produced it |
| PyDict.KeyedFoldValues | utils/slurm_client.py:104-113 | every stored value was parsed from some line under its key |
| PyDict.KeyedFoldOrder | utils/slurm_client.py:104-113 | the dict's key order is the order in which keys first appear |
| PyDict.KeyedFoldFilter | monitor.py:94-102 | a loop that skips the lines failing a test is the plain loop over the lines that pass it |
| Session.FirstSuccess | utils/slurm_client.py:31-48 | the first attempt whose `open()` succeeds, with none succeeding before it; `None` when all three fail |
| Session.SucceedsIffFirstSuccess | utils/slurm_client.py:31-65 | a connection is made iff there is a first successful attempt |
| Session.GetConnection | utils/slurm_client.py:23-65 | connects iff one of the three attempts opens, on the first attempt that does; otherwise `ConnectionError` with the last attempt's error |
| Session.RunCommand | utils/slurm_client.py:23-76 | the caller sees `Unreachable` iff no attempt opens, otherwise the outcome of `run` |
| Session.SessionClosesEveryHop | utils/slurm_client.py:52-76 | every hop built is closed; at most three attempts; 5 s of sleep per failed attempt |
| Session.FailedAttemptBalanced | utils/slurm_client.py:49-62 | a failed attempt closes what it built, sleeps once and opens nothing |
| Session.HeadFailsBalanced | utils/slurm_client.py:40-62 | head-node construction failing: bastion closed, one sleep |
| Session.OpenFailsBalanced | utils/slurm_client.py:47-62 | `open()` failing: both hops closed, one sleep |
| Session.FailedAttemptsBalanced | utils/slurm_client.py:31-62 | `n` failed attempts close every hop, sleep `n` times and open nothing |
| Session.OpeningAttempt | utils/slurm_client.py:33-48 | the opening attempt builds each hop once and opens once, without sleeping |
| Session.RunAndTeardown | utils/slurm_client.py:68-76 | after the command, the teardown closes each hop once |
| Session.ConnectedSessionBalanced | utils/slurm_client.py:31-76 | a session that opens on attempt `k` closes every hop, sleeps `k` times and opens once |
| Session.OccurrencesMultiset | utils/slurm_client.py:31-76 | counting a trace event is its multiplicity in the trace |
| SlurmClient.SinfoLines | utils/slurm_client.py:101-102 | the stripped output split on newlines, with the first line dropped exactly when it contains "PARTITION" |
| SlurmClient.SinfoLine | utils/slurm_client.py:105-113 | a line yields an entry iff it has at least five fields; the node is field 2, state, cpus and memory are fields 3-5, and the partition has no `*` |
| SlurmClient.SinfoLineFields | utils/slurm_client.py:105-113 | a line of five words gives `(node, {partition without *, state, cpus, memory})` |
| SlurmClient.SinfoLineOfWords | utils/slurm_client.py:105-113 | any line that splits into five words gives that entry |
| SlurmClient.SinfoNodesLastLineWins | utils/slurm_client.py:104-113 | a node listed on several lines keeps the record of its last line |
| SlurmClient.GetNodeStates | utils/slurm_client.py:94-116 | the parsed dict when `sinfo` ran and succeeded; `{}` when it failed or raised |
| SlurmClient.ParseSinfoLines | utils/slurm_client.py:104-113 | the loop builds the keyed fold of the lines |
| SlurmClient.AddSinfoLine | utils/slurm_client.py:105-113 | one iteration inserts what the line parses to |
| SlurmClient.MemoryDirect | utils/slurm_client.py:118-133 | non-zero stats only for a successful three-field reply; each field is MiB/1024, in order; a `ValueError` leaves that field and the later ones at 0 |
| SlurmClient.MemoryDirectReadsFree | utils/slurm_client.py:122-130 | the `free -m` output "total used free" reads back as those three values in GB |
| SlurmClient.TokenEntry | utils/slurm_client.py:150-153 | a token is kept only under an allow-listed key, split at its first `=` |
| SlurmClient.TokenEntryKeeps | utils/slurm_client.py:150-153 | `KEY=value` with an allow-listed key is kept as `(KEY, value)` |
| SlurmClient.FoldTokens | utils/slurm_client.py:149-153 | folding tokens adds only allow-listed keys |
| SlurmClient.NodeNameOf | utils/slurm_client.py:146 | `line.split()[0].split("=")[1]`: the name follows `NodeName=` in the first word and has no `=` |
| SlurmClient.EnterNode | utils/slurm_client.py:145-147 | a `NodeName=` line makes its node current, with an empty record; other lines change nothing |
| SlurmClient.AbsorbTokens | utils/slurm_client.py:148-153 | with a current node, the line's tokens are folded into its record; with none, nothing changes |
| SlurmClient.GetNodeDetailsFallback | utils/slurm_client.py:135-156 | the scanned records when `scontrol` succeeded; `{}` otherwise |
| SlurmClient.ScanLines | utils/slurm_client.py:143-153 | the loop computes the scan of all lines |
| SlurmClient.ScanOneLine | utils/slurm_client.py:144-153 | one iteration is one `ScanLine` step |
| SlurmClient.FoldLineTokens | utils/slurm_client.py:149-153 | the token loop computes `FoldTokens` |
| SlurmClient.ScanKeysAllowed | utils/slurm_client.py:152 | every record holds only the five allow-listed keys |
| SlurmClient.ScanPreambleIgnored | utils/slurm_client.py:142-148 | lines before the first `NodeName=` line contribute nothing |
| SlurmClient.ScanAppend | utils/slurm_client.py:143 | scanning `a + b` is scanning `a`, then `b` |
| SlurmClient.ScanSkipsPreamble | utils/slurm_client.py:142-148 | a preamble without node lines does not change the result |
| SlurmClient.ScanNodeLineRestarts | utils/slurm_client.py:145-153 | a `NodeName=` line restarts its node's record from that line's own tokens |
| SlurmClient.ScanEmptyNodeName | utils/slurm_client.py:145-148 | `NodeName=` with an empty name stores `{}` under "" and stops absorbing, because "" is falsy |
| SlurmClient.ScanNodes | utils/slurm_client.py:145-147 | the keys of the result are exactly the names on the `NodeName=` lines |
| SlurmClient.QueueUsers | utils/slurm_client.py:163 | the non-empty lines of the stripped output |
| SlurmClient.Bump | utils/slurm_client.py:165 | `counts[u] = counts.get(u, 0) + 1` |
| SlurmClient.GetQueueSummary | utils/slurm_client.py:158-169 | `(len(users), counts)` on success; `(0, {})` when the command failed or raised |
| SlurmClient.CountUsers | utils/slurm_client.py:164-165 | the loop computes `UserCounts` |
| SlurmClient.CountOne | utils/slurm_client.py:165 | one iteration counts one more user |
| SlurmClient.UserCountsOccurrences | utils/slurm_client.py:163-166 | a user has a count iff listed, and the count is their number of lines |
| SlurmClient.UserCountsSum | utils/slurm_client.py:163-166 | the counts add up to the total returned |
| SlurmClient.JobLine | utils/slurm_client.py:180-182 | a line yields a job iff it has at least four fields: id, then name, state and node |
| SlurmClient.GetUserJobs | utils/slurm_client.py:171-185 | the parsed jobs on success; `{}` when the command failed or raised |
| SlurmClient.ParseJobLines | utils/slurm_client.py:178-182 | the loop builds the keyed fold of the lines |
| SlurmClient.AddJobLine | utils/slurm_client.py:179-182 | one iteration stores the line's job under its id |
| SlurmClient.JobLineFields | utils/slurm_client.py:180-182 | "id name state node" gives `(id, {name, state, node})` |
| SlurmClient.UserJobsKeys | utils/slurm_client.py:178-182 | a job id is present iff some line of four or more fields starts with it |
| SlurmClient.ResolveNodeName | utils/slurm_client.py:188-192 | an all-digit name gets the `huk` prefix; any other name is kept; the result is never all digits |
| SlurmClient.ResolveIdempotent | utils/slurm_client.py:188-192 | resolving twice is resolving once |
| SlurmClient.DetectiveInfo | utils/slurm_client.py:194-228 | a running-job answer only for a busy state and a successful reply; an idle-since answer only for a non-busy state whose reply holds `LastBusyTime=`; otherwise the default |
| SlurmClient.DetectiveReadsLastBusyTime | utils/slurm_client.py:216-223 | a reply whose first `LastBusyTime=` is followed by the word `ts` and then whitespace or the end yields "idle since ts", whatever precedes and follows it |
| SlurmClient.DetectiveReadsSqueueRow | utils/slurm_client.py:203-213 | a reply whose first row starts with the words user, job and elapsed yields that job, user and time, whatever columns and rows follow |
| Ranking.Items | cogs/commands.py:84 | `users.items()` in insertion order |
| Ranking.InsertByCountPerm | cogs/commands.py:84 | one insertion step adds exactly the item |
| Ranking.InsertByCountDescending | cogs/commands.py:84 | one insertion step keeps the order descending |
| Ranking.InsertByCountStable | cogs/commands.py:84 | one insertion step keeps items of equal count in arrival order |
| Ranking.SortByCount | cogs/commands.py:84 | the sort keeps the length |
| Ranking.SortByCountPerm | cogs/commands.py:84 | the sorted items are a permutation of the items |
| Ranking.SortByCountDescending | cogs/commands.py:84 | the sorted items are in descending count order |
| Ranking.SortByCountStable | cogs/commands.py:84 | items with equal counts keep their dict order (a stable sort, also with `reverse=True`) |
| Ranking.TopUsersSpec | monitor.py:267 | `[:n]` of the sorted items: `min(n, len)` entries, descending, each a real user with its own count |
| Ranking.TopUsersDominate | monitor.py:267 | every user left out has no more jobs than any user listed |
| AnalyticsCog.Pad2 | cogs/analytics.py:33 | `%m`: two digits that read back as the month |
| AnalyticsCog.Pad2Injective | cogs/analytics.py:33 | different months pad differently |
| AnalyticsCog.ArchiveName | cogs/analytics.py:33 | `data/history_<Y>_<m>.csv`, never the live history file |
| AnalyticsCog.ArchiveNameInjective | cogs/analytics.py:33 | different months (or years) archive to different files |
| AnalyticsCog.EnsureHistorySpec | cogs/analytics.py:20-37 | afterwards the file exists, is from this month, and is either the old file or just the header; an old file from another month is under its archive name; other files are kept |
| AnalyticsCog.EnsureHistoryKeepsSameMonth | cogs/analytics.py:28-37 | the old file is kept iff its month is the current month, whatever its year |
| AnalyticsCog.EnsureHistoryIdempotent | cogs/analytics.py:20-37 | checking twice in the same month is checking once |
| AnalyticsCog.RowRoundTrip | cogs/analytics.py:44 | a row splits into the header's five columns: the timestamp, then the four counts that `int()` reads back |
| AnalyticsCog.RowColumns | cogs/analytics.py:44 | the columns of a row are the timestamp and the four printed counts |
| AnalyticsCog.HeaderColumns | cogs/analytics.py:24 | the header has five columns |
| AnalyticsCog.AppendRowSpec | cogs/analytics.py:43-44 | an append adds exactly the row at the end, keeps the earlier lines and touches no other file |
| AnalyticsCog.Analytics.constructor | cogs/analytics.py:16-18 | constructing the cog runs the history check once |
| AnalyticsCog.Analytics.LogStatus | cogs/analytics.py:39-46 | appends the row, or changes nothing when the file cannot be opened |
| SlurmMonCog.CountStates | cogs/slurm_mon.py:116-122 | the four counts add up to the number of nodes |
| SlurmMonCog.ClassesOf | cogs/slurm_mon.py:117-122 | the first-match class of each node, in order |
| SlurmMonCog.CountStatesByClass | cogs/slurm_mon.py:116-122 | each count is the number of nodes of its class |
| SlurmMonCog.TallyStates | cogs/slurm_mon.py:116-122 | the counting loop computes `CountStates` |
| SlurmMonCog.FreeNames | cogs/slurm_mon.py:135-138 | a node is free iff its lowered state mentions "idle" or "mixed" |
| SlurmMonCog.FreeSet | cogs/slurm_mon.py:135-138 | `current_free_ids` holds exactly the nodes with a free state |
| SlurmMonCog.FreeNodeSet | cogs/slurm_mon.py:135-138 | the loop computes `FreeSet` |
| SlurmMonCog.FreeStateCounted | cogs/slurm_mon.py:118-137 | a free node is counted as idle or mixed, and the converse holds for a state without `*` |
| SlurmMonCog.ListOf | cogs/slurm_mon.py:146 | `list(s)`: the elements of the set, each once |
| SlurmMonCog.SortedList | cogs/slurm_mon.py:148 | `sorted(list(s))` |
| SlurmMonCog.Enrich | cogs/slurm_mon.py:149-167 | an enriched node keeps its name and sinfo state |
| SlurmMonCog.EnrichNode | cogs/slurm_mon.py:149-167 | one pass of the enrichment loop computes `Enrich` |
| SlurmMonCog.EnrichAll | cogs/slurm_mon.py:148-167 | a successful loop gives one entry per node |
| SlurmMonCog.EnrichAllOk | cogs/slurm_mon.py:148-167 | the loop succeeds iff no node's `int()` raises |
| SlurmMonCog.EnrichAllSnoc | cogs/slurm_mon.py:148-167 | the loop succeeds iff the prefix succeeds and the last node enriches |
| SlurmMonCog.EnrichAllNames | cogs/slurm_mon.py:148-167 | entry `i` is the `i`-th sorted name |
| SlurmMonCog.EnrichAllNone | cogs/slurm_mon.py:148-167 | once a node raises, the rest of the loop cannot recover |
| SlurmMonCog.EnrichNodes | cogs/slurm_mon.py:148-167 | the loop over the sorted names computes `EnrichAll` |
| SlurmMonCog.Deliver | cogs/slurm_mon.py:178 | `channel.send` either appends its message and nothing else, or raises |
| SlurmMonCog.Heartbeat | cogs/slurm_mon.py:98-109 | the heartbeat changes neither the free set, the jobs nor the state file |
| SlurmMonCog.NodePhase | cogs/slurm_mon.py:112-133 | node monitoring changes neither reachability, the jobs nor the state file |
| SlurmMonCog.FreePhase | cogs/slurm_mon.py:135-178 | the free set becomes the current free nodes, whatever happens next |
| SlurmMonCog.AlertMessage | cogs/slurm_mon.py:143-171 | the alert lists the newly free nodes in sorted order, with the queue summary |
| SlurmMonCog.AlertNew | cogs/slurm_mon.py:143-178 | posting the alert changes only the channel |
| SlurmMonCog.Announce | cogs/slurm_mon.py:185-190 | announcing changes only the channel and either keeps going or raises |
| SlurmMonCog.JobPhase | cogs/slurm_mon.py:181-193 | job tracking changes neither the free set nor reachability |
| SlurmMonCog.UpToJobs | cogs/slurm_mon.py:90-178 | the steps before job tracking leave the jobs alone and go on only when the channel exists and the cluster is reachable |
| SlurmMonCog.Cycle | cogs/slurm_mon.py:90-196 | a run completes only when the channel exists and the cluster is reachable |
| SlurmMonCog.BuildAlert | cogs/slurm_mon.py:145-169 | fallback, sorted enrichment and queue summary compute `AlertMessage` |
| SlurmMonCog.SlurmMon.constructor | cogs/slurm_mon.py:21-41 | empty free set, online, empty outbox; tracked jobs come from the state file when it loads, else `{}` |
| SlurmMonCog.SlurmMon.Post | cogs/slurm_mon.py:178 | one send appends the message or raises |
| SlurmMonCog.SlurmMon.CheckHeartbeat | cogs/slurm_mon.py:98-109 | the fields follow `Heartbeat` |
| SlurmMonCog.SlurmMon.WatchNodes | cogs/slurm_mon.py:112-133 | the fields follow `NodePhase`; the history gets the counts' row iff the analytics cog is loaded and the file opens |
| SlurmMonCog.SlurmMon.UpdateFree | cogs/slurm_mon.py:135-141 | the fields follow `FreePhase` |
| SlurmMonCog.SlurmMon.AlertNewlyFree | cogs/slurm_mon.py:143-178 | the fields follow `AlertNew` |
| SlurmMonCog.SlurmMon.TrackJobs | cogs/slurm_mon.py:181-193 | the completed jobs are announced once each, in the set's iteration order; the fields follow `JobPhase` |
| SlurmMonCog.SlurmMon.AnnounceCompleted | cogs/slurm_mon.py:183-190 | every completed job is enumerated once; the fields follow `Announce` |
| SlurmMonCog.SlurmMon.MonitorNodes | cogs/slurm_mon.py:90-196 | one run follows `Cycle`; the history and the completed jobs are as the steps say |
| SlurmMonProps.DeliverAdds | cogs/slurm_mon.py:178 | a send extends the channel by its message exactly when it returns |
| SlurmMonProps.JobMessages | cogs/slurm_mon.py:185-190 | one "Job Finished" message per job, in order |
| SlurmMonProps.OkRun | cogs/slurm_mon.py:185-190 | the number of sends that return before the first one that raises |
| SlurmMonProps.AnnounceSends | cogs/slurm_mon.py:185-190 | the jobs are announced in order up to the first send that raises |
| SlurmMonProps.JobPhaseSpec | cogs/slurm_mon.py:181-193 | the channel gets the finished jobs up to the first failed send; if none fails, the tracked jobs and the state file become the current jobs; otherwise they are kept |
| SlurmMonProps.FailedJobQueryFinishesAll | cogs/slurm_mon.py:182-183 | when `squeue -u` fails, every tracked job counts as completed |
| SlurmMonProps.AlertNamesNewlyFree | cogs/slurm_mon.py:140-148 | the alert names exactly the newly free nodes, in strictly increasing order |
| SlurmMonProps.EnrichRaiseLosesAlert | cogs/slurm_mon.py:141-167 | an `int()` that raises ends the phase with no alert, after the free set was already replaced |
| SlurmMonProps.FreePhaseSteady | cogs/slurm_mon.py:140-143 | no new free node, no message |
| SlurmMonProps.NodePhaseAdds | cogs/slurm_mon.py:112-178 | node monitoring adds at most one message, an alert |
| SlurmMonProps.FreePhaseAdds | cogs/slurm_mon.py:135-178 | the free-node phase adds at most one message, an alert |
| SlurmMonProps.CycleNoChannel | cogs/slurm_mon.py:92-94 | without a channel, the run returns and changes nothing |
| SlurmMonProps.CycleUnreachable | cogs/slurm_mon.py:99-104 | an unreachable cluster is announced only when it was online; the run then returns |
| SlurmMonProps.UnreachableAnnouncedOnce | cogs/slurm_mon.py:99-104 | a second unreachable run changes nothing |
| SlurmMonProps.CycleRestored | cogs/slurm_mon.py:106-109 | a reachable cluster that was offline is marked online and "restored" is posted first |
| SlurmMonProps.CycleAfterHeartbeat | cogs/slurm_mon.py:106-112 | later steps only extend what the heartbeat posted and keep reachability |
| SlurmMonProps.CycleOnlineQuiet | cogs/slurm_mon.py:98-193 | while online, a run posts only alerts and job reports |
| SlurmMonProps.JobPhaseOnlyReports | cogs/slurm_mon.py:181-193 | job tracking posts only job reports |
| SlurmMonProps.HeartbeatPassesSpec | cogs/slurm_mon.py:98-109 | a passing heartbeat leaves the cluster online, posting "restored" only when it was offline |
| SlurmMonProps.CycleEmptyNodes | cogs/slurm_mon.py:112-113 | an empty `sinfo` result skips node monitoring |
| SlurmMonProps.CycleAnalyticsLoaded | cogs/slurm_mon.py:125-132 | with the analytics cog loaded, the counts are logged and `log_node_states` raises before the free-node diff |
| SlurmMonProps.CycleFreeUpdated | cogs/slurm_mon.py:135-141 | without the analytics cog, the free set becomes the current free nodes |
| SlurmMonProps.CycleSteadyNoAlert | cogs/slurm_mon.py:140-143 | no node newly free, no alert |
| SlurmMonProps.SameNodesTwiceNoAlert | cogs/slurm_mon.py:135-143 | the same nodes seen twice alert at most once |
| SlurmMonProps.CycleJobs | cogs/slurm_mon.py:181-193 | when the run reaches step 3 with tracking on, it ends as `JobPhase` says |
| SlurmMonProps.EnrichPrefersDirectMemory | cogs/slurm_mon.py:153-160 | with direct memory stats, scontrol's memory values are not used |
| SlurmMonProps.EnrichDefaults | cogs/slurm_mon.py:152-160 | with no scontrol record and no direct stats: the sinfo CPU count, 0 allocated, 0.0 GB |
| CommandsCog.StatusLightIsCountClass | cogs/commands.py:31-32 | the light a node shows is the class the monitor counts it under |
| CommandsCog.FreeNodeShownFree | cogs/commands.py:31-32 | a node the monitor treats as free is shown green or yellow |
| CommandsCog.StatusLightIgnoresStars | cogs/commands.py:31 | a `*` in the state does not change the light |
| CommandsCog.StatusLightIgnoresCase | cogs/commands.py:31 | the case of the state does not change the light |
| CommandsCog.Grouped | cogs/commands.py:21-25 | the grouping is a well-formed dict |
| CommandsCog.PartitionsOf | cogs/commands.py:23 | the partition of each node, in order |
| CommandsCog.InPartition | cogs/commands.py:21-25 | every listed pair is a node of that partition with its own state |
| CommandsCog.InPartitionComplete | cogs/commands.py:21-25 | every node appears in its partition's list |
| CommandsCog.GroupedSpec | cogs/commands.py:21-25 | partitions in order of first appearance, each holding its nodes in dict order |
| CommandsCog.VisualsOf | cogs/commands.py:29-33 | one light and name per node, in order |
| CommandsCog.FieldsOf | cogs/commands.py:28-34 | one field per partition, in order |
| CommandsCog.Status | cogs/commands.py:13-36 | the command computes `StatusBoard` |
| CommandsCog.PartitionFields | cogs/commands.py:28-34 | the field loop computes `FieldsOf` |
| CommandsCog.GroupByPartition | cogs/commands.py:21-25 | the grouping loop computes `Grouped` |
| CommandsCog.VisualRows | cogs/commands.py:29-33 | the visuals loop computes `VisualsOf` |
| CommandsCog.StatusBoardSpec | cogs/commands.py:17-34 | "failed to fetch" iff `sinfo` returned no nodes; otherwise one field per partition in order of first appearance, each listing exactly that partition's nodes in dict order with their lights |
| CommandsCog.StatusShowsEveryNode | cogs/commands.py:21-34 | every node is shown, with its own light, under its own partition |
| CommandsCog.StatusShowsOnlyItsNodes | cogs/commands.py:21-34 | everything shown under a partition is one of its nodes with that node's light |
| CommandsCog.InspectStateUnknown | cogs/commands.py:49-53 | the state `/inspect` reads is always "UNKNOWN" |
| CommandsCog.InspectNeverShowsJob | cogs/commands.py:53-56 | `/inspect` never shows a running job |
| CommandsCog.InspectResolvesName | cogs/commands.py:44 | the node inspected is the resolved name |
| CommandsCog.InspectPrefersDirect | cogs/commands.py:62-63 | with positive direct memory, RAM shows direct used/total |
| CommandsCog.InspectUnknownNode | cogs/commands.py:49-66 | an unknown node shows `?` for the CPUs and 0.0 GB reported |
| CommandsCog.InspectRaisesOnlyOnBadRealMemory | cogs/commands.py:62-66 | `/inspect` raises only on the fallback path, when `RealMemory` is not an integer |
| CommandsCog.QueueTopUsers | cogs/commands.py:83-86 | top users: `min(15, n)` entries, descending, real counts, and no user left out has more jobs |
| CommandsCog.QueueTopIffJobs | cogs/commands.py:78-86 | the "Top Users" field appears iff there are jobs, and the total is the sum of the counts |
| LegacyMonitor.GetTargetNodes | monitor.py:68-107 | the target-partition dict when `sinfo` succeeds, `{}` otherwise |
| LegacyMonitor.ParseTargetLines | monitor.py:85-102 | the loop builds the keyed fold with the partition filter |
| LegacyMonitor.AddTargetLine | monitor.py:86-102 | one iteration inserts the line's entry when its partition is a target |
| LegacyMonitor.TargetNodesAreFilteredSinfo | monitor.py:82-102 | the legacy parse is the newer parse of just the target-partition lines |
| LegacyMonitor.TargetNodesInTargets | monitor.py:94-102 | every node kept is in alto, medio or normal, with the record of one of its lines |
| LegacyMonitor.TargetLineKept | monitor.py:94 | a kept line has a target partition and the newer parse's entry |
| LegacyMonitor.GetNodeDetails | monitor.py:109-145 | the scanned records when `scontrol` succeeds, `{}` otherwise |
| LegacyMonitor.DetailsKeysAllowed | monitor.py:139-140 | records hold only the five allow-listed keys |
| LegacyMonitor.QueueSummarySpec | monitor.py:147-167 | the total is the sum of the counts, every count is at least 1, and failure gives `(0, {})` |
| LegacyMonitor.FreeAmong | monitor.py:209-218 | a node is free iff its lowered, `*`-stripped state mentions "idle" or "mixed" |
| LegacyMonitor.Monitor.constructor | monitor.py:176 | the global free set starts empty |
| LegacyMonitor.Monitor.MonitorNodes | monitor.py:186-276 | the global set and the outcome follow `NextFree` and `RunOutcome` |
| LegacyMonitor.FreeNodes | monitor.py:209-218 | the loop computes `FreeAmong` |
| LegacyMonitor.BuildFields | monitor.py:241-263 | the field loop computes `AlertFields`, `None` when an `int()` raises |
| LegacyMonitor.NoChannelKeepsFree | monitor.py:190-198 | without a channel, the global set is unchanged |
| LegacyMonitor.FreeReplacedBeforeAlert | monitor.py:205-222 | with nodes, the global set becomes the current free nodes before the alert is built |
| LegacyMonitor.PastEarlyReturns | monitor.py:195-203 | with a channel and nodes, the run ends neither at the missing channel nor at the empty node list |
| LegacyMonitor.FieldOfSpec | monitor.py:245-260 | a field exists iff its four `int()` calls succeed, and it shows the node's own values |
| LegacyMonitor.AlertFieldsShape | monitor.py:241-263 | the fields are exactly the newly free nodes with both records, each shown from them |
| LegacyMonitor.AlertFieldsSpec | monitor.py:221-263 | an alert's fields are exactly the nodes newly free since the last run that have both records |
| LegacyMonitor.AlertTopUsers | monitor.py:266-272 | the queue context has the total and `min(5, n)` top users, descending, with no user left out having more |
| LegacyMonitor.SameNodesTwiceQuiet | monitor.py:221-225 | the same nodes seen twice report nothing new the second time |
| LegacyMonitor.KeyDotIdle | monitor.py:303-306 | key "idle" shows green |
| LegacyMonitor.KeyDotMixed | monitor.py:303-306 | key "mixed" shows orange |
| LegacyMonitor.KeyDotAlloc | monitor.py:303-306 | key "alloc" shows red |
| LegacyMonitor.KeyDotDrain | monitor.py:303-306 | key "drain" shows white |
| LegacyMonitor.KeyDotDown | monitor.py:303-306 | key "down" shows black |
| LegacyMonitor.KeyDotUnknown | monitor.py:303-306 | key "unknown" shows white |
| LegacyMonitor.StatusDotSpec | monitor.py:302-306 | green iff "idle", orange iff "mixed" and not idle, red iff "alloc" and neither, black iff "down" and none of those nor "drain" |
| LegacyMonitor.StatusDotMatchesLight | monitor.py:302-306 | for a state without `*`, `!status` and `/status` show the same colour: green, orange/yellow and red agree, and `!status`'s ⚫ and ⚪ are both `/status`'s ⚫ |
| LegacyMonitor.DotLinesOf | monitor.py:300-307 | one dot and name per node, in order |
| LegacyMonitor.DotFieldsOf | monitor.py:297-309 | one field per partition, in order |
| LegacyMonitor.Status | monitor.py:278-311 | the command computes the legacy `StatusBoard` |
| LegacyMonitor.DotFields | monitor.py:297-309 | the field loop computes `DotFieldsOf` |
| LegacyMonitor.DotRows | monitor.py:300-307 | the visuals loop computes `DotLinesOf` |
| LegacyMonitor.StatusBoardsAgree | monitor.py:288-309 | `!status` and `/status` fail together and list the same partitions and nodes in the same order |
| LegacyMonitor.InspectSpec | monitor.py:313-339 | unknown iff there is no record; a report shows the record's numbers (0 when missing) and its load ("N/A" when missing), with free memory = real - allocated; it raises only on a non-integer value |
| LegacyMonitor.QueueMatchesNewer | monitor.py:349-353 | `!queue` lists the same top 15 users as `/queue` |

## Left out

- The SSH library, Discord, the event loop and `run_in_executor` are not
  modelled: each remote command is the `Session.Reply` it produced, and each
  Discord call is a boolean saying whether it returned.
- `is_reachable` (utils/slurm_client.py:78-92) is the `reachable` flag of a
  poll. Its own connection is not modelled.
- Timing is left out: the 15-second SSH timeouts, and the real duration of the
  5-second sleep (only the sleep event is recorded).
- Dates, time zones and `datetime.now()` are left out. A date is a year and a
  month given as input, and a timestamp is an opaque string.
- Message text, markdown, emoji and `%.1f` formatting are left out. Messages and
  embeds are modelled by the values they show. Memory in GB is a `real`, not a
  rounded float.
- `summarize_with_gemini` is left out: the alert carries the data that would be
  summarised, because the language model is an outside service.
- The `/history` plot (cogs/analytics.py:48-111) is left out: it is pandas and
  matplotlib rendering.
- JSON loading and saving of `data/job_state.json` are modelled as an optional
  map, not as a serialised file. A file that does not parse as JSON is the same
  as a missing one. A file holding JSON that is not an object of job records is
  not modelled.
- `int(DISCORD_CHANNEL_ID)` raising on a non-numeric id is not modelled. The poll
  says only whether the channel was found.
- `cog_load` and `cog_unload`, task scheduling and the `before_loop` wait are not
  modelled. One call of `MonitorNodes` is one run of the loop.
- The "Fetching..." and "Inspecting..." interim messages of the legacy commands
  are not modelled.
- `lower()`, `isdigit()` and the digits `int()` accepts are ASCII only: `lower()`
  folds only A-Z, and Unicode case folding and non-ASCII digits are not
  modelled. Whitespace for `split()` and `strip()` is Python's full
  `str.isspace` set.
- The order in which a Python `set` is iterated is not modelled:
  - The completed jobs are announced in an order the methods choose, and the
    lemmas hold for any order.
  - The legacy alert's fields are a map from node to field rather than a
    sequence.
- The legacy client opens a fresh connection for every call and closes it in
  `finally`. That close is not traced. `potential_nodes` (monitor.py:206) is
  built and never read, so it is not modelled.
- In the legacy task, an `int()` that raises is not caught and ends the run;
  the model's outcome for it is `FieldRaised`. A send that fails is not
  modelled: `Alerted` stands for the call. What the task loop does after an
  uncaught exception is not modelled either.
- The scripts `bot_entry.py`, `deploy.py`, `validate_setup.py` and
  `debug_partitions.py` are not part of this model.
- SlurmMonCog.Cycle: its own ensures states only that a completed run had a
  channel and a reachable cluster. What a run promises is proved about it in
  the `SlurmMonProps` lemmas listed above.
- SlurmMonCog.Heartbeat: its own ensures states only what the step leaves
  unchanged. Its behaviour is proved in `SlurmMonProps.HeartbeatPassesSpec`,
  `SlurmMonProps.CycleUnreachable` and `SlurmMonProps.CycleRestored`.
- SlurmMonCog.NodePhase: its own ensures states only what the step leaves
  unchanged. Its behaviour is proved in `SlurmMonProps.NodePhaseAdds`,
  `SlurmMonProps.CycleAnalyticsLoaded` and `SlurmMonProps.CycleEmptyNodes`.
- SlurmMonCog.FreePhase: its own ensures states only the new free set and what
  the step leaves unchanged. The alert is covered by
  `SlurmMonProps.FreePhaseAdds`, `SlurmMonProps.FreePhaseSteady` and
  `SlurmMonProps.EnrichRaiseLosesAlert`.
- SlurmMonCog.AlertNew: its own ensures states only that the channel is the
  one thing that changes. The message is stated by `SlurmMonCog.AlertMessage`
  and `SlurmMonProps.AlertNamesNewlyFree`.
- SlurmMonCog.Announce: its own ensures states only what the step leaves
  unchanged. The messages are stated by `SlurmMonProps.AnnounceSends`.
- SlurmMonCog.JobPhase: its own ensures states only what the step leaves
  unchanged. Its behaviour is proved in `SlurmMonProps.JobPhaseSpec`.
- SlurmMonCog.Enrich: its own ensures states only that the name and state are
  kept. The values are pinned down by `SlurmMonProps.EnrichDefaults` and
  `SlurmMonProps.EnrichPrefersDirectMemory`.
- AnalyticsCog.Analytics.constructor: assumes every write of the history check
  succeeds. In the source a failed `open` or `os.rename` raises out of
  `__init__`, so the cog is never loaded; the monitor then runs with
  `analyticsLoaded` false in `SlurmMonCog.Cycle`.
- SlurmClient.DetectiveInfo: its own ensures states only which branch may answer
  and that the fields are non-empty. The answers themselves are proved in
  `SlurmClient.DetectiveReadsLastBusyTime` and
  `SlurmClient.DetectiveReadsSqueueRow`.
- CommandsCog.Grouped: its own ensures states only well-formedness. Its
  contents are stated by `CommandsCog.GroupedSpec`.
