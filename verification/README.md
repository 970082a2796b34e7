# Verified models of the ns-3 development tools

The scripts around ns-3 contain seven pieces of real algorithmic work. This project models each of them in Dafny, in
the form the source has (dictionaries that shrink, stacks that are pushed and popped, objects whose fields change,
state machines over tokens), and proves what it is for.

- `Basics.dfy`, `Paths.dfy`: notions shared by the others.
- `Graphs.dfy`, `Topsort.dfy`, `FindCycles.dfy`: dependency sorting of (parent, child) pairs, flat and level by level,
  and the enumeration of elementary cycles by a stack of paths. The flat sort succeeds exactly on acyclic input and
  otherwise leaves exactly the nodes on or downstream of a cycle; its order is that of a queue; level k holds exactly
  the nodes whose longest chain of ancestors has k edges; the enumerator yields every elementary cycle exactly once up
  to rotation, and its loop ends on every finite graph.
- `WorkerPool.dfy`, `WorkerTrace.dfy`: the worker pool of the test driver as a transition system over all
  interleavings of the main thread, the workers and an interrupt. Every run is bounded, no reachable state that is not
  final is stuck, and every maximal run ends with stopped workers, empty queues and each job returned exactly once.
  What the main thread counts and returns is traced back to the steps in which workers finished jobs: it returns 0
  exactly if all of them finished with 0 and none was inspected after an interrupt.
- `ConfigPaths.dfy`, `ConfigResolution.dfy`: the walk over the cyclic graph of types that collects configuration
  paths. It ends, leaves both its stacks as it found them, and records exactly the simple trails, in preorder. A
  string is recorded for a type exactly if following it from the start leads there, through no type twice.
- `ShellParse.dfy`, `ShellGrammar.dfy`, `ShellRoundTrip.dfy`, `ShellRun.dfy`, `ShellLists.dfy`, `ShellScripts.dfy`,
  `ShellDirectories.dfy`: the shell-command helper of the build. The token state machine accepts exactly an explicit
  grammar; what it returns has the shape the executor relies on; writing a pipeline as tokens and parsing it again
  loses nothing; the executor's loop is a recursive evaluator over right-nested lists, and ends with a status for all
  exit statuses exactly if no `cd` is last or lacks its directory. The scripts of the grammar have a meaning in the
  POSIX shell too: redirections are performed from left to right, every `cd` is a pipeline of its own, and `&&` and
  `||` associate to the left. Given the parser's own division of a line into assignments, words, redirections and
  operators, and directories that exist, the executor answers as the shell and creates the same processes, for all
  exit statuses, exactly if no `cd` raises, no pipe leads into a `cd` or into a command that redirects its input, no
  `&&` or `||` after a command is followed later by the other one (the `&&` after a `cd` counts as a later one), no
  `2>&1` stands before an output redirection of the same command, and no redirection lacks its file.
- `Patches.dfy`, `Whitespace.dfy`: reading and writing unified diffs. Reading, writing and reading again changes
  nothing, and writing and reading back is the identity exactly on patch sets in which no content line, once marked,
  looks like a file name. Content goes into a chunk of the file named last exactly if a chunk starts between each file
  name and the content after it, and then nothing is lost or reordered. The pass over the lines that lost a final
  blank puts it back in every pair of lines of the same rank, up to and including the first chunk that has too few
  destination lines.
- `Binary.dfy`, `Fractions.dfy`, `Permutations.dfy`: the ripple counter, binary numerals, Gray codes, Euclid's
  algorithm under floored remainders, and the permutations of a list.
- `Timeline.dfy`: ranges and events indexed by bisection.

The Python sources are read with Python 2 semantics where they need it: dictionaries list their keys in some
unspecified order, integer division floors, and `raise StopIteration` is the normal end of a generator. An exception
is a result (`CycleError`, `AssertionError`, `None` for an unreadable patch) and never a precondition.

Some results say where the code does not do what one would expect of it:

- `WorkerPool.MaximalRunsEndCleanly`: with no workers (a negative `--jobs` gives none) and at least one job, the main
  thread waits forever.
- `ShellScripts.MixedExample`: `a && b || c` stops after a failing `a`; a POSIX shell goes on to `c`.
- `ShellScripts.CdAfterOrExample`: `a || cd d && b` stops after a succeeding `a`; a shell goes on to `b`, since the
  list is `(a || cd d) && b`.
- `ShellScripts.CdInPipeExample`: `a | cd d && b` runs `b` in `d` and feeds it the output of `a`; a shell runs it
  where it is, with its own input.
- `ShellScripts.InputInPipeExample`: in `a | b < f` the redirection is ignored; a shell lets it win over the pipe.
- `ShellScripts.ErrorBeforeOutputExample`: `a 2>&1 > f` sends the standard error to `f` as well; a shell leaves it
  where the standard output was.
- `ShellGrammar.DanglingIsIgnored`: a redirection operator without a file at the very end changes nothing.
- `ShellScripts.CdAtEndExample`, `ShellScripts.CdNowhereExample`: `cd d` is accepted and raises `IndexError` when run,
  `cd && a` raises `TypeError`.
- `Patches.DeletedDashesAreLost`: a deleted line whose text starts with two dashes and a space is written as a line
  that reads as a file name.
- `Patches.LateContentExample`: content after a new file name, but before its first chunk, goes to the chunk of the
  file before; `Patches.ParseFiledIff` says exactly when this does not happen.
- `Timeline.BetweenIsMissed`, `Timeline.SelectionComplete`: a query that starts and ends in gaps finds nothing, even
  when whole ranges lie between.
- `Binary.BinaryRange`: for no bits, and for -1, the list is empty; for fewer the index is out of range.
- `Binary.Int2BinCorrect`: for n <= 0 the slices count from the other end, so the result keeps all digits but the
  first -n.
- `Topsort.MissingKeyExample`: on dictionaries that do not describe a graph the generator ends all the same, but may
  raise `KeyError` after having yielded some levels; `Topsort.NoKeyIsMissing` gives a condition that rules it out.

## Model

| member | source | states |
|---|---|---|
| Graphs.CycleInside | bindings/python/topsort.py:363-367 | between two visits of one node every walk contains an elementary cycle |
| Graphs.LongWalkHasCycle | bindings/python/topsort.py:108-111 | a walk with more nodes than the graph has passes through an elementary cycle (pigeonhole) |
| Graphs.ChainIsWalk | bindings/python/topsort.py:207 | the recursive notion of a chain of k ancestors is the same as a walk of k edges that ends in the node |
| Graphs.DownstreamIffUnboundedChains | bindings/python/topsort.py:108-111 | chains of every length end in a node iff it is on an elementary cycle or reachable from one |
| Topsort.CountPair | bindings/python/topsort.py:80-87 | after each pair every mentioned element has a count, equal to its number of pairs as a child, repetitions included |
| Topsort.AddChild | bindings/python/topsort.py:89-90 | after each pair the lists hold each parent's children in the order of the pairs |
| Topsort.KidsPositions | bindings/python/topsort.py:89-90 | a parent's list has its children from the pairs that name it, at a strictly increasing list of all their positions |
| Topsort.BuildMaps | bindings/python/topsort.py:77-90 | the two dictionaries describe exactly the graph of the pair list, each list in the order of its pairs |
| Topsort.Roots | bindings/python/topsort.py:93 | exactly the keys with count zero, once each, in some order |
| Topsort.Release | bindings/python/topsort.py:100-103 | each child's count falls by its number of occurrences, and exactly the children that reach zero are appended, once each, in the order of their last places in the list |
| Topsort.TakeOut | bindings/python/topsort.py:97-106 | after one turn of the loop the dictionaries describe the graph without that parent, and only it is gone |
| Topsort.NextFrontier | bindings/python/topsort.py:97-103 | the growing answer always lists exactly the elements without a pending parent, parents first |
| Topsort.NextQueue | bindings/python/topsort.py:97-103 | the queue stays in order: the children one parent releases come after all others, by their last places in its list |
| Topsort.LeftoverIsDownstream | bindings/python/topsort.py:108-111 | when nothing more can be taken out, what is left is exactly the nodes on or downstream of a cycle |
| Topsort.AcyclicIffNothingDownstream | bindings/python/topsort.py:108-112 | there is no elementary cycle iff no node is on or downstream of one |
| Topsort.Topsort | bindings/python/topsort.py:61-112 | returns normally iff the pairs have no directed cycle; then every element occurs once and each parent before its children; otherwise the exception carries exactly the nodes on or downstream of a cycle, with their unmet counts, and their child lists in the order of the pairs; of two listed elements the one whose last parent is listed earlier comes first, and of two with the same last parent the one this lists for the last time earlier |
| Topsort.KnockDown | bindings/python/topsort.py:221-223 | each child's count falls by its number of occurrences in the list; a child without a count is a missing key |
| Topsort.TakeOutOne | bindings/python/topsort.py:217-224 | on any dictionaries: taking one node out gives the dictionaries without it, or fails iff a child it lists has no count of its own |
| Topsort.TakeOutLevel | bindings/python/topsort.py:217-224 | the nodes of a level taken out one after the other, up to the first missing key |
| Topsort.GraphWithout | bindings/python/topsort.py:217-224 | in dictionaries that describe a graph no key is missing, and without a whole level they describe the rest of the graph |
| Topsort.LevelIsDepth | bindings/python/topsort.py:205-207 | once the levels before k are gone, the nodes with count zero are exactly those whose longest chain of ancestors has k edges |
| Topsort.DeepIsDownstream | bindings/python/topsort.py:226-229 | when no node is free, the nodes left are exactly those on or downstream of a cycle |
| Topsort.TopsortLevels | bindings/python/topsort.py:157-172 | the contract of the level generator, for every pair list |
| Topsort.TopsortLevelsCore | bindings/python/topsort.py:203-232 | always ends; on any dictionaries each list yielded is non-empty and holds exactly the keys with count zero once the lists before it are gone, once each; if the dictionaries describe a graph, the k-th list holds exactly the nodes at depth k, the generator ends normally iff there is no cycle, and the exception carries exactly the nodes on or downstream of one |
| Topsort.EveryKeyYieldedOnce | bindings/python/topsort.py:203-232 | on any dictionaries, unless a key is missing, nothing is yielded twice, and the end is normal iff every key has been yielded |
| Topsort.NoKeyIsMissing | bindings/python/topsort.py:219-224 | if every listed child is a key, and no non-negative count is below the number of times the keys' lists name its node, no key is ever missing, in whatever order the dictionary lists its keys |
| Topsort.MissingKeyExample | bindings/python/topsort.py:221-223 | one key that lists a child without a count: its level is yielded, then the key is missing |
| Topsort.LevelsAreParentsFirst | bindings/python/topsort.py:203-224 | read one after the other, the levels are a valid dependency order without repetitions |
| Topsort.FlattenedAreShallow | bindings/python/topsort.py:203-224 | the first n levels together hold exactly the nodes with no chain of n ancestors |
| FindCycles.IsRotated | bindings/python/rad_util.py:735-775 | true iff the first list is a rotation of the second, repeated elements included; two empty lists raise |
| FindCycles.StartIndexes | bindings/python/rad_util.py:764-769 | exactly the positions of the head item |
| FindCycles.RotationInverse | bindings/python/rad_util.py:735-775 | being a rotation is symmetric |
| FindCycles.RotationTransitive | bindings/python/rad_util.py:735-775 | being a rotation is transitive |
| FindCycles.Report | bindings/python/topsort.py:369-378 | appends the cycle unless a rotation of it is listed, so no two listed cycles are rotations and this one is listed up to rotation |
| FindCycles.IndexOf | bindings/python/topsort.py:369 | the first position of an element of the path |
| FindCycles.PathChild | bindings/python/topsort.py:362-385 | a child on the path closes an elementary cycle from its place on; one off the path extends it to a longer simple path |
| FindCycles.TakeChild | bindings/python/topsort.py:362-385 | one child: only elementary cycles are added, the cycle it closes is listed, or exactly the longer path is pushed and the child marked |
| FindCycles.Expand | bindings/python/topsort.py:362-385 | all children of the popped path: every cycle closed by one is listed, and exactly the longer simple paths are pushed |
| FindCycles.ExtensionsWork | bindings/python/topsort.py:352-385 | the paths pushed for the first n children account for exactly the work those children stand for in the termination measure |
| FindCycles.ExpandPreserves | bindings/python/topsort.py:352-385 | every stacked path stays simple and starts at the root, and the total work on the stack decreases with every pop |
| FindCycles.AllHandled | bindings/python/topsort.py:352-385 | when the stack is empty, every simple path from the root has been popped |
| FindCycles.CycleOnPath | bindings/python/topsort.py:363-367 | every elementary cycle reachable from the root, rotated, is the tail of a simple path from the root |
| FindCycles.RootCovered | bindings/python/topsort.py:351-385 | when the stack is empty, every elementary cycle reachable from the root is listed up to rotation |
| FindCycles.ExploreFrom | bindings/python/topsort.py:351-385 | the loop from one root ends; afterwards every reachable cycle is listed, and only reachable nodes are marked |
| FindCycles.CoveredFurther | bindings/python/topsort.py:347-349 | skipping a marked start loses nothing, since its cycles are reachable from an earlier root |
| FindCycles.FindCycles | bindings/python/topsort.py:343-385 | exact on every dictionary: each list yielded is an elementary cycle, each elementary cycle is listed up to rotation, no two lists are rotations of one another |
| FindCycles.OneRepresentative | bindings/python/topsort.py:370-378 | each elementary cycle is represented by exactly one yielded list |
| FindCycles.NoCycleYieldedIffSortable | bindings/python/topsort.py:108-112 | on the dictionary built from a pair list nothing is yielded iff the flat sort of that list succeeds |
| WorkerPool.StepInv | test.py:978-1046 | every step of the main thread, a worker or the interrupt keeps the protocol's invariant (order of phases, shape of the queue, every job in exactly one place) |
| WorkerPool.RunInv | test.py:1423-1719 | the invariant holds in every state of every run, for any number of workers and jobs and any interrupt time |
| WorkerPool.GetJobInv | test.py:980-986 | taking a real job moves exactly that job from the queue to one worker |
| WorkerPool.ReturnInv | test.py:992-1046 | a worker that returns its job puts exactly that job on the output queue |
| WorkerPool.SentinelsComeLast | test.py:1696-1699 | a worker that meets a sentinel can do so only when all real jobs have been dispatched and taken, and the whole queue is sentinels |
| WorkerPool.AllBlocked | test.py:1696-1719 | if all is dispatched and no worker can move, all workers are stopped and every result has been put |
| WorkerPool.Progress | test.py:1423-1864 | in every reachable state that is not final, some step other than an interrupt is possible, given a worker or no jobs |
| WorkerPool.StepDecreases | test.py:978-1046 | every step decreases a non-negative measure |
| WorkerPool.RunsAreBounded | test.py:1423-1864 | no run has more than 4 * processors + 5 * jobs + 1 steps |
| WorkerPool.FinalIsClean | test.py:1718-1864 | when the main thread is through, all workers are stopped, both queues are empty, and every dispatched job was returned exactly once with a genuine result |
| WorkerPool.StoppedCleanly | test.py:1401-1864 | a reachable state in which only an interrupt is possible is a clean end iff there is at least one worker or no job |
| WorkerPool.MaximalRunsEndCleanly | test.py:1401-1864 | a run that can go no further has ended cleanly iff there is at least one worker or no job |
| WorkerPool.VerdictsAddUp | test.py:1711-1752 | the six verdicts partition the results, and PASS and SKIP together make up all of them iff no result is anything else |
| WorkerPool.Summarize | test.py:1711-1752 | the counters are the numbers of results of each kind, whatever their order; with the breaks they sum to the number of results; the value returned for all of them is 0 iff every result is PASS or SKIP |
| WorkerPool.SuccessCoversEveryJob | test.py:1948-1951 | success means that every dispatched job came back as what it should: SKIP if it was to be skipped, otherwise PASS |
| WorkerPool.EveryRunIsJudged | test.py:1718-1951 | in every run that has gone as far as it can, with a worker or no jobs, the counters and the breaks sum to the number of dispatched jobs, and the driver returns 0 iff every one of them succeeded |
| WorkerTrace.ResultsAreLogged | test.py:978-1046 | in every run the results collected and queued are what the workers' steps returned, in the order of the steps: a finished job with the code of that step, a job inspected after the interrupt as a break, a job to be skipped as it was |
| WorkerTrace.CollectedIsLogged | test.py:1718-1720 | at the end of every run the main thread has collected all of that |
| WorkerTrace.CountersOfRun | test.py:1711-1752 | passed, failed, valgrind errors and crashes are the numbers of jobs that finished with 0, 1, 2 and any other code, and skipped that of the jobs skipped before the interrupt; with the jobs inspected after it they sum to the jobs dispatched |
| WorkerTrace.ZeroMeansGoodResults | test.py:1948-1951 | the driver returns 0 iff no collected job is a break and each was to be skipped or has return code 0 |
| WorkerTrace.ZeroMeansNoFailure | test.py:1948-1951 | the driver returns 0 iff every job that finished did so with code 0 and no job was inspected after an interrupt |
| ConfigPaths.StaticInformation.RecordAggregationInfo | utils/print-introspected-doxygen.cc:1056-1076 | adds the pair if both names are known, and otherwise exactly the first unknown name |
| ConfigPaths.StaticInformation.GetCurrentPath | utils/print-introspected-doxygen.cc:1091-1102 | the stack of steps, each after a slash |
| ConfigPaths.StaticInformation.RecordOutput | utils/print-introspected-doxygen.cc:1105-1110 | appends the type with the current path string |
| ConfigPaths.StaticInformation.HasAlreadyBeenProcessed | utils/print-introspected-doxygen.cc:1113-1125 | true iff the type is on the stack |
| ConfigPaths.StaticInformation.Get | utils/print-introspected-doxygen.cc:1128-1142 | exactly the recorded paths of the type, in order |
| ConfigPaths.StaticInformation.Gather | utils/print-introspected-doxygen.cc:1176-1182 | appends the walk, duplicates included, since the de-duplication works on a copy |
| ConfigPaths.StaticInformation.DoGather | utils/print-introspected-doxygen.cc:1185-1269 | ends on every registry, appends exactly the walk below the type, leaves both stacks as found |
| ConfigPaths.StaticInformation.Descend | utils/print-introspected-doxygen.cc:1214-1218 | push, walk and pop append exactly the walk along that edge and restore both stacks |
| ConfigPaths.StaticInformation.GatherAttribute | utils/print-introspected-doxygen.cc:1196-1232 | a pointer leads to its pointee unless that is the root object type, a container to its items, anything else nowhere |
| ConfigPaths.StaticInformation.GatherAttributes | utils/print-introspected-doxygen.cc:1194-1233 | the walks along all attributes, in order |
| ConfigPaths.StaticInformation.GatherChild | utils/print-introspected-doxygen.cc:1236-1245 | the walk to a registered type if it is a child of this one |
| ConfigPaths.StaticInformation.GatherChildren | utils/print-introspected-doxygen.cc:1234-1246 | the walks to all children, in order of registration |
| ConfigPaths.StaticInformation.GatherAggregate | utils/print-introspected-doxygen.cc:1249-1267 | the walk from either end of an aggregation to the other |
| ConfigPaths.StaticInformation.GatherAggregates | utils/print-introspected-doxygen.cc:1247-1268 | the walks along all aggregations, in order |
| ConfigPaths.EdgesBelow | utils/print-introspected-doxygen.cc:1194-1268 | the three loops together walk exactly the edges of the type, in one order |
| ConfigPaths.FirstEdges | utils/print-introspected-doxygen.cc:1194-1268 | the walk along the first n edges records exactly the simple trails that start with one of them, in preorder |
| ConfigPaths.PreorderOfWalk | utils/print-introspected-doxygen.cc:1185-1269 | the walk records every simple trail once, nothing else, in preorder, each with the type it reaches and its path string |
| ConfigPaths.SimpleTrailMeaning | utils/print-introspected-doxygen.cc:1113-1125 | a trail is simple iff every choice exists and the types it enters are all different and none was on the stack |
| ConfigPaths.GetFindsEveryPath | utils/print-introspected-doxygen.cc:1128-1182 | after one gathering, the paths of a type are exactly the path strings of the simple trails that lead to it |
| ConfigResolution.PathStringPieces | utils/print-introspected-doxygen.cc:1091-1102 | between its slashes a path string has the pieces of all its steps in order, after an empty one in front |
| ConfigResolution.RecordedIffResolves | utils/print-introspected-doxygen.cc:1128-1269 | a string is recorded for a type iff, read from the start, it leads to that type by names of attributes (with an index for containers, never to the root object type), of children and of aggregated types, through no type twice |
| ConfigResolution.PathsInOrder | utils/print-introspected-doxygen.cc:1128-1142 | the paths handed out for a type stand in the record at a strictly increasing list of all its places |
| ConfigResolution.EdgesExample | utils/print-introspected-doxygen.cc:1194-1268 | attributes come first, then children, then aggregations, each in their own order |
| ShellParse.Pipeline.CommitCommand | waf-tools/shellcmd.py:101-104 | moves the current node to the end of the pipeline; raises iff there is none |
| ShellParse.Pipeline.BeginToken | waf-tools/shellcmd.py:138-153 | the state machine's step at the beginning of a command, environment assignments included |
| ShellParse.Pipeline.CommandToken | waf-tools/shellcmd.py:154-179 | its step inside a command |
| ShellParse.Pipeline.ChdirToken | waf-tools/shellcmd.py:180-187 | its step inside a `cd` |
| ShellParse.Pipeline.FileToken | waf-tools/shellcmd.py:188-199 | its step for the file of a redirection |
| ShellParse.Pipeline.ParseTokens | waf-tools/shellcmd.py:121-201 | the loop computes the state machine's result and leaves it in the object |
| ShellParse.Assignment | waf-tools/shellcmd.py:24 | the name is what stands before the first equals sign, the value what stands after it |
| ShellParse.AssignmentExamples | waf-tools/shellcmd.py:24 | tokens that are assignments, with their names and values |
| ShellParse.OtherTokensExamples | waf-tools/shellcmd.py:24 | tokens that are not: an empty name or value, a dash or a letter beyond ASCII in the name, white space in the value |
| ShellParse.RedirectionsExample | waf-tools/shellcmd.py:138-199 | an assignment, a command, its three redirections and a word: where each of them ends up |
| ShellGrammar.ScriptAccepted | waf-tools/shellcmd.py:137-201 | every script of the grammar is accepted, and the nodes returned are those it denotes |
| ShellGrammar.Explanation | waf-tools/shellcmd.py:137-199 | every token list that has not failed is a prefix of a script, and the parser's state is the one that prefix denotes |
| ShellGrammar.AcceptsExactlyTheGrammar | waf-tools/shellcmd.py:121-201 | the parser accepts a token list with a given result iff some script of the grammar has these tokens and denotes that result |
| ShellGrammar.DanglingIsIgnored | waf-tools/shellcmd.py:155-163 | a last redirection operator without its file is accepted and has no effect on the result |
| ShellRoundTrip.ParsedIsWellFormed | waf-tools/shellcmd.py:121-201 | every accepted pipeline has odd length and alternates operands and operators, each `cd` is last or followed by `&&`, and a command's output is a pipe iff a pipe follows |
| ShellRoundTrip.ScriptOfRead | waf-tools/shellcmd.py:131-201 | every well-formed pipeline is denoted by a script |
| ShellRoundTrip.ParseUnparse | waf-tools/shellcmd.py:131-201 | every well-formed pipeline, written as tokens, is parsed back to itself: environment, arguments, redirections and operators |
| ShellRun.ExecPipedCommands | waf-tools/shellcmd.py:203-212 | a group's status is that of its last process, although the code returns it only if some process failed |
| ShellRun.Run | waf-tools/shellcmd.py:214-346 | the loop computes the outcome and the launches of the machine specification, on every list of nodes, exceptions included |
| ShellRun.LoopOverGroup | waf-tools/shellcmd.py:222-310 | from anywhere inside a group the loop launches the rest of it in order, each command fed by the one before, also across a `cd` |
| ShellRun.LoopIsEval | waf-tools/shellcmd.py:214-346 | the loop is the recursive evaluator over right-nested lists, from every directory and after any launches |
| ShellRun.TreeOfNodes | waf-tools/shellcmd.py:225-346 | every well-formed pipeline is a right-nested list of groups |
| ShellRun.RunOfParsed | waf-tools/shellcmd.py:214-346 | running anything the parser accepts is evaluating its list, for all exit statuses |
| ShellRun.RunJoinsPipes | waf-tools/shellcmd.py:242-310 | in every run of an accepted pipeline a process that reads from another reads from the one launched just before, which writes to a pipe |
| ShellDirectories.JoinPathComponents | waf-tools/shellcmd.py:228 | a relative directory adds its components to the old ones, an absolute one replaces them |
| ShellDirectories.RunStartsAsWritten | waf-tools/shellcmd.py:222-293 | in every run of an accepted command line the i-th process is started for the i-th command, with its words, environment and redirections, reading from the process before iff it is behind a pipe; in no given directory iff no `cd` comes before it, and otherwise in one with the components of every relative `cd` since the last absolute one |
| ShellDirectories.CdThenRunExample | waf-tools/shellcmd.py:225-290 | `cd d` and b: b is started in `./d`, or in d if that is absolute |
| ShellDirectories.CdTwiceExample | waf-tools/shellcmd.py:225-290 | `cd d`, `cd e` and b: b is started in `./d/e` |
| ShellLists.ScanIsShellList | waf-tools/shellcmd.py:222-346 | the left-associative meaning of a list is the same read from left to right, a skipped pipeline passing the status on (section 2.9.3 of the POSIX.1-2017 Shell Command Language) |
| ShellLists.PlainAgrees | waf-tools/shellcmd.py:222-346 | from any point at which both have created the same processes in the same directory, the loop ends as the shell does if the rest of the list is plain |
| ShellLists.NotPlainDisagrees | waf-tools/shellcmd.py:222-346 | from any such point, some exit statuses make the two create different processes if the rest is not plain |
| ShellLists.NothingIsRaised | waf-tools/shellcmd.py:222-346 | from any point of a run, if no `cd` is last or lacks its directory, the loop ends with a status whatever the exit statuses |
| ShellLists.SomethingRaises | waf-tools/shellcmd.py:225-232 | otherwise some exit statuses make the executor raise |
| ShellLists.AnswersIffNothingRaises | waf-tools/shellcmd.py:214-346 | a well-formed pipeline ends with a status for all exit statuses iff it does not end in a `cd` and every `cd` has its directory |
| ShellLists.AgreesIffPlain | waf-tools/shellcmd.py:214-346 | for every well-formed pipeline, and any targets of its commands in the shell: agreement for all exit statuses iff no `cd` raises, no pipe leads into a `cd` or into a command with its own input, no operator after a command is followed later by the other one, and the targets are those the nodes record |
| ShellScripts.PhraseRecorded | waf-tools/shellcmd.py:252-278 | reading a command's redirections from left to right gives the targets the executor passes iff no `2>&1` stands before an output redirection |
| ShellScripts.ScriptRecorded | waf-tools/shellcmd.py:252-278 | the same for all commands of a script |
| ShellScripts.ScriptAgreesIff | waf-tools/shellcmd.py:121-346 | for every script of the grammar: the executor answers as the shell and creates the same processes, with their inputs, outputs, environments and directories, for all exit statuses, iff the nodes are plain, no `2>&1` stands before an output redirection of its command, and no redirection lacks its file |
| ShellScripts.OneKindAgrees | waf-tools/shellcmd.py:312-346 | in particular they agree with only one of the and- and or-operators, if no pipe leads into a `cd` or an input redirection and redirections are in order |
| ShellScripts.CdThenOrExample | waf-tools/shellcmd.py:225-346 | a `cd`, and, a command, or, another: both operators occur, and the two agree |
| ShellScripts.MixedExample | waf-tools/shellcmd.py:329-346 | a failing command, and, another, or, a third: one launch here, two in the shell |
| ShellScripts.CdAfterOrExample | waf-tools/shellcmd.py:312-324 | a succeeding command, or, `cd d`, and, another: one launch here, two in the shell |
| ShellScripts.CdInPipeExample | waf-tools/shellcmd.py:225-243 | a command, pipe, `cd d`, and, another: here the second reads from the first inside d, in the shell it has its own input and directory |
| ShellScripts.InputInPipeExample | waf-tools/shellcmd.py:242-249 | a command, pipe, another that redirects its input: here the pipe wins, in the shell the file |
| ShellScripts.ErrorBeforeOutputExample | waf-tools/shellcmd.py:252-278 | `2>&1` before an output redirection: here both streams go to the file, in the shell only the standard output |
| ShellScripts.ErrorToFileExample | waf-tools/shellcmd.py:252-278 | `2>` and a file: here and in the shell the standard error goes to the file |
| ShellScripts.CdAtEndExample | waf-tools/shellcmd.py:225-227 | `cd d` is accepted, and raises IndexError in every run |
| ShellScripts.CdNowhereExample | waf-tools/shellcmd.py:225-229 | `cd` and a command: accepted, and raises TypeError in every run |
| Patches.ParseLine | utils/check-style.py:368-401 | one line of input: the same patterns in the same order, the same errors |
| Patches.ParsePatchset | utils/check-style.py:359-403 | the loop computes the reader specification, None standing for an exception |
| Patches.AfterIff | utils/check-style.py:360-365 | a pattern matches iff the line is the prefix and one line of text, with or without a newline, and takes all of the text |
| Patches.ChunkStartRead | utils/check-style.py:362 | a chunk header gives its four numbers, in their places, whatever follows |
| Patches.DecimalExample | utils/check-style.py:292-293 | 0 and 1203 in decimal |
| Patches.FiledInOrder | utils/check-style.py:359-403 | for every readable input in which a chunk starts between a file name and its content: the patches have the file names in order, their chunks the positions of the headers in order, and their lines together are the lines of content in order |
| Patches.ParseFiledIff | utils/check-style.py:359-403 | for every readable input: a reader that forgets the current chunk at each file name succeeds, and then with the same result, iff after each file name a chunk starts before any content |
| Patches.LateContentExample | utils/check-style.py:370-389 | a file with a chunk, another file name, a deletion: the deletion is read into the first file's chunk |
| Patches.SrcOf | utils/check-style.py:254-263 | the lines of the source side, in order |
| Patches.DstOf | utils/check-style.py:264-273 | the lines of the destination side, in order |
| Patches.WriteChunk | utils/check-style.py:286-295 | the header with the counts of both sides, then every line with its mark |
| Patches.WritePatch | utils/check-style.py:348-357 | both file names, then every chunk |
| Patches.DecimalValue | utils/check-style.py:292-293 | a number written in decimal has only digits and is read back as itself |
| Patches.HeaderRead | utils/check-style.py:292-293 | a written chunk header is read back with all four numbers |
| Patches.HeaderCounts | utils/check-style.py:274-293 | the counts in a written header are the numbers of `-` and blank, and of `+` and blank, lines below it |
| Patches.StepLine | utils/check-style.py:383-400 | a written content line that is not mistaken for a file name is read back as itself |
| Patches.ParseText | utils/check-style.py:348-403 | a clean patch set is read back as itself |
| Patches.ScanClean | utils/check-style.py:359-403 | everything that can be read is clean |
| Patches.ParseTextParse | utils/check-style.py:348-403 | reading, writing and reading again gives the first result, for every input that can be read |
| Patches.RoundTripIffClean | utils/check-style.py:204-403 | writing and reading back is the identity iff every text is one line and no content line, with its mark, starts like a file name |
| Patches.DeletedDashesAreLost | utils/check-style.py:204-403 | a concrete patch set that is not read back |
| Whitespace.FindPlaces | utils/check-style.py:254-273 | the places of the lines of one side |
| Whitespace.SidesInOrder | utils/check-style.py:254-273 | the source lines and the destination lines are those at the places found, in order, each once |
| Whitespace.ChunkPassMends | utils/check-style.py:409-420 | in one chunk: of every source and destination line of the same rank, the destination line becomes the source line, as it then stands, iff it lacks just a final blank; no other line changes; and it stops early iff destination lines are missing |
| Whitespace.RemoveInChunk | utils/check-style.py:409-420 | every pair of a source and a destination line of the same rank is mended and no other line changes; stops with an exception iff there are fewer destination than source lines |
| Whitespace.RemoveInPatch | utils/check-style.py:408-420 | chunk after chunk, until one stops |
| Whitespace.RemoveInPatches | utils/check-style.py:407-421 | every chunk up to the first with fewer destination than source lines, and including it, is mended; all later ones stay as they are |
| Whitespace.RemoveTrailingWhitespaceChanges | utils/check-style.py:405-421 | the same of what was read; None if it cannot be read |
| Whitespace.PatchesPassMends | utils/check-style.py:407-421 | over all patches: this happens in every chunk up to the first that stops early, which is included, and in no other |
| Whitespace.PairWithoutContext | utils/check-style.py:413-418 | in a mended chunk without context lines a destination line changes iff it lacks just the final blank or tab of the source line of its rank, and then becomes equal to it; source lines never change |
| Whitespace.BlankPutBack | utils/check-style.py:413-418 | a deleted line with a final blank and the same line added without: the blank is put back |
| Whitespace.MendTouches | utils/check-style.py:413-418 | the pass keeps each line's kind, and a line is unchanged or is on the destination side and has gained one blank |
| Whitespace.MendWithoutContext | utils/check-style.py:413-418 | in a chunk without context lines, every source line is unchanged and its partner has become equal to it iff it lacked just the final blank |
| Whitespace.PassTouchesBlanksOnly | utils/check-style.py:405-421 | the whole pass keeps files, chunks, positions, kinds and order, and adds at most one blank to a destination line |
| Binary.Int2BinCorrect | bindings/python/rad_util.py:91-105 | for every n: KeyError iff i < 0, ValueError iff i does not fit the places there are, and otherwise binary digits of value i in exactly these places; for n >= 1 there are n places, so ValueError means i >= 2^n |
| Binary.SameValueSameNumeral | bindings/python/rad_util.py:130 | numerals of equal length and value are equal |
| Binary.IncrementAddsOne | bindings/python/rad_util.py:649-659 | the increment adds one modulo 2^bits and its carry says whether it wrapped round |
| Binary.Ripple | bindings/python/rad_util.py:648-659 | the inner loop, in place on the two arrays, is the increment, and `toggle[bits]` its carry |
| Binary.BinaryRange | bindings/python/rad_util.py:632-660 | ends for every number of bits; for bits >= 1 with exactly 2^bits numerals, the k-th being the one `int2bin` gives for k; empty for 0 and -1, IndexError below |
| Binary.GrayStep | bindings/python/rad_util.py:612-615 | all but the last bit of the code of i is the code of i / 2, and the last bit tells whether the last two bits of i differ |
| Binary.GrayBijection | bindings/python/rad_util.py:612-615 | below 2^n the encoding is a bijection, with an explicit inverse |
| Binary.NeighboursDifferInOneBit | bindings/python/rad_util.py:612-615 | the codes of i and i + 1 differ in exactly one bit |
| Fractions.EuclidStep | bindings/python/rad_util.py:254-257 | a floored remainder step keeps the common divisors, for either sign |
| Fractions.Gcf | bindings/python/rad_util.py:252-258 | ends for all integers and returns a common divisor that is a linear combination of both, hence the greatest |
| Fractions.GcdIsGreatest | bindings/python/rad_util.py:223-258 | every common divisor divides the result and is at most as large; it is 0 only for two zeros |
| Fractions.GcdUnique | bindings/python/rad_util.py:223-258 | there is only one such number |
| Fractions.Lcm | bindings/python/rad_util.py:285-290 | its product with the greatest common factor is the product of the two numbers, and it is a common multiple that divides every other |
| Fractions.ReduceFraction | bindings/python/rad_util.py:345-348 | raises iff both parts are zero; otherwise a coprime pair that gives back both parts when multiplied by their greatest common factor |
| Permutations.InsertItem | bindings/python/rad_util.py:320-323 | the item at each place of one list, in order |
| Permutations.InsertIntoAll | bindings/python/rad_util.py:318-323 | the item at each place of every list, in order |
| Permutations.Permutations | bindings/python/rad_util.py:310-326 | the recursion with its two loops computes the list specification |
| Permutations.PermsCount | bindings/python/rad_util.py:310-326 | exactly n! lists, repetitions included |
| Permutations.PermsAt | bindings/python/rad_util.py:310-326 | the order: list q * n + i is the q-th rearrangement of the rest with the first item at place i |
| Permutations.ExactlyRearrangements | bindings/python/rad_util.py:310-326 | a list is among them iff it is a rearrangement of the input |
| Permutations.PermsDistinct | bindings/python/rad_util.py:310-326 | with distinct elements no list occurs twice |
| Timeline.TimelineDataRange.AddRange | utils/grid.py:123-129 | appends the range |
| Timeline.TimelineDataRange.Sort | utils/grid.py:170-175 | the list is ordered by start, has the same ranges, and ranges with the same start keep their order; ranges of which no two share a point become separate |
| Timeline.SortSorted | utils/grid.py:74-81 | the sorted list is ordered by start and has the same ranges |
| Timeline.SortStable | utils/grid.py:74-81 | ranges with the same start keep their order |
| Timeline.SortSeparates | utils/grid.py:170-175 | ranges of which no two share a point satisfy the search's assumption once sorted |
| Timeline.BisectFinds | utils/grid.py:111-122 | in ordered ranges that at most touch, bisection ends with -1 only if no range between its bounds contains the key |
| Timeline.TimelineDataRange.Search | utils/grid.py:105-122 | always ends, with -1 or a place that contains the key; in ordered ranges that at most touch, -1 iff there is none |
| Timeline.TimelineDataRange.GetRanges | utils/grid.py:136-152 | for all ranges, the slice between the places where the searches for both ends stop |
| Timeline.TimelineDataRange.GetRangesBounds | utils/grid.py:153-169 | for all ranges, the bounds of that same slice |
| Timeline.SelectionComplete | utils/grid.py:143-152 | no overlapping range is left out iff an end of the query lies in a range or no range lies strictly between the ends |
| Timeline.SelectionExact | utils/grid.py:143-152 | with both ends in ranges the selection is exactly the overlapping ranges |
| Timeline.SelectionOneEnd | utils/grid.py:143-152 | with one end in a range and the other in a gap: exactly the ranges from the first one to the end, or from the start to the last one; with both in gaps none |
| Timeline.SelectionTouching | utils/grid.py:143-152 | in ranges that at most touch: every range that shares more than an end point with the query is selected iff an end lies in a range or no range lies strictly between; with both ends in ranges, only overlapping ones are |
| Timeline.BetweenIsMissed | utils/grid.py:145-146 | a concrete query that misses a range |
| Timeline.TimelineEvent.AddEvent | utils/grid.py:219-225 | appends the event |
| Timeline.TimelineEvent.Search | utils/grid.py:201-218 | always ends; with increasing times returns the number of events before the key |
| Timeline.TimelineEvent.GetEvents | utils/grid.py:226-235 | the slice from the first event not before the start to the first not before the end |
| Timeline.TimelineEvent.GetEventsBounds | utils/grid.py:236-245 | the bounds of the same slice |
| Timeline.EventsForQuery | utils/grid.py:226-245 | that slice holds every event from start to end, in order, and at most one later event |
| Timeline.ExactlySelected | utils/grid.py:226-245 | an event is in that slice iff it is not before the start, and the event before it, if any, is before the end |

## Left out

- FindCycles.FindCycles: the order in which cycles are yielded, the generator's laziness, and callers that change a yielded list or the dictionary while it runs; `yield` is an append to the result.
- Topsort.TopsortLevelsCore: likewise yields by appending to the result.
- WorkerPool.StepInv: an exception inside a worker or while launching a process; a further interrupt, which changes nothing; a job is a value that moves, not a shared object.
- WorkerPool.Summarize: the lists of names, the console output and the text, XML and HTML reports.
- ConfigPaths.StaticInformation.DoGather: `uint32_t` loop counters are unbounded, and `IsChildOf` is a given relation between types.
- ConfigPaths.StaticInformation.Gather: sorting and de-duplicating the copy of the output, which has no effect, and printing.
- ShellParse.Pipeline.ParseTokens: splitting a command string by `shlex`, and the object's fields after an assertion has failed.
- ShellRun.Run: opening and closing files, failures to start a process, and verbose mode, which reads an unbound variable in its `&&` and `||` branches. Exit statuses are an arbitrary function of the launches.
- ShellScripts.ScriptAgreesIff: in the shell a `cd` is taken to name a directory that exists (not `-`, and no `CDPATH`), and the last command of a pipeline to run in a subshell, as it does unless a shell extends the standard. The parser's division into phrases is given: a name of an assignment that starts with a digit, for which a shell would see a command, counts as one, and a word in the place of an operand counts as quoted.
- Patches.ParsePatchset: input lines with a newline anywhere but at the end are allowed, but universal newlines and non-ASCII digits are not modelled.
- Whitespace.RemoveTrailingWhitespaceChanges: lines are values in a list and are changed by position.
- Binary.GrayBijection: negative numbers.
- Binary.SameValueSameNumeral: `int(s, 2)` on strings with signs, prefixes, blanks or other digits.
- Fractions.Gcf: floating-point arguments and values of `epsilon` other than the default, which does not matter for integers.
- Permutations.Permutations: for fewer than two elements the source returns the caller's own list object; lists are values here.
- Timeline.TimelineDataRange.Sort: `list.sort` is a given stable sort, modelled as an insertion sort.
- The classes of `check-style.py`, the nodes of `shellcmd.py` and the `Job` objects of `test.py` are values; the objects that hold them change in place.
- Inner loops and branches of long functions are methods of their own, so one source function may be several members.
- `get_abbreviated_command` in `shellcmd.py`, whose `||` branch cannot be reached.
- The sorting of events, `get_bounds`, the drawing and the file reader of `grid.py`.
- The rest of `rad_util.py`: floating-point helpers, formatting, `find_common_fixes` and random vectors.
- Discovery of suites and examples and process launching in `test.py`; running a job is an arbitrary return code that arrives at some point.
- Simulation scenarios, plotting scripts, binding generators and the other build tools: configuration or thin wrappers.
