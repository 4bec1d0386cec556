# Verification of the mimic front end

An N-version front end for OpenStack sends each request to several executors and votes on their
answers. This project models its cores in Dafny and proves what they promise:

- **The voter of the proxy** (`JsonFlat`, `JsonLaws`, `StringBags`, `Answers`, `Comparison`, `Groups`, `Verdicts`,
  `ProxyVoter`, `ErrorCounters`). Answers arrive one by one and are grouped by comparison; a verdict is
  given by majority, or by time or weight; those who lost are reported. The comparison is a partial
  equivalence that rests on flattening JSON documents.
- **The scheduler** (`ExecTable`, `Scheduler`, `SchedulerRuns`). Health reports, timer ticks, operators, error reports,
  configuration changes and cleaning threads act on two tables, a counter and a bag of threads.
- **The judge protocol** (`JudgeProtocol`, `JudgeRuns`). The executors' own requests to a backend are collected in
  sessions; one is sent on, stand-ins replace late ones, and the response answers all of them.
- **The RESP reader and writer** (`RespGrammar`, `RespStack`, `RespReader`, `RespPrinter`, `RespFormat`,
  `Decimal`). A resumable parser with an explicit stack of tasks is proved against recursive descent, and that
  against a printer of reply trees.
- **Strings and the hash table** (`Sds`, `SdsWords`, `SdsSplit`, `DictChains`, `HashTable`, `HashIterator`).
- **HTTP bodies** (`BodyFraming`, `HttpBody`): section 4.1 and section 3.3.3 of RFC 7230, over any
  cutting of the input.

Code that works by changing things step by step is modelled by classes and methods with the fields,
loops and branches of the source. Each is proved against a specification function or predicate, and the
promises are lemmas about the specification. The strongest claims are about whole runs: methods such as
`RespReader.Drive`, `ProxyVoter.Vote`, `SchedulerRuns.Run`, `JudgeRuns.Run`, `HashTable.Run`,
`HashIterator.Visit` and `HttpBody.TransferChunks` take an arbitrary list of events (and, where the
source draws at random, iterates by address, reads a clock or hears from the network, arbitrary values
for that) and state what holds after all of them.

Some things the source promises or suggests do not hold of the code. Each is stated as it is, with the
exact condition under which it does hold:

- Two JSON documents that differ only in the order of their arrays are to have the same lines. They have,
  below any object, and at the root too unless an item of the root array shows its position: exactly an array
  that reaches, through elements that are arrays themselves, an object which has an array or an object with
  lines in it as a member (`JsonFlat.PositionShown`, `JsonFlat.OrderMatters`, `JsonFlat.SameShapeSameLines`).
  `JsonFlat.RootArrayOrderMatters` gives two such documents. Lists of scalars or of objects, and
  `[[{"k":p}],[{"k":q}]]`, are treated alike in any order.
- A manual up keeps the tables of the scheduler in agreement exactly when the executor is not being
  cleaned, and the capacity exactly when somebody is withdrawn by hand (`Scheduler.Schedule.DoManualUp`).
- A judge session is released exactly when, besides everything else, no request in it is for the path that
  marks a stand-in; such a request is never answered (`JudgeProtocol.Jthread.ReleasedWhen`, `ToldOnce`).
- evhtp's integer reader is to refuse what is above 2^64 - 1. A string of at most twenty digits is taken for
  another number exactly when its value lies in one of four intervals (`Decimal.ReadsDigits`,
  `Decimal.ReadRightly`), as that of 50000000000000000000 does (`Decimal.WrapUnnoticed`).
- The size of a chunk is printed as an unsigned 32-bit integer: what is decoded is what was sent exactly
  when every chunk is shorter than 2^32 bytes (`BodyFraming.DecodeExactly`).
- A size line is to consist of hexadecimal digits. It is taken exactly if it is not empty and each byte is a
  digit or above 127 (`BodyFraming.SizeLineTaken`), because the table of digits has 128 initialisers for 256
  entries; so a line is treated wrongly exactly if it is so taken and has a byte above 127, or denotes
  2^64 or more (`BodyFraming.SizeLineRight`). A line of the byte 128 is read as size 0
  (`BodyFraming.HighByteTaken`).
- Splitting a joined list gives the list back exactly when the list is empty, or the text is not and each
  token is clean of the separator (`SdsSplit.SplitUndoesJoin`); a list of one empty string is lost.

## Model

| member | source | states |
|---|---|---|
| JsonFlat.FlatJson | src/proxy_task.cpp:1020-1078 | the recursion that pushes onto a shared vector appends exactly the lines of the specification, in order; what those tell is said by the laws below |
| JsonLaws.Replacement | src/proxy_task.cpp:1020-1078 | documents that are the same but for one part, at any depth, have the same lines up to order exactly if the part is ignored or its own lines at its place are the same |
| JsonLaws.OneScalar | src/proxy_task.cpp:1020-1078 | another text or type of one scalar that is not ignored changes the lines, be it a member, an element or an item of the root |
| JsonLaws.OneName | src/proxy_task.cpp:1020-1078 | another name of one member that holds a scalar changes the lines, wherever it comes in the new order |
| JsonLaws.MemberThere | src/proxy_task.cpp:1024-1037 | where a member of members stands, and exactly when it is ignored: by a name, or by the path up to one |
| JsonLaws.MemberLine | src/proxy_task.cpp:1072-1075 | the line of a scalar below objects: the names with arrows, the text, a 7 for each object, the type |
| JsonLaws.ElementOfMemberLine | src/proxy_task.cpp:1060-1069 | the line of an element of an array below objects |
| JsonLaws.MemberOfElementLine | src/proxy_task.cpp:1044-1051 | the line of a member of an object in such an array |
| JsonLaws.ItemOfElementLine | src/proxy_task.cpp:1052-1059 | the line of an item of an array in such an array |
| JsonLaws.ItemLine | src/proxy_task.cpp:1072-1075 | the line of an item of a root array |
| JsonLaws.MemberOfItemLine | src/proxy_task.cpp:1036-1041 | the line of a member of an object in a root array |
| JsonLaws.ElementOfItemLine | src/proxy_task.cpp:1060-1069 | the line of an element of an array in a root array |
| JsonLaws.DeepItemLines | src/proxy_task.cpp:1043-1059 | the lines one array deeper, where the path has begun with a position |
| JsonFlat.SameShapeSameLines | src/proxy_task.cpp:1020-1078 | permuting any array at any depth, or changing what is under ignored members, leaves the bag of lines as it is, if no member name is empty, no numeral is ignored and no item of a root array shows its position |
| JsonFlat.PositionShown | src/proxy_task.cpp:1020-1078 | exactly which items of a root array have lines that depend on their position |
| JsonFlat.OrderMatters | src/proxy_task.cpp:1020-1078 | an item and a scalar at the root can be told from their swap exactly if the item shows its position |
| JsonFlat.RootArrayOrderMatters | src/proxy_task.cpp:1054-1076 | two array-rooted documents of the same shape whose lines differ |
| StringBags.Sort | src/proxy_task.cpp:990-991 | sorted, and a permutation |
| StringBags.SetDifference | src/proxy_task.cpp:993-994 | of two sorted lists: the difference of the bags |
| StringBags.UnmatchedBag | src/proxy_task.cpp:993-994 | the merge that walks both lists leaves exactly the difference of the bags |
| StringBags.EqualBags | src/proxy_task.cpp:995-998 | two lists are equal up to order exactly when they are as long and both differences are empty |
| Comparison.ComJsonBody | src/proxy_task.cpp:946-1018 | code 100 exactly when both bodies parse and their lines are equal as bags; code 99 exactly when one does not parse |
| Comparison.ComTxtBody | src/proxy_task.cpp:1080-1093 | equal exactly when the lengths and the texts before the first NUL are |
| Comparison.CompareAnswers | src/proxy_task.cpp:781-920 | exactly when each of the five reasons is given, and none: status and content type are the same, and the bodies are both empty, or both parse and have the same bag of lines, or are the same C strings of one length |
| Comparison.DifferenceRight | src/proxy_task.cpp:833-918 | so for the function that the grouping is specified with |
| Comparison.DifferenceSymmetric | src/proxy_task.cpp:781-920 | both directions give the same reason |
| Comparison.AgreeTransitive | src/proxy_task.cpp:781-920 | equality of answers is transitive |
| Comparison.AgreeReflexive | src/proxy_task.cpp:862-905 | an answer equals itself exactly unless it announces a JSON body that does not parse |
| Comparison.SameShapeSameBody | src/proxy_task.cpp:946-998 | bodies of the same shape compare as equal, whatever their roots, unless an item of a root array shows its position |
| Comparison.OneScalarDiffers | src/proxy_task.cpp:884-904 | JSON answers that are the same but for one scalar that is not ignored differ in the body's value |
| Groups.GroupsAreClasses | src/proxy_task.cpp:651-682 | the groups are the classes of the answers, whatever the order of arrival and of iteration |
| Groups.JoinsGroup | src/proxy_task.cpp:651-660 | joining the first group whose representative is equal keeps the grouping right |
| Groups.StartsGroup | src/proxy_task.cpp:662-668 | an answer that no representative equals starts a group, wherever it is put in the iteration order |
| Verdicts.MajorityPrevails | src/proxy_task.cpp:684-735 | a strict majority of equal answers that are no timeouts has the verdict, by majority |
| Verdicts.TimeoutOnlyIfAll | src/proxy_task.cpp:694-757 | the verdict is a gateway timeout exactly when all answers have come and all are timeouts |
| Verdicts.VerdictStays | src/proxy_task.cpp:684-757 | a verdict given early stays right when more answers come |
| Verdicts.QuorumIsMajority | src/proxy_task.cpp:686-691 | there is no quorum outside a strict majority |
| Verdicts.HalfIsMajority | src/proxy_task.cpp:684-735 | once all answers have come the verdict is by majority exactly if at least half of them are equal |
| Verdicts.SuccessOrChosen | src/proxy_task.cpp:694-748 | a verdict that is no success, although there is one, has won by itself and stands for no timeout |
| ProxyVoter.ProxyTask.CmpJudgeData | src/proxy_task.cpp:760-920 | compares with a representative, and records exactly the difference found |
| ProxyVoter.ProxyTask.GroupAnswer | src/proxy_task.cpp:646-682 | the grouping stays right, records are sound, and each two representatives are recorded in both directions |
| ProxyVoter.ProxyTask.Supplement | src/proxy_task.cpp:667-681 | copying what older groups recorded about a new representative completes the records |
| ProxyVoter.ProxyTask.TimeOrWeightJudge | src/proxy_task.cpp:1174-1267 | by weight the executor with the one least failure count; else the one with the one least start time; else the answer drawn |
| ProxyVoter.ProxyTask.JudgeData | src/proxy_task.cpp:632-758 | returns 1 at the arrival that brings the verdict and never again, keeps groups, records and verdict right, and by time or weight gives the answer that the rule favours |
| ProxyVoter.ProxyTask.AnalyseJudgeResult | src/proxy_task.cpp:1095-1172 | by majority, blames exactly those outside the class of the verdict, each with its difference; otherwise exactly those outside the group of the verdict, each with the last difference that its group recorded |
| ProxyVoter.OutsideIs | src/proxy_task.cpp:1148-1167 | by time or weight, those blamed are the answers that differ from the verdict if it started its group, and all answers, its own included, if it did not |
| ProxyVoter.TogetherMeans | src/proxy_task.cpp:646-682 | two answers are in one group exactly if they match: two JSON answers with different bags of lines never are |
| ProxyVoter.VoteIsFair | src/proxy_task.cpp:632-758 | the N-version theorem, the pick by time or weight and the blame included, for a vote in which all have answered |
| ProxyVoter.Vote | src/proxy_task.cpp:632-758 | every vote in every order of arrival: one verdict, which is one of the answers; canonical groups, of exactly the answers that match; a timeout only if all are; by majority exactly if half of the answers are equal, and a strict majority wins; otherwise the answer that the rule and the draw favour; a success before anything else in the place of a timeout; and who is blamed, exactly |
| ErrorCounters.NextBlame | src/proxy_task.cpp:191-216 | how one more blame changes counter and reports |
| ErrorCounters.ReportsClosed | src/proxy_task.cpp:191-216 | with a positive limit, reports and counter are quotient and remainder of the blames by limit + 1 |
| ErrorCounters.Blames | src/proxy_task.cpp:191-216 | over every run, how often each executor is reported, as a function of how often it is blamed |
| ExecTable.DrawChoosesOne | src/mimic_schedule.cpp:639-676 | with positive weights each draw falls into exactly one interval |
| ExecTable.DrawsAreProportional | src/mimic_schedule.cpp:639-676 | each executor is chosen by exactly as many draws as its weight says |
| ExecTable.WeightIsFair | src/mimic_schedule.cpp:639-676 | each executor in reserve is chosen by weight by exactly as many draws as its weight |
| ExecTable.RandomIsFair | src/mimic_schedule.cpp:610-637 | each executor in reserve is chosen at random by exactly one of as many draws as there are |
| ExecTable.ChooseByWeight | src/mimic_schedule.cpp:639-676 | the loop finds the interval of the draw, and nobody only if nobody is in reserve |
| ExecTable.Loads | src/mimic_schedule.cpp:679-712 | each host with its number of active executors and its executors in reserve |
| ExecTable.ChooseLeastBusy | src/mimic_schedule.cpp:712-764 | an executor in reserve on a host with the fewest active among those that have one in reserve |
| Scheduler.SwapConsistent | src/mimic_schedule.cpp:610-637 | a swap keeps the two tables in agreement and changes the number of active executors as it should |
| Scheduler.UpByHand | src/mimic_schedule.cpp:866-912 | a manual up keeps the agreement exactly when no thread is cleaning the executor |
| Scheduler.FreshHost | src/mimic_schedule.cpp:679-764 | while a host with a spare is idle, the least busy host is idle |
| Scheduler.Schedule.InitActiveExec | src/mimic_schedule.cpp:581-607 | fills the places or uses everybody up; with enough hosts, everybody is on a host of its own |
| Scheduler.Schedule.PolicyAllRandom | src/mimic_schedule.cpp:610-637 | the executor in reserve that the draw says goes up, the given one down |
| Scheduler.Schedule.PolicyWeight | src/mimic_schedule.cpp:639-676 | the executor of the interval of the draw goes up |
| Scheduler.Schedule.PolicyHostRandom | src/mimic_schedule.cpp:679-764 | a fully spread set keeps its hosts if the host of the one going down has a spare; otherwise a least busy host is used |
| Scheduler.Schedule.DoUpdown | src/mimic_schedule.cpp:766-822 | the change of guard: who goes, who comes, who is cleaned; the last active executor stays; a reported failure, and no other, is counted |
| Scheduler.Schedule.ExecAutoReport | src/mimic_schedule.cpp:474-511 | a health report ends with all places filled or nobody in reserve, and never empties the active list |
| Scheduler.Schedule.Report | src/mimic_schedule.cpp:474-500 | what each combination of status and health does to the tables and the cleaners |
| Scheduler.Schedule.OldestTime | src/mimic_schedule.cpp:824-840 | the least start time, if none is zero |
| Scheduler.Schedule.ExecAutoSchedule | src/mimic_schedule.cpp:824-851 | the executor that went up first goes down, unless it is the last |
| Scheduler.Schedule.DoManualUp | src/mimic_schedule.cpp:866-912 | when it is accepted, what it does, and exactly when agreement and capacity survive it |
| Scheduler.Schedule.DoManualDown | src/mimic_schedule.cpp:914-961 | an active executor that is not the last goes into reserve and is counted as withdrawn |
| Scheduler.Schedule.DoManualClean | src/mimic_schedule.cpp:963-1000 | exactly an offline executor gets a cleaner |
| Scheduler.Schedule.DoReportError | src/mimic_schedule.cpp:1002-1024 | with nothing between the items of a report: if all are accepted each reported executor is being cleaned, unless it is the last one active; nobody else is |
| Scheduler.Schedule.ReportOne | src/mimic_schedule.cpp:1009-1022 | one item of a report, under one lock: an active executor is replaced and cleaned and its failure count goes up by one, unless it is the last; no other count changes |
| Scheduler.OustedCounts | src/mimic_schedule.cpp:783-788 | an accepted report counts exactly one failure, starting again at 1 before the largest integer |
| Scheduler.Schedule.DoUpdateConfig | src/mimic_schedule.cpp:1157-1190 | switching off puts all but one into reserve and counts them as withdrawn; switching on forgets the count |
| Scheduler.Schedule.CleanThreadDone | src/mimic_schedule.cpp:361-412 | one cleaner less, and its executor is offline |
| SchedulerRuns.Perform | src/mimic_schedule.cpp:425-1190 | an operation, or one item of an error report, relates the state before to the state after as it should |
| SchedulerRuns.StepMoves | src/mimic_schedule.cpp:425-1190 | what an operation may do to the status of each executor; that it leaves address and weight, counts exactly an accepted report, and gives those who go up the time at which they do |
| SchedulerRuns.FailuresCounted | src/mimic_schedule.cpp:783-788 | in every run a failure count is that of the start and one more for each accepted report, with the wrap |
| SchedulerRuns.Run | src/mimic_schedule.cpp:425-1190 | in every run each operation changes the tables as it should, executor by executor, and after each the tables agree, each cleaned executor has one cleaner, the capacity is respected and the active list never becomes empty again; failures are counted; a run ends only before an excluded manual up |
| SchedulerRuns.Rotation | src/mimic_schedule.cpp:824-851 | in every run of ticks and recoveries with somebody in reserve at each tick, the executors that are active at first go down in the order in which they went up, one a tick, until all have |
| JudgeProtocol.JudgeTask.ResponseToFrondReq | src/judge_task.cpp:84-162 | answers each request that waits, once, and releases the task exactly after the last item, the response and the last answer |
| JudgeProtocol.JudgeTask.ProcessJudgeData | src/judge_task.cpp:353-396 | takes an item in: the session becomes that of the specification, with flags, answers and release as it says |
| JudgeProtocol.JudgeTask.JudgeTimeoutCb | src/judge_task.cpp:36-82 | each late address gets a stand-in up to the size of the list, one after the other as the specification says, so that a list without repetition is complete |
| JudgeProtocol.MissingCompletes | src/judge_task.cpp:41-50 | the addresses that have come and those that have not make up the server list |
| JudgeProtocol.JudgeTask.SendToBackend | src/judge_task.cpp:164-351 | a request that cannot be sent is answered with a gateway timeout at once |
| JudgeProtocol.JudgeTask.BackendRespCb | src/judge_task.cpp:184-265 | the response settles the session |
| JudgeProtocol.Jthread.DoJudge | src/mimic_jthread.cpp:122-175 | a request is taken exactly if its host is known, the list is not full and the host has none in it; otherwise it gets the error reply; and what that does to its session and to no other |
| JudgeProtocol.Jthread.ToldOnce | src/judge_task.cpp:107-140 | what each request has been told at any time: the error reply, or the response once, or nothing yet |
| JudgeProtocol.Jthread.ReleasedWhen | src/judge_task.cpp:141-161 | a session is released exactly when its list is complete, the backend has responded and no request is for the path of a stand-in |
| JudgeProtocol.Jthread.CompleteAfterTimer | src/judge_task.cpp:36-82 | after the timer each address has exactly one item, and the backend has been asked |
| JudgeProtocol.AnswerOne | src/judge_task.cpp:107-140 | one more answer disturbs no other request |
| JudgeRuns.OthersDoNotMatter | src/mimic_jthread.cpp:122-175 | what becomes of a session depends on its own events only |
| JudgeRuns.EachTaken | src/mimic_jthread.cpp:122-175 | every request is taken by a session of its number, or refused |
| JudgeRuns.NoneRefused | src/mimic_jthread.cpp:122-175 | if each address of a list without repetition sends at most one request before the timer fires, none is refused and one session takes them all, in order |
| JudgeRuns.RefusedExactly | src/mimic_jthread.cpp:122-175 | a request is refused exactly if its host is unknown to its session, or has a request in it, or the list is full |
| JudgeRuns.Run | src/mimic_jthread.cpp:122-175 | in every run over any sessions: each request is told what its own session says, a session that has ended has told each of its requests the response and nothing else, nobody is told anything twice, and a session that has not ended still waits or cannot end |
| RespGrammar.ReadItemExtends | libs/hiredis/read.c:269-526 | an item that is not waiting for bytes is the same whatever follows |
| RespStack.SettleMeaning | libs/hiredis/read.c:241-267 | closing full aggregates does not change what the input means to recursive descent |
| RespStack.OpenMeaning | libs/hiredis/read.c:449-526 | opening an aggregate is what recursive descent does at its first element |
| RespStack.OnStreamEnd | libs/hiredis/read.c:688-739 | where the whole stream stands when no reply, or an error, is left |
| RespStack.CreateKeeps | libs/hiredis/hiredis.c:121-284 | a new object is linked into its parent's slot and no other tree changes |
| RespStack.CreateOpen | libs/hiredis/hiredis.c:169-195 | an aggregate is created with empty slots, one level deeper |
| RespStack.CloseLevel | libs/hiredis/read.c:241-258 | the last child completes its parent |
| RespStack.NextItem | libs/hiredis/read.c:258-266 | any other child leaves it open, with one more element done |
| RespReader.SeekNewline | libs/hiredis/read.c:125-161 | finds the first CRLF |
| RespReader.DecodeLine | libs/hiredis/read.c:269-349 | reads a line of a simple type as the grammar says, with its errors |
| RespReader.DecodeBulk | libs/hiredis/read.c:351-421 | reads a bulk or verbatim string as the grammar says |
| RespReader.DecodeHeader | libs/hiredis/read.c:449-526 | reads an aggregate's header as the grammar says |
| RespReader.Reader.MoveToNextTask | libs/hiredis/read.c:241-267 | does to the stack of tasks and objects what closing frames does in the specification |
| RespReader.Reader.ProcessItem | libs/hiredis/read.c:528-603 | keeps the stack right, and consumes, waits or fails as recursive descent does |
| RespReader.Reader.Feed | libs/hiredis/read.c:657-686 | appends to the stream |
| RespReader.Reader.GetReply | libs/hiredis/read.c:688-739 | hands out the next reply of the whole stream, or says rightly that there is none or what is wrong |
| RespReader.Drive | libs/hiredis/read.c:657-739 | however the stream is cut and whenever replies are asked for, they are those of recursive descent on the whole stream, as many as were asked for in time, and so is the error |
| RespPrinter.PrintReads | libs/hiredis/read.c:528-603 | every well-formed reply tree, printed with the type bytes of the protocol, is read back as it was, whatever follows |
| RespPrinter.PrintAndReceive | libs/hiredis/read.c:657-739 | printed trees sent through the reader in any pieces come out as they went in |
| RespPrinter.PrefixWaits | libs/hiredis/read.c:269-526 | a printed tree without its end is neither a reply nor an error |
| RespPrinter.ReplyExtends | libs/hiredis/read.c:269-526 | a reply or an error does not depend on what follows |
| RespPrinter.OtherBytesRefused | libs/hiredis/read.c:528-575 | a reply begins with one of twelve bytes |
| RespPrinter.NumbersRefused | libs/hiredis/read.c:269-526 | where a number is due anything but the decimal of a 64-bit integer is refused |
| RespPrinter.OddLengths | libs/hiredis/read.c:351-526 | lengths and counts out of range are refused; -1 is nil, and 0 elements make an empty aggregate |
| RespPrinter.DoublesRefused | libs/hiredis/read.c:284-312 | doubles too long or not taken by the C library are refused |
| RespPrinter.VerbatimRefused | libs/hiredis/read.c:392-398 | a verbatim string without its format is refused |
| RespPrinter.PushRefuses | libs/hiredis/hiredis.c:197-284 | nil, booleans and doubles are refused directly in a push |
| Decimal.String2ll | libs/hiredis/read.c:163-224 | the guarded 64-bit loop computes the specification |
| Decimal.ParseLLMeaning | libs/hiredis/read.c:163-224 | accepts exactly the canonical decimals of the signed 64-bit range, with the right value |
| Decimal.Sdsll2str | libs/hiredis/sds.c:431-460 | writes the canonical decimal and a NUL in place |
| Decimal.PrintThenRead | libs/hiredis/sds.c:431-460 | the reader inverts the printer |
| Decimal.ReverseInPlace | libs/evhtp/numtoa.c:19-26 | reverses a part of an array in place |
| Decimal.ModpU64toa | libs/evhtp/numtoa.c:28-43 | writes the canonical decimal and a NUL in place |
| Decimal.StrToUint64 | libs/evhtp/parser.c:350-390 | exactly what is accepted, and the value modulo 2^64 |
| Decimal.PrintThenReadUnsigned | libs/evhtp/parser.c:350-390 | inverts the printer on all of [0, 2^64), blanks behind included |
| Decimal.WrapUnnoticed | libs/evhtp/parser.c:374-383 | a numeral above 2^64 - 1 that is read as another number |
| Decimal.ReadsDigits | libs/evhtp/parser.c:350-390 | no value below 2^64 is refused, and exactly the values of four intervals above are not |
| Decimal.ReadRightly | libs/evhtp/parser.c:350-390 | exactly when a string of digits is read rightly |
| Decimal.CountDigits | libs/hiredis/hiredis.c:287-298 | equals the printed length |
| Decimal.DigitsLength | libs/hiredis/hiredis.c:287-298 | the printed length is bounded by powers of ten, both ways |
| RespFormat.BulkLen | libs/hiredis/hiredis.c:300-302 | the exact size of an argument on the wire |
| RespFormat.FormatCommandArgv | libs/hiredis/hiredis.c:624-660 | fills a buffer of exactly the predicted size with the command |
| RespFormat.FormatSdsCommandArgv | libs/hiredis/hiredis.c:567-613 | builds the same bytes by appending |
| RespFormat.FormatThenRead | libs/hiredis/hiredis.c:624-660 | the grammar reads a formatted command back as one array of its arguments, and leaves what follows |
| RespFormat.CommandsRead | libs/hiredis/hiredis.c:624-660 | likewise for any pipeline of commands |
| RespFormat.SendAndReceive | libs/hiredis/read.c:657-739 | commands sent through the reader in any pieces come out as they went in |
| Sds.CatRepr | libs/hiredis/sds.c:872-895 | appends the quoted representation |
| Sds.GetToken | libs/hiredis/sds.c:949-1028 | the loop with its flags reads the token of the specification and never passes the terminator |
| Sds.SplitArgs | libs/hiredis/sds.c:940-1056 | splits a line as the specification does |
| SdsWords.SplitWords | libs/hiredis/sds.c:940-1056 | a line of words of every kind, bare, in double or single quotes or bare with a quoted end, with any blanks between, splits into the values of the words |
| SdsWords.ClosedTooEarly | libs/hiredis/sds.c:983-1007 | a line with something else than a blank behind a closing quote is refused |
| SdsWords.NeverClosed | libs/hiredis/sds.c:988-1012 | a line with a quote that is never closed is refused |
| SdsWords.ReprPrintable | libs/hiredis/sds.c:875-893 | a printable byte stands for itself in the representation, a quote or backslash behind a backslash |
| SdsWords.ReprLetters | libs/hiredis/sds.c:880-885 | five controls have two-byte escapes |
| SdsWords.ReprHexPair | libs/hiredis/sds.c:886-891 | any other byte is printed by two hexadecimal digits |
| SdsWords.ReprIsWord | libs/hiredis/sds.c:872-895 | a representation is a word whose value is the string |
| SdsWords.SplitUndoesRepr | libs/hiredis/sds.c:872-1056 | splitting the quoted strings, joined by spaces, gives back any list of byte strings |
| SdsWords.QuoteAndSplit | libs/hiredis/sds.c:872-1056 | printer and parser run one after the other are the identity |
| SdsSplit.SplitLen | libs/hiredis/sds.c:809-856 | the tokens of the specification, or NULL exactly for a bad length or separator |
| SdsSplit.FillTokens | libs/hiredis/sds.c:814-844 | the array grows before it is overrun and holds exactly the tokens |
| SdsSplit.JoinSds | libs/hiredis/sds.c:1095-1104 | joins with the separator between |
| SdsSplit.JoinUndoesSplit | libs/hiredis/sds.c:809-856 | joining gives the string back, and no token has the separator in it |
| SdsSplit.SplitUndoesJoin | libs/hiredis/sds.c:809-856 | exactly when splitting gives a joined list back |
| DictChains.MaskIsRemainder | libs/hiredis/dict.c:120-124 | with a power of two as size, the mask takes the remainder |
| DictChains.NextPower | libs/hiredis/dict.c:320-329 | the least power of two that is large enough |
| DictChains.Insert | libs/hiredis/dict.c:150-162 | an entry in front of its chain keeps keys unique, in their buckets and counted |
| DictChains.Remove | libs/hiredis/dict.c:200-222 | so does an entry that leaves its chain |
| HashTable.Search | libs/hiredis/dict.c:255-268 | follows a linked list to the key, if it is there |
| HashTable.Dict.Find | libs/hiredis/dict.c:255-268 | finds the entry with the map's value, exactly if the map has the key |
| HashTable.Dict.Rehash | libs/hiredis/dict.c:108-132 | moves every entry to the new array; the old count ends at zero |
| HashTable.Dict.Expand | libs/hiredis/dict.c:92-138 | the map stays the same in a larger table |
| HashTable.Dict.KeyIndex | libs/hiredis/dict.c:334-351 | -1 exactly if the key is there, otherwise its bucket in a table with room |
| HashTable.Dict.Add | libs/hiredis/dict.c:141-163 | adds to the map exactly a new key |
| HashTable.Dict.Replace | libs/hiredis/dict.c:169-191 | sets the key in the map, and says whether it was new |
| HashTable.Dict.Delete | libs/hiredis/dict.c:194-222 | removes the key from the map, if it is there, and only its entry from its chain |
| HashTable.Run | libs/hiredis/dict.c:92-268 | any sequence of operations, across all rehashings, says what a map would say |
| HashIterator.Iterator.Next | libs/hiredis/dict.c:282-300 | returns the entries in the order of the buckets, one by one |
| HashIterator.Iterator.DeleteReturned | libs/hiredis/dict.c:282-300 | deleting the entry just returned changes nothing of what is left to return |
| HashIterator.Visit | libs/hiredis/dict.c:270-300 | each entry is visited exactly once, whichever are deleted as they are visited |
| BodyFraming.FeedConcat | libs/evhtp/parser.c:2020-2280 | feeding two parts one after the other is feeding the whole |
| BodyFraming.FeedHex | libs/evhtp/parser.c:2116-2146 | a printed size is read back |
| BodyFraming.FeedBody | libs/evhtp/parser.c:2236-2263 | a body of known length is delivered and ends the message; what follows is not read |
| BodyFraming.FeedChunk | libs/evhtp/parser.c:2116-2233 | a sent chunk is decoded to its bytes, with one start and one end |
| BodyFraming.DecodeChunks | libs/evhtp/evhtp.c:3908-3945 | what the sender writes is decoded to exactly the chunks and one end of the message |
| BodyFraming.DecodeExactly | libs/evhtp/evhtp.c:3919-3923 | this is so exactly when every chunk is shorter than 2^32 bytes |
| BodyFraming.SizeLineTaken | libs/evhtp/parser.c:2116-2170 | exactly which size lines are taken, for which number, and which of them are no numbers |
| BodyFraming.SizeLineRight | libs/evhtp/parser.c:2116-2170 | exactly when a size line is treated rightly |
| BodyFraming.HighByteTaken | libs/evhtp/parser.c:192-201 | a line that is taken although it is no number |
| HttpBody.Htparser.Run | libs/evhtp/parser.c:2020-2280 | the loop that takes body bytes in bulk calls the hooks as the bytes one by one would, and stops at the end of the message or the first error |
| HttpBody.Htparser.RunPieces | libs/evhtp/parser.c:2020-2280 | whatever the pieces in which a stream arrives, the result is that of the whole stream |
| HttpBody.Reply.SendReplyChunk | libs/evhtp/evhtp.c:3908-3931 | appends a chunk unless the buffer is empty |
| HttpBody.DeliveredFlat | libs/evhtp/parser.c:2174-2204 | counting body bytes one by one or in runs gives the same body |
| HttpBody.TransferChunks | libs/evhtp/evhtp.c:3908-3945 | chunks sent and read back in any pieces are the body, with exactly one start and one end a chunk and one end of the message, and the next message is not touched |
| HttpBody.TransferBody | libs/evhtp/parser.c:2236-2263 | likewise for a body of known length, with one end of the message |

## Left out

- Sockets, event loops, locks, databases, containers, logging, configuration files and the command line. A
  callback is a step, a write succeeds and memory is never short. Memory is not modelled as released, except
  that a judge session knows whether it has been.
- Error texts, and the details in JSON that go with a recorded difference: only its reason is kept.
- `filterBody`, the regular expressions, and the reading and printing of JSON: the reader is a parameter, and
  scalars carry their printed text. `JsonFlat.SameShapeSameLines` assumes of the number test only that it
  accepts the positions of arrays; what is said of positions at the root assumes besides that a path which
  goes on from a position, as in `0->k`, is neither a number nor ignored.
- The order in which a C++ map from pointers or strings iterates: where it matters it is a parameter (the
  slot of a new group, the order of the executor list); random numbers and clocks are parameters too.
- Even numbers of executors in the majority theorem: two halves can both be quorums, and the order of
  iteration decides; `Verdicts.MajorityPrevails` asks for a strict majority and so holds for them too.
- Scheduler: a first start that fails, status -2, `doUpdateScweight` (it rebuilds the state from the database),
  query commands and the subscription of voters.
- SchedulerRuns.Run: a run ends before a manual up that `DoManualUp` shows to break agreement or capacity.
- JudgeProtocol.JudgeTask.ProcessJudgeData: the grouping inside the judge, which has the shape of the proxy's, is a
  parameter; only when a verdict may and must be given is modelled. So are the path of the cloud controller
  and the check that the lists from the scheduler have been received.
- JudgeRuns.Run: the order in which one session's replies are written (that of the keys as strings).
- RespReader.Drive: doubles are taken as they are printed; a nil, boolean or double inside a push, against
  which the constructors assert, is a fault of its own; lengths near 2^63 are not taken to overflow, buffers
  are shorter than 2^31 bytes, and when unread bytes are discarded is not tied to a size.
- RespFormat.FormatSdsCommandArgv: arguments shorter than 2^32 bytes, because their length is printed modulo
  2^32 and the function then asserts.
- HashTable.Dict.Expand: tables of at most 2^30 buckets. The next power of two is negative in the iterator's
  signed 32-bit comparison, and bucket indices are signed 32-bit integers.
- HashTable.Dict.KeyIndex: fewer than 2^30 entries, so that the table need not grow beyond that.
- HashTable.Dict.Add: likewise; `_dictClear` and the creation and release of tables and iterators are not
  modelled.
- HashTable.Dict.Replace: likewise.
- HashTable.Run: at most 2^30 operations, for the same reason.
- HttpBody.Htparser.Run: starts at the last line feed of the header lines. Request lines, header lines and
  trailers are not part of this model: it stops where the text of a header would begin. Hooks never refuse.
- JsonLaws.OneName: assumes of the number test that no number has a colon in it, and the laws of single lines
  that the names on a path are not numbers, for which the source leaves the path out.
- SdsWords.SplitWords: a backslash and an x in double quotes without two hexadecimal digits behind, and a text
  in single quotes that ends in a backslash, which takes the closing quote for its own, are not among the words.
- `libs/hiredis/async.c`, TLS, `libs/redis++`, `libs/yamlcpp`, and the glob matcher of evhtp.
