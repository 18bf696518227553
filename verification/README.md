# sentri, modelled and verified in Dafny

sentri watches a house: modules (video, noise, temperature, mail, ...) run as processes, send events
to a core, and the core turns events into actions of other modules according to rules. This project
models the parts of it that carry state over long runs or must be inverted exactly, and proves what
they keep. `dafny verify dfyconfig.toml` checks all of it.

Where the code updates things in place, the model does: a class or a method with the code's loop, and
its contract ties the new state to a function; lemmas are then about that function. Clock readings,
answers of the operating system, free disk space and scheduling are parameters, so every statement is
about all of them. A `char` stands for one byte.

| files | part of sentri |
|---|---|
| `Text.dfy` | strings, C strings in message buffers, `std::map` as a sorted sequence |
| `JsonStream`, `JsonInput`, `JsonGrammar`, `JsonParser` | jsonxx: the input stream with its state bits, what the parser computes, the parser loops |
| `JsonPrinter`, `JsonLexing`, `JsonRoundTrip`, `JsonSafety`, `JsonInjective`, `JsonLoss` | jsonxx: the printer, the scanners on printed text, printing then parsing in both directions, what empty keys do |
| `JsonDocuments`, `JsonReading`, `JsonReformat` | jsonxx: JSON texts in any layout and spelling, reading them, `reformat` |
| `RuleEngine`, `AckProtocol`, `AckOutcomes`, `AckAnswers`, `FireLimit` | the core's event queue with acknowledgements, retries and aborts; its steps interleaved by any number of threads; outcomes, times, who is told what, the fire limit |
| `MessageVars`, `ReplaceVars`, `FloodLimit` | the module library: event variables end to end, templates, the flood limiter |
| `Watchdog`, `WatchdogRuns`, `WatchdogHistory` | the life cycle of module processes: one sweep, whole runs, and what the history of a module says about it |
| `VideoOutput`, `VideoClips`, `VideoEdges`, `Attachments`, `RuleRoutes` | the video module: cutting the frame stream, attachment counts composed with the rule engine, grouping rules into routes |
| `WavWriter` | the WAV writer with a file that may run full, and a decoder |
| `LockOrder` | the three mutexes of the core and what they guard |

## How the main results fit together

- **JSON.** `JsonParser` proves each parser loop equal to a function of the stream state, and that all
  loops and recursions end on every input. `JsonRoundTrip.ValueReads` shows that a printed value is
  read back wherever it stands; `JsonSafety` shows that on printed text the parser never stores an
  empty key. Together: `Object::json()` parses back to the same tree **if and only if** no key in the
  tree is empty, because `json::tag` prints an empty key as no key at all. The printed text itself
  still tells all trees apart (`JsonInjective.TextInjective`), so that `reformat` is idempotent on a
  text exactly when its tree has no empty key. Facts a reader of the code may not expect: an empty key
  among the object's own keys makes parsing fail (`JsonLoss.OwnEmptyKeyRejected`), but one in a
  member that is an object can drop that member and all after it without an error
  (`JsonLoss.MemberLost` says when, `JsonLoss.SilentLoss` is the smallest case); and a text that
  ends in `nul` is read as `null`, by the one way in which `match` succeeds on a pattern that is not
  there (`JsonLexing.MatchIff`, `JsonLexing.NullIff`).
- **Any JSON text.** `JsonDocuments` writes the texts of RFC 8259, sections 2 to 7, with every choice a
  writer has: blanks, escapes, the form of numbers, the order of members, repeated keys; and with
  what jsonxx allows beyond it, comments, single quotes and a comma after the last item. Each of them
  is read as what it stands for (`JsonReading.ObjectTextReads`, `JsonReading.ArrayTextReads`,
  `JsonReformat.ReformatReads`), and every tree has such a text (`JsonReading.CompactMeans`), so that
  an empty key is lost by the printer only. A `\u` code above 255 keeps its low byte, where section 7
  of RFC 8259 asks for the character.
- **Rule engine.** What each operation does is said from the message log and the queue alone
  (`RuleEngine.EnqueueDoes`, `RuleEngine.SweepDoes`, `AckOutcomes.AckTaken`), and each is a run of the
  steps of `AckProtocol`. One invariant (`AckProtocol.Inv`) holds after every step of every interleaving of
  checks, commits, acknowledgements, replies and sweeps. From it follow: one outcome per event, ignored
  late acknowledgements, exactly four actions before an abort, and the earliest and latest time of the
  abort. Each event's module is sent exactly one reply under the event's id, with one exception: the
  abort for a refused event carries id 0, which is also the id of the first accepted event, so that
  the module of event 0 is told just once about it if and only if none of its events is refused
  (`AckAnswers.OneAnswerIff`, `AckAnswers.TwoAnswers`). The fire limit of a rule holds in all runs in
  which at most n of its events are between check and commit if and only if n is at most one, or the
  limit is no time at all or the rule disabled (`FireLimit.FireLimitIff`). One thread, the message
  loop, enqueues the events of every rule that is not about system messages; those that are can come
  from the watchdog too, and miss their limit (`FireLimit.RaceBreaksLimit`).
- **Attachments.** Each reply takes one off a name's count. Because the rule engine answers each event
  once (`Attachments.Conservation`), a file is deleted only when every event its handler handed out has
  been answered and nothing that carries its name is outstanding (`Attachments.DeletedOnlyWhenDone`).
- **Watchdog.** `WatchdogHistory` derives all that is stored about a module from what has happened to
  it (`WatchdogHistory.StoredIsTold`), and nothing that is found dead or silent is left down
  (`WatchdogHistory.RevivedIff`). Mortality is a potential: each restart adds a step, so restarts are
  bounded by the time a module exists.
- **Clips.** `VideoEdges.Exact` says where a clip begins and ends in terms of the stream, and the
  stream alone determines the clips (`VideoEdges.StreamDetermines`).
- **Module library.** The limiter's window is a fifteenth of a second and admits fifteen messages, so
  that 225 messages pass in less than a second although the constant is called
  `FLOOD_MSG_PER_SECOND` (`FloodLimit.BurstsAdmitted`); the true bound is `FloodLimit.FloodBound`, and
  it is reached (`FloodLimit.BoundReached`).
  `replaceVars` fills in templates correctly exactly when no key is a proper prefix of another, and
  joined variables survive the message buffer exactly when they fit it.

## Model

| member | source | states |
|---|---|---|
| Text.PutSorted | src/lib_module/jsonxx.cpp:311 | storing under a key keeps the keys of a map sorted and distinct |
| JsonParser.ParseComment | src/lib_module/jsonxx.cpp:227-260 | the comment scanner computes the grammar's result and stream state, on failed and ended streams too |
| JsonParser.Match | src/lib_module/jsonxx.cpp:56-76 | the pattern loop with put-back computes the grammar's match, and ends on every stream |
| JsonParser.ParseString | src/lib_module/jsonxx.cpp:78-144 | the string loop computes the grammar's string, with both quotes and every escape |
| JsonParser.ParseNumber | src/lib_module/jsonxx.cpp:185-195 | a number is taken or the stream is rolled back |
| JsonParser.ParseArray | src/lib_module/jsonxx.cpp:385-408 | the item loop computes the grammar's array; each turn consumes a comma |
| JsonParser.ParseObject | src/lib_module/jsonxx.cpp:273-320 | the member loop computes the grammar's object, with its three ways out; each turn consumes a comma |
| JsonParser.ParseValue | src/lib_module/jsonxx.cpp:339-377 | the alternatives in order, falling through after a failed array; recursion only behind a consumed bracket |
| JsonLexing.MatchFailsInPlace | src/lib_module/jsonxx.cpp:56-76 | a failed match with no comment inside the pattern leaves the stream right after the leading blanks and comments |
| JsonLexing.MatchHit | src/lib_module/jsonxx.cpp:56-76 | a pattern that is there is consumed, and nothing after it |
| JsonLexing.MatchExact | src/lib_module/jsonxx.cpp:56-76 | on text without comments: a pattern that is there is taken, a text that ends inside the pattern fails the stream, and otherwise nothing is taken |
| JsonLexing.MatchIff | src/lib_module/jsonxx.cpp:60-75 | on text without comments a match succeeds if and only if the pattern is there, or the text ends just before its last character and that repeats the one before |
| JsonLexing.NullIff | src/lib_module/jsonxx.cpp:209-217 | on such text parse_null succeeds if and only if null is next, or a comma, or the text ends in "nul" |
| JsonLexing.HexInverse | src/lib_module/jsonxx.cpp:117-127 | reading the four hex digits printed for a control character gives its code |
| JsonLexing.QuotedReads | src/lib_module/jsonxx.cpp:78-144 | for every string and any following text, parse_string on the quoted escaped string returns it and stops after the closing quote |
| JsonLexing.IntTextReads | src/lib_module/jsonxx.cpp:185-195 | a printed integer followed by a comma or a blank is read back |
| JsonPrinter.EscapeClean | src/lib_module/jsonxx.cpp:517-549 | escaped text has no control characters, and a backslash before every quote and every slash |
| JsonPrinter.EscapeString | src/lib_module/jsonxx.cpp:517-549 | the loop over the table is the character-wise escape |
| JsonPrinter.PrintTag | src/lib_module/jsonxx.cpp:563-607 | the recursive printer with its two loops computes the text of json::tag |
| JsonRoundTrip.TagShape | src/lib_module/jsonxx.cpp:554-607 | patching the last comma yields exactly the indented text with separators between the lines |
| JsonRoundTrip.ValueReads | src/lib_module/jsonxx.cpp:339-377 | parse_value on a printed value returns it and stops right after its text, whatever surrounds it |
| JsonRoundTrip.MembersRead | src/lib_module/jsonxx.cpp:283-312 | the object loop reads all remaining printed members in order |
| JsonRoundTrip.ItemsRead | src/lib_module/jsonxx.cpp:395-402 | the array loop reads all remaining printed items in order |
| JsonSafety.ValueTokens | src/lib_module/jsonxx.cpp:563-607 | printed text is a run of tokens in which no empty string comes before a colon |
| JsonSafety.MembersSafe | src/lib_module/jsonxx.cpp:283-319 | on such a run, wherever parsing fails and goes on, no empty key and no number the printer would round is ever stored |
| JsonSafety.ObjectRoundTrip | src/lib_module/jsonxx.cpp:835-846 | Object::json() parses back to the same tree if and only if no key in the tree is empty |
| JsonSafety.ArrayRoundTrip | src/lib_module/jsonxx.cpp:862-873 | the same for Array::json() |
| JsonInjective.TextInjective | src/lib_module/jsonxx.cpp:554-607 | trees with the same printed text are the same tree, empty keys included |
| JsonLoss.OwnEmptyKeyRejected | src/lib_module/jsonxx.cpp:567-570 | an object with an empty key of its own, whatever else it holds, prints to a text that does not parse |
| JsonLoss.MemberLost | src/lib_module/jsonxx.cpp:283-319 | when the first unclean member is an object that begins with an empty key, the members before it come back and no error is reported if a single string stands under that key; in every other case the text does not parse |
| JsonLoss.SilentLoss | src/lib_module/jsonxx.cpp:306-319 | the object whose member a holds one string under an empty key parses without an error to the empty object |
| JsonReading.NumeralReads | src/lib_module/jsonxx.cpp:185-195 | a numeral is taken before every character that cannot continue it, and at the end of the text |
| JsonReading.SpellingReads | src/lib_module/jsonxx.cpp:78-144 | a string in single or double quotes, with any choice of escapes, is read as what it stands for |
| JsonReading.CutStringFails | src/lib_module/jsonxx.cpp:78-144 | a string that the end of the text cuts off is not read |
| JsonReading.DocReads | src/lib_module/jsonxx.cpp:339-377 | parse_value reads every value of a JSON text, in any layout and spelling, as what it stands for, and stops right after it |
| JsonReading.ItemsDocRead | src/lib_module/jsonxx.cpp:385-408 | the array loop reads all items, with any gaps and with or without a comma after the last |
| JsonReading.MembersDocRead | src/lib_module/jsonxx.cpp:283-319 | the object loop reads all members in any order; of equal keys the last one counts |
| JsonReading.ObjectTextReads | src/lib_module/jsonxx.cpp:273-320 | every JSON text of an object parses to what it stands for |
| JsonReading.ArrayTextReads | src/lib_module/jsonxx.cpp:385-408 | every JSON text of an array parses to what it stands for |
| JsonReading.CompactMeans | src/lib_module/jsonxx.cpp:273-320 | every tree, empty keys included, is what some text without gaps stands for |
| JsonReformat.ReformatReads | src/lib_module/jsonxx.cpp:919-942 | in every JSON text of an object or array, after any blanks, reformat finds the tree the text stands for |
| JsonReformat.ValueOrdered | src/lib_module/jsonxx.cpp:339-377 | on every text the parsed objects have sorted, distinct keys |
| JsonReformat.Reformat | src/lib_module/jsonxx.cpp:919-942 | the trimming loop, the choice by the first character and the empty result on bad input |
| JsonReformat.ReformatKeepsTree | src/lib_module/jsonxx.cpp:919-942 | reformat keeps the tree it parsed if and only if that tree has no empty key |
| JsonReformat.ReformatIdempotent | src/lib_module/jsonxx.cpp:919-942 | reformatting twice is reformatting once if and only if the text has no tree or its tree has no empty key |
| JsonReformat.ReformatSettles | src/lib_module/jsonxx.cpp:919-942 | from the second time on reformatting changes nothing, on every text |
| RuleEngine.Core.constructor | src/core/ruleengine.cpp:15-21 | an empty queue, stamps at the epoch, first id 0 |
| RuleEngine.LroundNearest | src/core/ruleengine.cpp:45-48 | the fire limit is rounded to the nearest millisecond, halves away from zero |
| RuleEngine.EnqueueDoes | src/core/ruleengine.cpp:31-89 | an event of an enabled rule whose last action, if it has a limit, is that long ago gets the next id, an entry at the end of the queue and one action; any other event of a known rule gets one abort and changes nothing else |
| RuleEngine.SweepDoes | src/core/ruleengine.cpp:158-200 | a sweep keeps, retries or aborts each entry once, keeps their order, and sends their messages in this order |
| RuleEngine.SystemMessageSends | src/core/ruleengine.cpp:204-222 | each rule about system messages is sent exactly one message: the action if it is due, otherwise the abort |
| RuleEngine.Core.EnqueueEvent | src/core/ruleengine.cpp:31-89 | unknown rule: nothing; disabled or too early: an abort under the id the entry came in with; otherwise a new id, one action and a queue entry |
| RuleEngine.Core.TakeActionFor | src/core/ruleengine.cpp:130-148 | stamps the rule, counts and times the try, sends the action |
| RuleEngine.Core.AcceptAck | src/core/ruleengine.cpp:91-128 | the first entry with the id leaves the queue and is answered; otherwise nothing changes |
| RuleEngine.Core.SweepQueue | src/core/ruleengine.cpp:154-202 | one sweep, erasing while iterating: retry, abort or leave each entry |
| RuleEngine.Core.SendSystemMessage | src/core/ruleengine.cpp:204-222 | an event for each rule about system messages, with the cut text |
| RuleEngine.SystemMessageScope | src/core/ruleengine.cpp:204-222 | a system message sends and stamps nothing for any other rule |
| AckProtocol.EnqueueIsRun | src/core/ruleengine.cpp:31-89 | enqueueEvent is the check and, exactly if the rule is due, the commit |
| AckProtocol.AckIsRun | src/core/ruleengine.cpp:91-128 | acceptAck takes the entry and, if there was one, replies |
| AckProtocol.RunStamped | src/core/ruleengine.cpp:135-141 | in every interleaving the time stamps are those of the rules' last actions |
| AckProtocol.NextInv | src/core/ruleengine.cpp:31-202 | every step of any thread keeps the invariant |
| AckProtocol.RunInv | src/core/ruleengine.cpp:31-202 | so does every interleaving |
| AckProtocol.SweepInv | src/core/ruleengine.cpp:158-200 | a whole sweep keeps it, with a clock read before the lock |
| AckOutcomes.OneOutcome | src/core/ruleengine.cpp:91-200 | an accepted event is queued, or about to be answered, or has been answered by exactly one ack or abort of its own |
| AckAnswers.EventsOwned | src/core/ruleengine.cpp:54-200 | every action, ack and abort about an event carries its rule and variables and goes to that rule's modules; an abort of a refused event carries the id the event came in with |
| AckAnswers.AnswersCounted | src/core/ruleengine.cpp:71-81 | under the id of an accepted event a module is sent the event's own reply, once settled and if it is the owner, and under id 0 the aborts of all its refused events |
| AckAnswers.OneAnswerIff | src/core/sentri.cpp:61-63 | an event's module is sent no reply under its id before, and exactly one after, the event left the core, if and only if the id is not 0 or no event of the module is refused in the run |
| AckAnswers.TwoAnswers | src/core/ruleengine.cpp:71-81 | every enabled rule with a fire limit has a run in which event 0 gets an abort while it is queued and an ack later |
| AckOutcomes.AckTaken | src/core/ruleengine.cpp:91-118 | an acknowledgement of a queued event takes exactly its entry, wherever it stands, and its module is sent one ack with its variables |
| AckOutcomes.LateAckIgnored | src/core/ruleengine.cpp:91-128 | late, repeated and made-up acknowledgements change nothing |
| AckOutcomes.QueueShape | src/core/ruleengine.cpp:61-70 | the queue is increasing in id, and each entry has had between one and four actions |
| AckOutcomes.AbortNotEarly | src/core/ruleengine.cpp:154-198 | an abort follows exactly four actions, at least four timeouts after the first |
| AckOutcomes.AbortNotLate | src/core/ruleengine.cpp:154-198 | with sweeps at most a gap apart it comes less than four timeouts and gaps after the first |
| AckOutcomes.QueueDrains | src/core/ruleengine.h:24-26 | under the same condition no event stays queued longer |
| FireLimit.FireLimitHolds | src/core/ruleengine.cpp:44-70 | for a rule enqueued by one thread, first actions are a fire limit apart, whatever retries come between check and commit |
| FireLimit.FireLimitIff | src/core/ruleengine.cpp:44-70 | for every rule table and rule, the limit holds in all runs with at most n of the rule's events between check and commit if and only if n is at most one, the limit rounds to no time, or the rule is disabled |
| FireLimit.RaceBreaksLimit | src/core/ruleengine.cpp:204-222 | a rule about system messages, which two threads enqueue, can send two first actions at the same instant |
| FireLimit.SweepStamps | src/core/ruleengine.cpp:135-141 | rule stamps never decrease in a sweep, and a sweep sends no first action |
| Text.BufferCarries | src/lib_module/messagehandler.cpp:236-243 | a message buffer carries a text up to its first NUL and up to the buffer's size less one |
| MessageVars.ParseVars | src/lib_module/messagehandler.cpp:167-188 | split, scan for the first equal sign, insert: the first of two equal keys wins |
| MessageVars.ParseConcat | src/lib_module/messagehandler.cpp:167-188 | parsing a, comma, b is parsing b overridden by parsing a |
| MessageVars.JoinParses | src/lib_module/messagehandler.cpp:167-188 | joined pairs with distinct keys parse to the original map |
| MessageVars.CutLoses | src/lib_module/messagehandler.cpp:240 | a joined text that is cut short loses at least one key or value |
| MessageVars.DeliveredIff | src/core/messenger.cpp:54-64 | sent as an event and forwarded as an action, joined pairs arrive as the original map if and only if they fit the buffer |
| ReplaceVars.ReplaceVars | src/lib_module/module.cpp:129-137 | the loop over the variables, one replacement of all matches each |
| ReplaceVars.ReplaceLeftmost | src/lib_module/module.cpp:129-137 | in any text the leftmost match is replaced, and then what follows it, not what was put in |
| ReplaceVars.ReplaceNothing | src/lib_module/module.cpp:129-137 | a text without a match stays as it is |
| ReplaceVars.ReplaceIsRender | src/lib_module/module.cpp:129-137 | without proper prefixes, key-by-key replacement is filling in all references at once |
| ReplaceVars.OrderFree | src/lib_module/module.cpp:129-137 | then the order of the variables does not matter |
| ReplaceVars.FaithfulIff | src/lib_module/module.cpp:129-137 | for the sorted keys of a map, it does so for all values and templates if and only if no key is a proper prefix of another |
| ReplaceVars.PrefixKeysFail | src/lib_module/module.cpp:129-137 | with a key that is a proper prefix of another, a one-reference template goes wrong |
| FloodLimit.Module.IsFlooding | src/lib_module/module.cpp:139-158 | the window reset, the count and the wait |
| FloodLimit.Module.SendHeartbeat | src/lib_module/module.cpp:83-96 | a heartbeat always goes out, at once or after the wait |
| FloodLimit.HeartbeatAdmitted | src/lib_module/module.cpp:83-96 | after waiting the returned milliseconds the second check always admits |
| FloodLimit.WaitShortest | src/lib_module/module.cpp:139-158 | a heartbeat that came back a millisecond before the returned time could be refused again |
| FloodLimit.FloodBound | src/lib_module/module.cpp:139-158 | in any span one thread sends at most 15 messages for each whole window in it and 30 more |
| FloodLimit.BurstsAdmitted | src/lib_module/module.cpp:139-158 | k windows of 15 messages pass within k - 1 windows, 225 in less than a second |
| FloodLimit.BoundReached | src/lib_module/module.cpp:139-158 | the bound is met exactly by runs of any number of windows below the window's length in nanoseconds |
| Watchdog.Guard.constructor | src/core/watchdog.cpp:37-89 | every module starts stopped, unburied, with mortality 0 and a queue |
| Watchdog.Guard.Start | src/core/watchdog.cpp:105-153 | every module whose fork works is running |
| Watchdog.Guard.Sweep | src/core/watchdog.cpp:232-274 | each module is checked once, and exactly the newly buried ones lose their queues |
| Watchdog.Guard.ResurrectModule | src/core/watchdog.cpp:155-217 | kill, then restart below the critical rate or bury |
| Watchdog.Guard.Heartbeat | src/core/watchdog.cpp:276-288 | a heartbeat resets the time and the missed counter of its module only |
| Watchdog.Guard.SetHeartbeatInterval | src/core/watchdog.cpp:290-298 | sets the interval of its module only |
| WatchdogHistory.StoredIsTold | src/core/watchdog.cpp:105-298 | in every run, running, buried, interval, last heartbeat, missed heartbeats, last check and mortality are what the history of forks, kills, heartbeats, settings, silent sweeps, deaths and stability checks says |
| WatchdogHistory.StartStored | src/core/watchdog.cpp:105-153 | after the start a module whose fork worked is running since then |
| WatchdogHistory.RevivedIff | src/core/watchdog.cpp:236-270 | a module that is up and not buried is restarted or buried in a sweep if and only if it is found dead, or silent for the fifth time since its last sign of life |
| WatchdogHistory.RevivedUp | src/core/watchdog.cpp:204-217 | if kill and fork work, a module below the critical mortality is up again, with ten more |
| WatchdogRuns.RestartBound | src/core/watchdog.cpp:204-264 | restarts times the step are at most the peak mortality plus one decrease per stability interval of the module's life; mortality never exceeds the peak |
| WatchdogRuns.SilenceIsLong | src/core/watchdog.cpp:239-252 | a living module is restarted only after five sweeps without heartbeat, so after more than its interval and four check intervals of silence |
| WatchdogRuns.BurialIsCritical | src/core/watchdog.cpp:190-217 | burial happens exactly at a death with critical mortality, spawns nothing, and at most one decrease falls into that sweep |
| WatchdogRuns.BuriedForever | src/core/watchdog.cpp:236-270 | no later step spawns, restarts or changes the mortality of a buried module |
| WatchdogRuns.NotRunningForever | src/core/watchdog.cpp:236-270 | a module whose fork failed is never restarted, although it is not buried |
| VideoOutput.OutputHandler.Out | src/modules/module_video/outputhandler.cpp:94-157 | one frame: the new buffers, flags and clips, the counts, and the events handed out |
| VideoOutput.OutputHandler.ForkVideoWriter | src/modules/module_video/outputhandler.cpp:248-286 | counts the name once per attaching rule and needs a first motion frame |
| VideoOutput.OutputHandler.HandlePendingAttachments | src/modules/module_video/outputhandler.cpp:44-92 | each carried name loses one; a count that reaches zero deletes the file and the entry |
| VideoClips.FeedKeeps | src/modules/module_video/outputhandler.cpp:94-142 | one frame keeps the three phases and the clips so far |
| VideoClips.ClipsOfAnyStream | src/modules/module_video/outputhandler.cpp:94-142 | for every stream the clips are slices of at most 10 still, 1 to size motion and at most 10 still frames, in order, disjoint, written exactly when full or long enough, and every motion frame is in a clip or still held |
| VideoEdges.ClipsExact | src/modules/module_video/outputhandler.cpp:94-142 | for every stream, each clip's motion begins with the first motion frame after the last clip and ends with it or at the capacity; before it stand the last ten still frames or all there are, after it all until the next motion or ten |
| VideoEdges.StreamDetermines | src/modules/module_video/outputhandler.cpp:94-142 | by these rules the stream alone determines the clips |
| VideoOutput.EventsSplit | src/modules/module_video/outputhandler.cpp:199-203 | each rule that attaches the kind gets one event with its own id and the name, in order |
| VideoOutput.PlainSplit | src/modules/module_video/outputhandler.cpp:150-156 | each rule without attachments gets one event with its own id for each frame |
| VideoClips.ReadsEmptyIff | src/modules/module_video/outputhandler.cpp:248-251 | the first motion frame is read from an empty buffer for some stream if and only if the capacity is zero |
| Attachments.ReleaseCounts | src/modules/module_video/outputhandler.cpp:44-92 | among any other names, the reply that takes a positive count to zero deletes the file, once |
| Attachments.DeletedAtLastReply | src/modules/module_video/outputhandler.cpp:210-264 | a name counted for k rules is deleted exactly when k replies have carried it |
| Attachments.ForeignNeverDeleted | src/modules/module_video/engine.cpp:170-178 | a name the handler never counted goes negative and is never deleted |
| Attachments.Conservation | src/core/ruleengine.cpp:31-202 | in every run each event with a name is outstanding or answered, counted once |
| Attachments.SubmittedBounded | src/modules/module_video/outputhandler.cpp:199-222 | the events with the name that reach the core are no more than the rules the handler counted, when each is one the handler handed out |
| Attachments.DeletedOnlyWhenDone | src/core/messenger.cpp:66-88 | when a file has been deleted, all events its handler handed out have been answered and none is outstanding in the core |
| Attachments.EventsCarry | src/modules/module_video/outputhandler.cpp:199-203 | there is one event for each attaching rule, and each carries the name once |
| RuleRoutes.VideoEngine.TakeGroup | src/modules/module_video/engine.cpp:333-346 | the inner loop, erasing while iterating with a wrapping counter, takes exactly the rules with equal key and configuration |
| RuleRoutes.VideoEngine.ApplyRules | src/modules/module_video/engine.cpp:316-351 | enabled iff some rule is; every enabled rule ends in a route |
| RuleRoutes.RoutesPartition | src/modules/module_video/engine.cpp:316-351 | each enabled rule is in exactly one route with its own action, and two share a route exactly when key and configuration are equal |
| WavWriter.Writer.Open | src/modules/module_noise_detection/pa_write_wav.cpp:90-135 | the header with both sizes zero, or an error when the file cannot be opened or is full |
| WavWriter.Writer.WriteShorts | src/modules/module_noise_detection/pa_write_wav.cpp:141-168 | appends the samples in little endian, or what fits, and counts only complete writes |
| WavWriter.Writer.Close | src/modules/module_noise_detection/pa_write_wav.cpp:174-206 | overwrites exactly the two size fields |
| WavWriter.WriteLongLE | src/modules/module_noise_detection/pa_write_wav.cpp:53-60 | four little-endian bytes at the address, and the address after them |
| WavWriter.LE32Inverse | src/modules/module_noise_detection/pa_write_wav.cpp:53-60 | reading four little-endian bytes gives the 32-bit value back |
| WavWriter.SamplesInverse | src/modules/module_noise_detection/pa_write_wav.cpp:156-163 | decoding the data bytes gives the signed samples in order |
| WavWriter.DecodesWritten | src/modules/module_noise_detection/pa_write_wav.cpp:104-128 | a header with the right sizes and the data decode to the format and the samples |
| WavWriter.RecordAudio | src/modules/module_noise_detection/noise_detection_module.cpp:55-80 | open, write every block, close: when all succeed the file decodes to exactly the samples written, and when that is |
| LockOrder.TaskOrdered | src/core/watchdog.cpp:190-202 | every task takes modules_mtx_, ack_mtx_ and queue_mtx_ in this order, burial with its system message included, and uses what they guard only while it holds them |
| LockOrder.NoRace | src/core/messenger.cpp:90-155 | no two threads ever use the modules' data, the event queue or the message queues at the same time |
| LockOrder.NoSelfRelock | src/core/ruleengine.cpp:61-70 | no thread waits for a mutex it holds |
| LockOrder.NoDeadlock | src/core/messenger.cpp:90-155 | in every reachable state with a thread inside a task, some thread inside a task can go on |

## Left out

- JsonPrinter.PrintTag: only for trees of strings, booleans, nulls and integers below 10^19 in magnitude; other numbers go through the C++ library's rounding printer.
- JsonReformat.Reformat: only when the parsed tree is one the printer model covers, for the same reason; a fraction or exponent is parsed but kept as its text.
- JsonParser.ExtractNumber: keeps integers exact and does not model the overflow and rounding of long double.
- JsonParser.Match: the stream is a string stream; on a file stream a mismatched put-back succeeds, so only texts with a comment inside a word differ.
- AckOutcomes.AbortNotLate: sweeps are taken as instantaneous; how long the real sweep holds the lock is not modelled. The gap is also the longest time before the first sweep. Its second precondition follows from the first (`AckOutcomes.PromptIsRun`).
- Attachments.DeletedOnlyWhenDone: a name is counted once by one handler; two routes that process the same frame can build the same image name.
- VideoOutput.OutputHandler.constructor: asks for a positive capacity; `VideoClips.ReadsEmptyIff` says what happens without. The flag for image attachments starts false here, while the code leaves it unset when no rule attaches images.
- Messenger: the map of message queues and their capacity; the models record what is handed to it, and lost messages are allowed for where replies are counted.
- The time stamp of an abort is a history value, taken from the readings the sweep's step gets.
- Forked children, OpenCV, PortAudio, ffmpeg and the files they write: a video or image is written at the fork, and a kill or a fork has a given result.
- JsonLoss.MemberLost: which empty keys deeper in the tree, below two objects or in an array, are lost with or without an error; that the tree never comes back is `JsonSafety.ObjectRoundTrip`.
- JsonLexing.MatchIff: only text with no comment from the visible character on; a comment inside a word is skipped, as `JsonParser.Match` says.
- 64-bit ids, the 16-bit try counter and 32-bit attachment counts do not wrap within the bounds proved or in practice.
- The operator<< printer and XML output of jsonxx, unquoted keys and strict parsing, which are compiled out.
- ConfigLoaderJ: that a rule's id is its position in the rule list, and that ids are distinct, is assumed.
- Scanning the module directory, signal handling, killAll at shutdown, logging, and the mail, SMS, trigger, streaming, temperature and Firebase modules.
- LockOrder.NoRace: enqueueEvent reads rule_timestamps_ before it takes ack_mtx_; that read is guarded by nothing, and `FireLimit.FireLimitIff` says what follows from it.
- JsonReading.DocReads: says how JSON text is read, not which other texts are refused; the parser accepts more, such as a missing value before a comma.
