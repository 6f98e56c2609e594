# pi_net: a verified model of its message, stream and cache logic

This project models, in Dafny, the parts of pi_net that carry the most state and the most
cases, and proves what they keep over all inputs and all runs:

- **MQTT subscription matching** (`TopicPaths`, `PatternRegistry`, `PathTrees`). Topic
  filters, the two matchers, and the trie of wildcard patterns as a linked structure that is
  changed in place. The trie is proved equal to a flat table, and the table to a plain
  relation of (pattern, session) pairs.
- **The MQTT broker** (`BrokerModel`, `Broker`, `BrokerRuns`, `BrokerDelivery`, `BrokerRetained`,
  `BrokerPatterns`, `BrokerRefinement`). `Broker` is the class with its four tables; `BrokerModel` says what each
  operation does to them; the others prove, over every run of subscribe, publish and
  unsubscribe, that no client receives what it did not ask for, that no client misses what it
  asked for and has not taken back, exactly which retained message a new subscriber is handed,
  exactly whom a new public topic reaches through patterns, told from the operations alone, and exactly when, without patterns, the broker is a map from topics to client ids.
- **The batch loader** (`BatchGrammar`, `BatchGrammarSplits`, `BatchLoader`, `BatchLoaderProgress`,
  `BatchLoaderStuck`, `BatchResponse`, `BatchFrames`). The three mutually recursive decoding procedures with
  their path stack, against splitting the request at its brackets and colons; the
  loader tasks, their atomic countdown and the response stage as a state machine in which
  every interleaving is a run; and the framing of the body.
- **Multipart bodies** (`Multipart`, `MultipartLaws`, `MultipartChunks`, `MultipartRoundTrip`). The scanner with
  its carry-over buffer, and exactly when the way a body is cut into chunks does not matter.
- **WebSocket fragmentation** (`WebSocket`, `WebSocketLaws`, `Utf8Encoding`), sections 5.2 and 5.4 of
  RFC 6455, with the check of text against RFC 3629.
- **The handler chain** (`HandlerChain`): six mutually recursive continuations, the fold
  they amount to, and the law on neighbouring events that alone determines the trace.
- **Bracketed parameter paths** (`Params`, `ParamsEffects`), **the static cache** (`ResourceCache`,
  `CacheLaws`) and **MQTT session ownership** (`SessionOwnership`, `SessionHistory`).

Code that changes things step by step is modelled by classes and loops, each proved against a
function on values; what runs of those functions keep is proved as lemmas. Clocks, files,
sockets and the header parser appear as parameters. `SortedSearch` is the binary search that
the sorted tables rest on; results about sorted tables use what a found or missing index
means, and not how the search halves its range.

Ten things that the documentation or the names promise do not hold of the code. Each is
stated here with the exact condition under which it does:

- `is_match` accepts more than section 4.7 of MQTT 3.1.1 when a topic is one level shorter
  than a `#` filter, since it then compares one level only (`TopicPaths.IsMatchVersusStandard`,
  `TopicPaths.IsMatchAcceptsStrangers`).
- Unsubscribing does not always end a subscription: a client that reconnects gets a new session
  object, and while the old one is a topic's lone subscriber the new one cannot take it off
  (`BrokerRefinement.ReconnectedClientStays`; exactly when, `BrokerRefinement.FollowsIff`).
- A client that reconnects and subscribes again is not answered through its new session object
  while the old one is cached (`BrokerRefinement.ReconnectedClientMisses`; exactly when,
  `BrokerRefinement.NewcomerAnsweredIff`; with patterns, `BrokerDelivery.NoLostSession`).
- A retained message is lost with the topic's cache, so even a client that never subscribed can
  erase it (`BrokerRetained.StrangerErasesRetained`; exactly when,
  `BrokerRetained.SubscriberGetsRetained` and `BrokerRetained.UnsubscribeDropsIff`).
- Unsubscribing from a pattern also ends direct subscriptions to the topics it accepts
  (`BrokerDelivery.TouchingLoses`; what stays, `BrokerDelivery.NoLostDelivery`).
- A batch response can hang when a file's size changed (`BatchLoaderStuck.ChangedFileHangs`;
  exactly when, `BatchLoaderStuck.StuckAnsweredIff`).
- How a multipart body is cut matters if a boundary or an end marker follows the first end
  marker (`MultipartChunks.ChunkingIndependentIff`), and a boundary name made of dashes only
  does not survive a round trip (`MultipartRoundTrip.RoundTripIff`).
- A second CONNECT with another client id on a bound connection leaves that id taken for good
  (`SessionOwnership.OrphanFreeIff`, `SessionOwnership.OrphanForever`).
- The cache's counters stay too high after `remove_all_cache`, by exactly what it threw away
  (`ResourceCache.RunBounded`, `ResourceCache.CountersExactIff`, `ResourceCache.RemoveAllDrifts`).
- The cache's sweep of expired entries starts at the latest timeout and stops at the first that has not
  expired, so it drops nothing unless everything has expired (`CacheLaws.ExpireIsAllOrNothing`,
  `CacheLaws.ExpiredSurvives`).

The code and its comments also disagree in places, and the model follows the code:
`set_send_frame_limit_and_enable_strict_masking` does not write the masking flag, and the
cache's collector frees the entries with the latest timeout first.

## Model

| member | source | states |
|---|---|---|
| SortedSearch.BinarySearch | mqtt/src/broker.rs:254-264 | on any list a hit is equal at its index and a miss is a place in the list; on a sorted one a hit occurs exactly when the key is present, and a miss splits the list |
| SortedSearch.SearchSorted | mqtt/src/utils.rs:126-131 | the search of a strictly sorted list finds a key exactly if it is there, and otherwise the place that separates smaller from larger keys |
| SortedSearch.InsertKeepsSorted | mqtt/src/utils.rs:126-131 | inserting at the place the search gives keeps the list strictly sorted |
| SortedSearch.RemoveKeepsSorted | mqtt/src/utils.rs:171-176 | removing at the found place keeps the list strictly sorted, and the key is gone |
| SortedSearch.LessMeaning | mqtt/src/session.rs:159-163 | the order on client ids compares the first character that differs, or a proper prefix comes first |
| TopicPaths.CheckMatch | mqtt/src/broker.rs:568-614 | the loop of `is_match`, level by level with its special cases, computes the matcher the other results are about |
| TopicPaths.StrictMatchMeaning | mqtt/src/utils.rs:194-265 | the trie's way of matching: all levels fit and the lengths agree, or a final `#` covers one level or more |
| TopicPaths.MatchersAgreeOnLongTopics | mqtt/src/broker.rs:568-614 | on topics with at least as many levels as the filter, `is_match` accepts exactly the strict matches |
| TopicPaths.StrictImpliesIsMatch | mqtt/src/broker.rs:568-614 | whatever the trie matches, `is_match` accepts |
| TopicPaths.StrictVersusStandard | mqtt/src/utils.rs:194-265 | the trie differs from section 4.7 of MQTT 3.1.1 in exactly one case: `a/#` does not match the parent `a` |
| TopicPaths.IsMatchVersusStandard | mqtt/src/broker.rs:574-582 | `is_match` accepts the standard's matches, and beyond them exactly topics one level short of a `#` filter whose last level fits while an earlier one does not |
| TopicPaths.IsMatchAcceptsStrangers | mqtt/src/broker.rs:577-582 | the concrete pair: `a/b/#` accepts `x/b` |
| TopicPaths.ParseText | mqtt/src/broker.rs:383-385 | splitting the text of a path gives that path again |
| PatternRegistry.EnrollSorted | mqtt/src/utils.rs:126-131 | enrolling keeps a session list strictly sorted by client id and adds the session exactly if its client is not there yet |
| PatternRegistry.WithdrawSorted | mqtt/src/utils.rs:171-176 | withdrawing keeps the list sorted and takes out exactly the sessions of that client |
| PatternRegistry.CollectCounts | mqtt/src/utils.rs:194-270 | the walk over `#`, `+` and literal children reports a session once for every pattern below the start that matches and holds it |
| PatternRegistry.CollectInOrder | mqtt/src/utils.rs:194-270 | the sessions of two matching patterns are listed together each, and first those of the pattern that has `#` before `+`, or a wildcard before a name, at the first level where they differ |
| PatternRegistry.ReplayIsRelation | mqtt/src/utils.rs:88-190 | after any sequence of inserts and removes the table is the plain relation of (pattern, session) pairs, one session per client and pattern, each list strictly sorted |
| PatternRegistry.LookupIsFlatRelation | mqtt/src/utils.rs:75-270 | after any sequence of inserts and removes, a lookup returns exactly one copy of a session per registered pair whose pattern strictly matches |
| PatternRegistry.LookupMembers | mqtt/src/utils.rs:75-86 | a session is found if and only if some pattern that strictly matches the topic holds it |
| PatternRegistry.MatchersAgree | mqtt/src/broker.rs:568-614 | for topics with at least as many levels as the filter, `is_match` is true exactly when a session inserted under the filter is looked up |
| PathTrees.PathTree.Descend | mqtt/src/utils.rs:101-138 | going down one level, creating the child if needed, keeps the tree well formed and changes no registration |
| PathTrees.PathTree.Reach | mqtt/src/utils.rs:96-140 | the loop over a path ends at the node of that path and changes no registration |
| PathTrees.PathTree.EnrollAt | mqtt/src/utils.rs:104-132 | at a node, the session is put in its sorted place unless its client is there |
| PathTrees.PathTree.WithdrawAt | mqtt/src/utils.rs:167-178 | at a node, the session of that client is taken out |
| PathTrees.PathTree.Insert | mqtt/src/utils.rs:88-145 | a path without wildcards is refused and nothing changes; otherwise the linked tree then holds exactly the old registrations and this one, and `size` grows even for duplicates |
| PathTrees.PathTree.Remove | mqtt/src/utils.rs:147-190 | a path without wildcards is refused; otherwise exactly this registration goes, a missing path changes nothing, and `size` is never reduced |
| PathTrees.PathTree.LookupStep | mqtt/src/utils.rs:204-264 | one level of the walk over the linked nodes: what it appends and what is still to be walked make up the whole answer |
| PathTrees.PathTree.LookupFrom | mqtt/src/utils.rs:194-265 | the recursive lookup over linked nodes appends exactly what the table holds for the rest of the topic |
| PathTrees.PathTree.Find | mqtt/src/utils.rs:75-86 | the lookup of the linked tree is the lookup of its table; a topic with wildcards is refused |
| Broker.MqttBroker.RecordPublic | mqtt/src/broker.rs:254-264 | a public topic is put in its place in the sorted list and reported as new exactly if it was not there |
| Broker.MqttBroker.Subscribed | mqtt/src/broker.rs:249-380 | the whole call on the broker's tables does what the specification about which the run results are proved does |
| Broker.MqttBroker.ServeTopic | mqtt/src/broker.rs:266-379 | answering from a cached topic, or filling the cache from the patterns, leaves the cache the specification says and returns its members |
| Broker.MqttBroker.ServeCached | mqtt/src/broker.rs:274-319 | on a cached topic the retained message is replaced only by a new one, and patterns are merged in only when the topic becomes public |
| Broker.MqttBroker.MergeInto | mqtt/src/broker.rs:283-308 | merging empties `first`, keeps the retained message, and the members are then those of both sides together |
| Broker.MqttBroker.FillCache | mqtt/src/broker.rs:320-372 | a new cache holds exactly the found sessions: nobody, a lone first subscriber, or the list in order |
| Broker.MqttBroker.SubscribeTopic | mqtt/src/broker.rs:415-460 | subscribing to a topic moves the lone subscriber into the list, inserts the session in order unless its client is there, and answers the retained message |
| Broker.MqttBroker.MatchPublics | mqtt/src/broker.rs:386-394 | the loop finds exactly the public topics that the filter accepts, in order, and records them for the session |
| Broker.MqttBroker.SubscribeKeys | mqtt/src/broker.rs:397-405 | the session joins each matched topic in turn, and the retained messages are collected in that order |
| Broker.MqttBroker.JoinPublics | mqtt/src/broker.rs:385-405 | the record of the session gains the matched topics and the pattern, and the session joins each of the topics |
| Broker.MqttBroker.SubscribePattern | mqtt/src/broker.rs:385-414 | a pattern subscription joins the matched public topics and enters the trie, whose new nodes are the only new memory |
| Broker.MqttBroker.Subscribe | mqtt/src/broker.rs:383-461 | both kinds of subscription, on the broker's tables, do what the specification does; a pattern must not accept a public topic with wildcards |
| Broker.MqttBroker.LeaveCache | mqtt/src/broker.rs:472-494 | a session leaves one cache; the topic is to be dropped exactly when nobody is left |
| Broker.MqttBroker.LeaveAllMatched | mqtt/src/broker.rs:467-501 | in whatever order the cached topics are visited, the session leaves each matching one and the topics left empty are dropped |
| Broker.MqttBroker.Unsubscribe | mqtt/src/broker.rs:464-545 | both kinds of unsubscription, on the broker's tables, do what the specification does |
| Broker.MqttBroker.UnsubscribeAll | mqtt/src/broker.rs:548-564 | the recorded topics are left one after the other and the record is gone |
| BrokerRuns.AnnounceSound | mqtt/src/broker.rs:254-264 | the list of public topics stays strictly sorted, gains exactly the topic, and reports it new exactly if it was absent |
| BrokerRuns.SubscribedSound | mqtt/src/broker.rs:249-380 | a publish keeps the invariants and answers only sessions that asked for the topic |
| BrokerRuns.SubscribeSound | mqtt/src/broker.rs:383-461 | a subscription of either kind keeps the invariants |
| BrokerRuns.UnsubscribeSound | mqtt/src/broker.rs:464-545 | an unsubscription of either kind keeps the invariants |
| BrokerRuns.RunSound | mqtt/src/broker.rs:249-565 | in every run, unsubscribes included: `first` being set means `sessions` is empty, `publics` is strictly sorted, and every cached or registered session had subscribed to a filter that covers it |
| BrokerRuns.OnlySubscribers | mqtt/src/broker.rs:249-565 | whoever is answered for a topic after any run had earlier subscribed to it or to a filter that matches it |
| BrokerDelivery.SubscribeWaits | mqtt/src/broker.rs:383-461 | after a subscription to the topic or to a strictly matching pattern the client stands in the topic's cache, or in the pattern's list until the topic is public; and so does this very session object, if no other one of the client stood in its place |
| BrokerDelivery.PublishKeeps | mqtt/src/broker.rs:249-380 | a publish takes nobody away, and when a topic becomes public everyone waiting for it, directly or in a pattern's list, is in its cache and in the answer |
| BrokerDelivery.UnsubscribeKeeps | mqtt/src/broker.rs:464-545 | an unsubscription by another client, or from a filter that does not reach the topic, takes nobody away |
| BrokerDelivery.NoLostDelivery | mqtt/src/broker.rs:249-565 | in every run, with unsubscriptions of anybody: a public publish answers the client of every subscription to the topic or to a strictly matching pattern, unless the client has since unsubscribed from everything or from a filter that reaches the topic |
| BrokerDelivery.NoLostSession | mqtt/src/broker.rs:415-460 | it answers the very session object that subscribed, if at that time no other one of the client was in the pattern's list or in the cache it would join |
| BrokerDelivery.OneSessionIsAlone | mqtt/src/broker.rs:415-460 | a client that uses one session object throughout always meets that condition |
| BrokerDelivery.TouchingLoses | mqtt/src/broker.rs:464-545 | an unsubscription that reaches the topic ends a direct subscription, even one from a pattern that was never subscribed to |
| BrokerRetained.UnsubscribeDropsIff | mqtt/src/broker.rs:464-545 | an unsubscription drops a topic's cache if and only if it names the topic or is a pattern that `is_match` accepts, and the session is the lone subscriber or leaves an empty list |
| BrokerRetained.UnsubscribeAllDropsIff | mqtt/src/broker.rs:548-564 | unsubscribing from everything drops it exactly if the unsubscription from one of the recorded filters does |
| BrokerRetained.RunRetains | mqtt/src/broker.rs:249-565 | in every run, unsubscribes included, a topic's cache holds the last retained message, unless the topic was dropped since, and then none |
| BrokerRetained.SubscriberGetsRetained | mqtt/src/broker.rs:415-460 | in every run a new subscriber is answered the last retained message exactly if the topic was not dropped since, and otherwise nothing |
| BrokerRetained.PatternSubscriberGetsRetained | mqtt/src/broker.rs:385-414 | in every run a new pattern subscriber is answered what is kept for the matching public topics, in their order |
| BrokerRetained.AllKeptIff | mqtt/src/broker.rs:385-414 | those are all their last retained messages if and only if none of the topics that had one was dropped since |
| BrokerRetained.StrangerErasesRetained | mqtt/src/broker.rs:505-541 | after a retained message that nobody is subscribed to, an unsubscription by a client that never subscribed erases it |
| BrokerPatterns.SubscribedExact | mqtt/src/broker.rs:249-380 | a publish answers what was cached, and also what the patterns find if nothing was cached or the topic is just becoming public; the cache then holds the answer, and no other topic, pattern or record changes |
| BrokerPatterns.AnswerInOrder | mqtt/src/broker.rs:266-372 | in which order: a lone subscriber after those the patterns find, a list before them |
| BrokerPatterns.SubscribedWild | mqtt/src/broker.rs:320-379 | a publish on a topic with wildcards that is not cached answers nobody and changes nothing |
| BrokerPatterns.PublicsFromHistory | mqtt/src/broker.rs:254-264 | in every run the list of public topics holds exactly the topics published as public, each with the quality of service of its first such publish |
| BrokerPatterns.MatchedInOrder | mqtt/src/broker.rs:386-394 | the public topics a filter accepts come in the order of the sorted list |
| BrokerPatterns.SubscribeCaches | mqtt/src/broker.rs:383-461 | a subscription joins exactly the caches of its topic, or of the public topics its pattern accepts |
| BrokerPatterns.RecordStep | mqtt/src/broker.rs:385-460 | how often each operation puts each topic and pattern on each session's record, exactly |
| BrokerPatterns.UnsubscribeCaches | mqtt/src/broker.rs:464-545 | an unsubscription leaves exactly the caches of its topic, or of the cached topics its pattern accepts |
| BrokerPatterns.UnsubscribeRegistry | mqtt/src/broker.rs:464-504 | after unsubscribing from a pattern no session of the client is under it, and every other client and every other pattern is as before |
| BrokerPatterns.PatternsFromHistory | mqtt/src/broker.rs:249-565 | in every run a client is under a pattern exactly if it subscribed to it and has not unsubscribed from it since, through `unsubscribe` or through `unsubscribe_all` of a session with it on record, told from the operations alone |
| BrokerPatterns.PatternsAnswer | mqtt/src/broker.rs:320-379 | after any run, the first publish on a topic that no subscription named answers a client exactly if it still holds a pattern that strictly matches |
| BrokerRefinement.LeaveInOrder | mqtt/src/broker.rs:505-544 | a client leaves a topic's cache if and only if the cache has no lone subscriber or its lone subscriber is this very session object; order and everyone else stay |
| BrokerRefinement.JoinInOrder | mqtt/src/broker.rs:415-460 | joining keeps the cache in strict client order and adds exactly this client, through this session only if the client was not there |
| BrokerRefinement.UnsubscribeAllOrderly | mqtt/src/broker.rs:548-564 | leaving all recorded topics, however often each is recorded, leaves each of them once and no other |
| BrokerRefinement.RunOrderly | mqtt/src/broker.rs:249-565 | in every run without patterns, whichever session objects the clients use: a lone subscriber sits alone in `first`, each cache is in strict client order, and every cached session has the topic on its own record |
| BrokerRefinement.StepClients | mqtt/src/broker.rs:249-565 | which clients each operation leaves in each topic's cache, exactly |
| BrokerRefinement.FollowsIff | mqtt/src/broker.rs:249-565 | without patterns: at every point of a run the caches hold exactly the clients that plain insertion and deletion leave, if and only if every unsubscription of the run came when the cache would let the session go (and, for `unsubscribe_all`, when the session had the topic on record) |
| BrokerRefinement.AnswersInOrder | mqtt/src/broker.rs:266-379 | in every run without patterns a publish answers the cached sessions in strict client order, so each client at most once |
| BrokerRefinement.ReturnsClients | mqtt/src/broker.rs:249-380 | after a run whose unsubscriptions met that condition, a publish answers exactly the subscribed clients, each once |
| BrokerRefinement.NewSessionStaysSubscribed | mqtt/src/broker.rs:517-523 | a client that subscribes to a fresh topic with one session object and unsubscribes with another stays subscribed |
| BrokerRefinement.ReconnectedClientStays | mqtt/src/broker.rs:517-523 | the concrete run of two operations |
| BrokerRefinement.NewcomerAnsweredIff | mqtt/src/broker.rs:433-447 | after any run without patterns, a session that subscribes is answered if and only if no other session object of its client was cached for the topic |
| BrokerRefinement.OldSessionAnswers | mqtt/src/broker.rs:433-447 | a client that subscribes with one session object and again with another is answered through the old one alone |
| BrokerRefinement.ReconnectedClientMisses | mqtt/src/broker.rs:433-447 | the concrete run of two operations |
| BrokerRefinement.OneSessionReleases | mqtt/src/broker.rs:464-565 | if every client uses one session object throughout, every unsubscription meets the condition |
| BrokerRefinement.ReturnsSubscribers | mqtt/src/broker.rs:249-380 | then a publish answers exactly the subscribed session objects, each once, in client order |
| BatchGrammar.Decoder.Decode | http/src/batch_load.rs:428-485 | the procedure reading suffixes, with the calls it makes, leaves the characters, the stack and the result as one left-to-right machine does |
| BatchGrammar.Decoder.DecodeFile | http/src/batch_load.rs:488-551 | the procedure reading file names does the same from its mode |
| BatchGrammar.Decoder.DecodePath | http/src/batch_load.rs:554-615 | the procedure reading directories does the same from its mode |
| BatchGrammar.ErrorsAreExact | http/src/batch_load.rs:435-461 | in whichever of the three modes, decoding fails exactly on texts where a `$` is not followed by `$`, `1` or `2`, at the place after the first such `$` |
| BatchGrammar.ReadTree | http/src/batch_load.rs:428-615 | reading a printed subtree anywhere in a text appends its file paths and restores the path stack |
| BatchGrammar.DecodePrinted | http/src/batch_load.rs:428-615 | decoding a printed tree gives exactly its file paths in order, with the stack restored |
| BatchGrammar.DecodePrintedGroups | http/src/batch_load.rs:428-551 | the same without directories, where the colon may be left out |
| BatchGrammar.DecodeRequest | http/src/batch_load.rs:428-615 | the mutually recursive procedures, started as the loader starts them on a printed tree, succeed with the tree's files |
| BatchGrammarSplits.FeedIsSplits | http/src/batch_load.rs:428-615 | on every well-escaped text the machine does, mode by mode, what splitting the text at its first bracket or colon says |
| BatchGrammarSplits.DecodeBySplits | http/src/batch_load.rs:428-615 | the procedures, started as the loader starts them on any well-escaped request, succeed with the files that this splitting gives, escapes in file names included |
| BatchLoader.Plan | http/src/batch_load.rs:777-797 | the loop skips empty files, keeps the others in order and adds up what their parts will weigh |
| BatchLoader.TasksInOrder | http/src/batch_load.rs:777-797 | an empty file adds no task, and any other is the task at the place counted by the non-empty files before it |
| BatchLoader.SortedPlaces | http/src/batch_load.rs:330-333 | ordering a complete buffer puts the part of file i at place i |
| BatchLoader.ConcludeIsSafe | http/src/batch_load.rs:312-334 | the checks on number and size let through only all parts in file order |
| BatchLoader.ConcludeIff | http/src/batch_load.rs:312-334 | they let a buffer through if and only if it has enough parts and they weigh what was declared |
| BatchLoader.StepKeepsValid | http/src/batch_load.rs:788-880 | every step of a task or of the receiver keeps the invariant: one message per task, equal to what the task read, and a buffer that mirrors the channel |
| BatchLoader.RunsAreValid | http/src/batch_load.rs:770-895 | the invariant holds in every interleaving, with read failures and wrong sizes included |
| BatchLoader.AnswerIsErrorOrFullBody | http/src/batch_load.rs:266-338 | whatever the interleaving, the response is an error or exactly all parts joined in file order |
| BatchLoaderProgress.LastOne | http/src/batch_load.rs:835-846 | the countdown equals a task's weight exactly when no other task still owes |
| BatchLoaderProgress.HealthyRuns | http/src/batch_load.rs:788-880 | if every file reads at its declared size, the countdown is in every interleaving what the tasks still owe, and at most one task is to send the finish |
| BatchLoaderProgress.OneFinishAfterAllParts | http/src/batch_load.rs:829-846 | then at most N+1 messages enter the channel, exactly one of them a finish, after all parts |
| BatchLoaderProgress.RunsEnd | http/src/batch_load.rs:770-895 | while the receiver stays, no run has more than eight steps a task |
| BatchLoaderProgress.StuckMeansAnswered | http/src/batch_load.rs:229-252 | with room for N+1 messages, as the response is built, a run that cannot go on has answered with the full body |
| BatchLoaderStuck.StuckAnsweredIff | http/src/batch_load.rs:770-895 | whatever the files read, while the receiver stays: a run that cannot go on has been answered if and only if some load failed or some subtraction met its own weight |
| BatchLoaderStuck.ChangedFileHangs | http/src/batch_load.rs:835-846 | a lone file that reads at another size than declared: its part arrives and the response is never answered |
| BatchLoaderStuck.AfterHangup | http/src/batch_load.rs:829-846 | once the receiver is gone nothing enters the channel, no answer comes, and a task whose write fails ends without subtracting |
| BatchLoaderStuck.RunsFit | http/src/batch_load.rs:229-252 | in every run the channel holds at most its capacity and the countdown stays in 64 bits |
| BatchResponse.Respond | http/src/batch_load.rs:266-337 | the collecting loop answers not found without files, waits until a finish, then concludes from the parts before the first finish, and fails if the channel closes before one |
| BatchResponse.Check | http/src/batch_load.rs:312-334 | the two checks, the ordering and the joining |
| BatchResponse.Push | http/src/batch_load.rs:331-333 | the parts end up in the body one after the other |
| BatchResponse.ReplyKinds | http/src/batch_load.rs:266-337 | the reply is not found exactly without files, and waits exactly while neither a finish nor the end of the channel has come |
| BatchResponse.BodyIff | http/src/batch_load.rs:266-338 | in every run the answer is a body if and only if the parts received before the first finish are enough and together weigh what was declared |
| BatchResponse.RunsMirror | http/src/utils.rs:102-121 | in every run the receiving steps hold the buffer and the answer that this loop has after the messages taken |
| BatchFrames.FrameReadsBack | http/src/batch_load.rs:819-827 | a part can be read back exactly when its path length fits in 16 bits and its content length in 32 |
| BatchFrames.PartsAreFrames | http/src/batch_load.rs:813-829 | in every run what a task wrote is the frame of its path and of the content it read |
| BatchFrames.ClientReadsFiles | http/src/batch_load.rs:266-338 | a body answered in any run falls apart into the requested files, in order, each with the content its task read |
| Multipart.GatewayContext.ParsePart | http/src/multi_parts.rs:178-212 | the scan of carried bytes and chunk hands over the texts before each boundary, stops at a refusal, carries what follows the last boundary, and reports whether any part was found |
| Multipart.GatewayContext.ParseNext | http/src/multi_parts.rs:105-124 | after each chunk the parts handed over are those of all text read so far |
| Multipart.GatewayContext.ParsePartEnd | http/src/multi_parts.rs:215-239 | the carried bytes are scanned once more and the last end marker in them closes the last part |
| Multipart.GatewayContext.ParseBody | http/src/multi_parts.rs:105-136 | the whole loop: chunks are read up to the first that holds the end marker, and the parts of that text are handed over |
| Multipart.GatewayContext.ParseAll | http/src/multi_parts.rs:178-239 | feeding every chunk and then the end hands over the parts of the joined chunks: for every body and every cut, with no condition |
| Multipart.FindMeaning | http/src/multi_parts.rs:190 | the search finds the first occurrence |
| Multipart.FindLastMeaning | http/src/multi_parts.rs:172-175 | the search for the end marker finds the last occurrence |
| Multipart.SplitAppend | http/src/multi_parts.rs:178-212 | splitting a text in two goes on from what the first piece left over |
| MultipartLaws.SplitIsSplit | http/src/multi_parts.rs:178-212 | the parts and the left-over, with the boundary between them, join to the text, and no boundary starts in a part or is left in the rest |
| MultipartLaws.SplitIsUnique | http/src/multi_parts.rs:178-212 | and there is only one way to split a text so |
| MultipartLaws.TailMeaning | http/src/multi_parts.rs:228-236 | the last part ends at the last end marker of the left-over, and there is none without a marker |
| MultipartLaws.HandMeaning | http/src/multi_parts.rs:192-194 | the parts are handed over up to and including the first that is not empty and whose header is refused, or all of them |
| MultipartLaws.ReadMeaning | http/src/multi_parts.rs:105-124 | what is read are the chunks up to the first that holds the end marker, or all |
| MultipartChunks.ChunkingIndependence | http/src/multi_parts.rs:178-239 | for every header parser and every way of cutting a body after whose first end marker neither boundary nor end marker ends, the same parts are handed over as for the whole body |
| MultipartChunks.CutAfterEndMarker | http/src/multi_parts.rs:115-117 | a body that is not so is told apart by the cut after its first end marker |
| MultipartChunks.ChunkingIndependentIff | http/src/multi_parts.rs:105-136 | for a boundary without line feed, every cut gives the same parts if and only if no boundary and no end marker ends later than the first end marker |
| MultipartRoundTrip.EndsAlikeIff | http/src/multi_parts.rs:100-104 | the end marker ends like a boundary exactly if the name is made of dashes |
| MultipartRoundTrip.RoundTrip | http/src/multi_parts.rs:178-239 | parts printed between boundaries, cut in any way, are handed over again in order, after the empty text before the first boundary |
| MultipartRoundTrip.RoundTripIff | http/src/multi_parts.rs:178-239 | this round trip works for all cuts if and only if the boundary name is not made of dashes only |
| WebSocket.SplitParts | async_wsc/src/lib.rs:926-952 | the loop over offsets cuts a payload into pieces of the given size |
| WebSocket.PiecesMeaning | async_wsc/src/lib.rs:926-952 | the pieces join to the payload, all but the last have the full size, and none is empty |
| WebSocket.PiecesCount | async_wsc/src/lib.rs:926-952 | there are as few of them as can hold the payload |
| WebSocket.LabelParts | async_wsc/src/lib.rs:845-917 | the first piece starts a text or binary message, the last one ends it, the others continue it |
| WebSocket.SendFrames | async_wsc/src/lib.rs:839-923 | a message above the limit is sent as fragments, any other as itself |
| WebSocket.DriveFrames | async_wsc/src/lib.rs:963-1048 | receiving the frames of one message delivers that message, even if text was cut inside a character |
| WebSocket.StreamRoundTrip | async_wsc/src/lib.rs:328-397 | receiving the frames of any list of messages, each sent under any limit, delivers exactly those messages in order and no error |
| WebSocket.ControlFrameIff | async_wsc/src/lib.rs:963-1048 | a control frame put among the frames of a message is received without error exactly before or after all of them |
| WebSocket.FramePayloads | async_wsc/src/lib.rs:839-923 | no frame of a text or binary message has more payload than the limit |
| WebSocketLaws.SentWhole | async_wsc/src/lib.rs:839-923 | a message goes out as one frame, unchanged, exactly if there is no limit, it is no text or binary message, or it is within the limit |
| WebSocketLaws.SentCut | async_wsc/src/lib.rs:839-923 | the payloads of the fragments of a message join to its payload, and there are as few as the limit allows |
| WebSocketLaws.SentLabels | async_wsc/src/lib.rs:845-917 | the first fragment names the type, the last ends the message and every other one continues it |
| WebSocketLaws.ReceivedExactly | async_wsc/src/lib.rs:963-1048 | receiving any frames fails exactly if some frame goes on with a message that is not open or completes text that is not UTF-8; otherwise what is delivered are the single frames and, at each last fragment, the joined fragments since its first one, in order |
| Utf8Encoding.EncodingsPass | async_wsc/src/lib.rs:963-1048 | the check of a text message accepts the encoding of every sequence of Unicode scalar values, as RFC 3629 defines it |
| Utf8Encoding.PassingIsEncoding | async_wsc/src/lib.rs:963-1048 | and nothing else: whatever it accepts is such an encoding |
| WebSocket.AsyncWebsocket.SetSendFrameLimit | async_wsc/src/lib.rs:666-681 | with its header the stored size fills the limit exactly, or three bytes if the limit is smaller, so every text or binary frame sent with it fits |
| WebSocket.AsyncWebsocket.SetSendFrameLimitMasked | async_wsc/src/lib.rs:684-699 | the same with masked headers and seven bytes; from 126 to 65535 bytes the code allows two bytes more for the header than RFC 6455 asks for |
| WebSocket.LimitFits | async_wsc/src/lib.rs:666-699 | if the largest frame fits, header included, every frame of every message does |
| HandlerChain.Chain.Handle | https/src/handler.rs:264-270 | the entry starts the before stage and itself answers nothing |
| HandlerChain.Chain.FailFromBefore | https/src/handler.rs:293-314 | the loop that lets before middlewares catch an error, with its calls, has the trace of the before stage in the error state |
| HandlerChain.Chain.ContinueFromBefore | https/src/handler.rs:351-370 | the loop over before middlewares has the trace of that stage in the good state |
| HandlerChain.Chain.FailFromHandler | https/src/handler.rs:316-324 | after a failed before stage the handler is not run |
| HandlerChain.Chain.ContinueFromHandler | https/src/handler.rs:372-401 | the handler's answer decides how the after stage starts, and no answer ends the chain |
| HandlerChain.Chain.FailFromAfter | https/src/handler.rs:326-349 | the loop that lets after middlewares catch an error has the trace of the after stage in the error state |
| HandlerChain.Chain.ContinueFromAfter | https/src/handler.rs:403-431 | the loop over after middlewares has the trace of that stage in the good state |
| HandlerChain.FromBeforeIsFold | https/src/handler.rs:293-314 | from any index on, the continuations call each remaining before middleware once, in order, on the folded state, then hand over to the handler |
| HandlerChain.FromAfterIsFold | https/src/handler.rs:403-431 | from any index on, they call each remaining after middleware once, in order, on the folded state, and then reply |
| HandlerChain.ChainIsFold | https/src/handler.rs:264-456 | the whole chain is a fold over the middlewares: normal form in a good state, `catch` in an error state, the handler only if the before stage ends well |
| HandlerChain.RepliesOnce | https/src/handler.rs:264-456 | exactly one reply is sent, as the last event, unless the handler answers nothing, and then none |
| HandlerChain.TraceLaw | https/src/handler.rs:264-456 | every two neighbouring events follow from what the middleware or handler of the first returned: a good answer goes to the next normal form or to the handler, an error to the next `catch`, a recovered error back to the normal form |
| HandlerChain.LawDetermines | https/src/handler.rs:264-456 | a trace with the same first event that obeys this law is the trace of the chain |
| Params.ParamMap.Assign | https/src/params.rs:324-341 | the assignment changes the map in place as the specification says, also when it fails half-way |
| Params.ParamMap.Find | https/src/params.rs:344-358 | the loop with a moving reference reads the value at the keys |
| Params.ParseBrackets | https/src/params.rs:424-433 | an index is split off at the first closing bracket |
| Params.ParsePath | https/src/params.rs:412-421 | the base key is split off at the first opening bracket |
| Params.WayOpenMeaning | https/src/params.rs:480-533 | the way to a key path is open exactly if every prefix of it is absent or a map |
| Params.AssignThenFind | https/src/params.rs:324-358 | assigning at a key path succeeds exactly if every prefix is absent or a map, and then finding those keys returns the value |
| Params.AssignLeavesAlone | https/src/params.rs:480-541 | for any path text, well formed or not, and whether the assignment succeeds or fails, every key list that is neither above nor below reads as before |
| Params.KeysOfPath | https/src/params.rs:412-433 | the keys parsed from a printed key path are the keys printed |
| Params.AssignAppends | https/src/params.rs:485-512 | a path that ends in empty brackets appends to the array there, exactly if that place is absent or an array and the way to it is open |
| ParamsEffects.AssignActsAtEnd | https/src/params.rs:480-533 | an assignment along a key list is refused with nothing changed if the way is blocked, and otherwise its outcome and the value then at that place are those of the place alone |
| ParamsEffects.AssignMakesWay | https/src/params.rs:512-530 | an assignment with an open way makes the missing maps, even if it is refused at the end |
| ParamsEffects.MalformedRefused | https/src/params.rs:412-433 | a path that goes on with anything but closed brackets is invalid and leaves the value at its keys alone |
| ParamsEffects.DoubleBracketsRefused | https/src/params.rs:485-498 | two pairs of empty brackets in a row are invalid, and leave the array there, or an empty one |
| ParamsEffects.AssignInLastItem | https/src/params.rs:485-512 | a path with keys after empty brackets works exactly if the way is open, the place is absent or an array, and its last item, if any, is a map; if that map lacks the first key it alone changes and reads the value there, and otherwise the array gains one map that reads it and nothing else |
| ParamsEffects.RefusedAddsNoItem | https/src/params.rs:498-510 | whatever follows the empty brackets, a refused assignment adds no item and touches none but the last |
| ParamsEffects.AppendRefused | https/src/params.rs:485-512 | appending is refused for a blocked way or for a place with something else than an array, and changes nothing then |
| ParamsEffects.AssignRefused | https/src/params.rs:480-533 | assigning at a key path is refused for a blocked way and changes nothing then |
| ResourceCache.StaticCache.Lookup | http/src/static_cache.rs:476-504 | a present key is answered as expired or with its resource, by the clock |
| ResourceCache.StaticCache.Store | http/src/static_cache.rs:507-628 | the checks in order, each refusal with its request to the collector, the replacement or addition with its change of the counters, and the signature with the resource that was there before |
| ResourceCache.StaticCache.Drop | http/src/static_cache.rs:631-667 | the entry goes and the counters drop |
| ResourceCache.StaticCache.Timeouts | http/src/static_cache.rs:741-795 | the index is walked from the latest timeout to the earliest, each once |
| ResourceCache.StaticCache.DropIndexed | http/src/static_cache.rs:741-795 | an index entry goes together with the resource it points to |
| ResourceCache.StaticCache.Collect | http/src/static_cache.rs:741-795 | the loop drops entries in that order until enough is freed, and for a request of zero just the first |
| ResourceCache.StaticCache.CollectExpired | http/src/static_cache.rs:708-738 | the sweep drops entries from the latest timeout on, up to the first that has not expired |
| ResourceCache.StaticCache.Process | http/src/static_cache.rs:323-397 | the collector takes the first request off its queue and indexes or clears as it says |
| ResourceCache.InsertBounded | http/src/static_cache.rs:507-628 | an insert keeps the counters within the limits and changes them by exactly what it changes in the cache |
| ResourceCache.RemoveBounded | http/src/static_cache.rs:631-667 | so does a removal, and no counter wraps around |
| ResourceCache.ClearMakesRoom | http/src/static_cache.rs:741-795 | forced eviction of n bytes frees n bytes or empties the timeout index |
| ResourceCache.ClearTakesLatest | http/src/static_cache.rs:741-795 | what it drops from the index are the latest timeouts |
| ResourceCache.RefusedInsertFits | http/src/static_cache.rs:516-526 | an insert is refused for size anywhere in a run; whatever happens in between, when the collector comes to the request that the refusal queued and processes it, the insert passes the size check and is not refused for size again, unless the timeout index is spent |
| ResourceCache.QueueIsFifo | http/src/static_cache.rs:323-397 | in every run the collector's queue holds, in order, the requests it has not processed |
| ResourceCache.ClearServed | http/src/static_cache.rs:741-795 | in every run, processing a queued request to clear n bytes leaves n bytes free or the timeout index spent |
| ResourceCache.RunBounded | http/src/static_cache.rs:507-672 | in every run cached bytes and entries stay below the counters and the counters below the limits, and they exceed what is cached by exactly what whole-cache removals threw away |
| ResourceCache.CountersExactIff | http/src/static_cache.rs:507-672 | both counters are exact if and only if every whole-cache removal met an empty cache |
| ResourceCache.RemoveAllDrifts | http/src/static_cache.rs:670-672 | the concrete run: one byte stored, everything removed, both counters at one |
| CacheLaws.InsertOutcome | http/src/static_cache.rs:507-628 | which of its outcomes an insert has, each exactly by the room, the clock and the age; a refusal changes nothing but the queue of requests |
| CacheLaws.InsertAnswer | http/src/static_cache.rs:507-628 | a stored resource answers its signature with what a lookup of the key gave before; the key then has it until clock plus age, and every other key is as before |
| CacheLaws.RemoveTakes | http/src/static_cache.rs:631-667 | a removal takes out exactly its key, answers what a lookup gave before, and the counters fall by exactly that entry |
| CacheLaws.EvictTakes | http/src/static_cache.rs:741-795 | dropping a timeout of the index takes out exactly the key it points to |
| CacheLaws.ClearIsShortest | http/src/static_cache.rs:741-795 | forced eviction drops the shortest beginning of the list of timeouts that frees enough, or all of it |
| CacheLaws.ClearTakes | http/src/static_cache.rs:741-795 | a key leaves the cache exactly with an index entry that points to it |
| CacheLaws.ClearZeroTakesLatest | http/src/static_cache.rs:741-795 | a request to clear no bytes drops the latest timeout and what it points to, and nothing else |
| CacheLaws.ExpireIsAllOrNothing | http/src/static_cache.rs:708-738 | the sweep empties the index if all of it has expired and otherwise changes nothing; a key leaves the cache exactly with an index entry that points to it |
| CacheLaws.ExpiredSurvives | http/src/static_cache.rs:708-738 | the concrete case: an expired entry stays because a later one has not expired |
| CacheLaws.StepIndex | http/src/static_cache.rs:323-397 | the index gains what the collector is told, loses what is evicted, and nothing else |
| CacheLaws.StepTakes | http/src/static_cache.rs:476-795 | which operations take a key out of the cache: its removal, the removal of all, and the eviction of an index entry that points to it, and no others |
| CacheLaws.HoldsLastStored | http/src/static_cache.rs:507-795 | in every run a key holds the entry stored last, unless one of these took it out since, and then none |
| CacheLaws.ServesLastStored | http/src/static_cache.rs:476-504 | in every run a lookup answers from that entry, as expired or with its resource by the clock, and as absent if it was taken out or there is no clock |
| SessionOwnership.Protocol.AcceptConnect | mqtt/src/tls_v311.rs:220-310 | a client id whose session is accepted is refused and nothing changes; otherwise the context is bound unless it is already, the session is replaced, and the answer carries the session-present flag and the listener's verdict, which changes nothing else |
| SessionOwnership.Protocol.CloseProtocol | mqtt/src/tls_v311.rs:100-141 | a context that is not shared is freed; a clean session goes from the table, another one is marked closed |
| SessionOwnership.StepKeepsValid | mqtt/src/tls_v311.rs:100-330 | every step keeps each bound connection the owner of its client's accepted session |
| SessionOwnership.OneOwner | mqtt/src/tls_v311.rs:220-310 | after any run at most one open connection is bound to a client id, and that id's session is marked accepted |
| SessionOwnership.OrphansIff | mqtt/src/tls_v311.rs:268-285 | a step leaves an accepted session without an owner exactly if it accepts on a bound or detached connection, or closes a bound one whose context is shared |
| SessionOwnership.OrphanForever | new_tcp/src/utils.rs:513-546 | such a client id is refused in every later state |
| SessionOwnership.OrphanFreeIff | mqtt/src/tls_v311.rs:100-330 | over whole runs: every accepted session has an owner at the end exactly if no step of the run was of those kinds |
| SessionOwnership.SecondConnectOrphans | mqtt/src/tls_v311.rs:268-285 | the concrete run: two CONNECTs with different ids on one connection |
| SessionOwnership.CloseFreesId | mqtt/src/tls_v311.rs:105-124 | after an unshared close the client is accepted again, with its session present exactly if neither side asked for a clean one |
| SessionHistory.BoundHistory | mqtt/src/tls_v311.rs:220-310 | in every run a connection is bound to the client of its first accepted CONNECT with a context since it was opened, told from the steps alone |
| SessionHistory.SessionFromHistory | mqtt/src/tls_v311.rs:100-330 | in every run an id is marked accepted exactly while it is taken, from an accepted CONNECT to the unshared close of the connection bound to it, and its stored clean flag is that of the last accepted CONNECT |
| SessionHistory.AnswerFromHistory | mqtt/src/tls_v311.rs:220-310 | in every run the answer to a CONNECT, told from the steps alone: refused while the id is taken, and with the session present exactly if neither this CONNECT nor the last accepted one asked for a clean session |
| SessionHistory.PresentAfterClose | mqtt/src/tls_v311.rs:238-245 | after an accepted CONNECT and its unshared close, the next one of that client is answered with its session present exactly if neither asked for a clean one |

## Left out

- Copies of the modelled logic: the QUIC broker and protocol, `files_load.rs`, and the batch and files handlers of the https crate.
- Topics starting with `$`, and the parsing of topic paths, which comes from another crate: a path is a sequence of literal levels, `+` and `#`.
- The order of the broker's internal locks: each broker and cache method is one step. Only the loader's tasks are interleaved.
- BrokerDelivery.NoLostDelivery: says nothing about a client that has itself unsubscribed from a filter that reaches the topic, or from everything, while another of its patterns still covers it: the code takes it off there (`mqtt/src/broker.rs:466-504`). Nor does it speak of non-public publishes on a cached topic, which do not consult the patterns (`mqtt/src/broker.rs:281-319`).
- BrokerDelivery.NoLostSession: with patterns the condition is sufficient; it is shown to be exact without patterns (`NewcomerAnsweredIff`), since a list with merged patterns is no longer sorted and its search may miss.
- The record of a session's topics is keyed by the session object. The source compares such keys by client id and hashes them by connection (`mqtt/src/session.rs:145-171`), so two objects of one client may or may not share a record there; the condition of `FollowsIff` on `unsubscribe_all` depends on this reading.
- Sortedness of a topic's session list once patterns have been merged into it: the code does not keep it.
- A public topic with wildcards: `mqtt/src/tls_v311.rs:381-385` refuses such a publish before the broker sees it, so runs do not contain one. A pattern subscription that accepts one would call itself without end, so `Broker.MqttBroker.Subscribe` takes a pattern that accepts none.
- PathTrees.PathTree.Insert: `size` is modelled as the code counts it, which is not the number of values.
- BatchLoaderProgress.OneFinishAfterAllParts: the total size is taken to fit in 64 bits; the sum of the declared sizes is unbounded in the model of `Plan`.
- BatchFrames.ClientReadsFiles: paths and contents are taken to fit in their length fields, which `FrameReadsBack` shows to be necessary.
- BatchGrammar.DecodePrinted: printed names are free of `$`, `:` and `)`, since an escape in a file name lands in the suffix; `BatchGrammarSplits.DecodeBySplits` covers such requests.
- A channel that closes without a finish is an error in `BatchResponse.Respond`; it is no step of the loader's runs, since the response itself holds a sender.
- The file-system part of the batch loader, its directory listing and its cache headers.
- MultipartChunks.ChunkingIndependentIff: the only-if half is for a header parser that accepts every part; the if half, `ChunkingIndependence`, is for every parser.
- Multipart headers, file uploads and the parameter table the parts go to: the header parser is any predicate on parts.
- The rest of the WebSocket event loop: connecting, TLS, timeouts, wake-ups, and a receive count that stops after a number of messages.
- The order in which the executor runs continuations of the handler chain, and polling for a connection in `reply`: a continuation is a call.
- Params.ParamMap.Assign: nested maps and arrays are owned values, so their update below the top level is a function; `Map::take` and the conversions are not modelled.
- Cache signatures and dates are opaque values, times are whole seconds, and the sum of the size counter and a value's size is unbounded.
- Cache runs drop index entries one by one in any order, of which every sweep of `collect_expired` is a case.
- Pausing and stopping the cache's collector.
- SessionOwnership.Protocol.AcceptConnect: keep-alive times, wills and passwords are left out.
- A close that finds its context shared is a step of the ownership runs although it does not seem to occur: the handles that `get` gives out do not raise the count (`new_tcp/src/utils.rs:455-461`).
- HandlerChain.Chain.Reply: one reply is one event; waiting for the connection's waker, and a connection that is gone, are left out.
- The unsubscriptions that closing a clean session causes are modelled in the broker, not in the ownership steps.
- HTTP clients, UDP, TLS set-up, routing, MIME types, compression and CORS.
