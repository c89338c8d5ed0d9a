# Springtale, verified

A Dafny model of the parts of Springtale that carry real state, concurrency or string and path reasoning, and proofs
of what those parts promise. `dafny verify dfyconfig.toml` checks the whole project.

Code that runs concurrently is modelled twice. First as a state machine with one step per critical section: `Exec`
gives the state after a run of steps when every step was enabled, and the main lemmas speak about every run. Then in
the source's own form, as a class with the lock-guarded fields, whose methods are proved to perform exactly the
machine's steps: the ghost field `trace` is the machine run the object has gone through, and `Valid` says that the
fields agree with the machine's state after it. Remote answers, fetch outcomes, send outcomes and operating-system
answers are parameters of steps, so every theorem holds for all of them.

| file | what it models |
|---|---|
| `SubscriptionIds.dfy`, `HandlerList.dfy` | the 64-bit subscription counter and the push / retain / invoke handler list |
| `KickRegistry.dfy` | interleaved `on_event`, `remove_event` and `dispatch_webhook` of the Kick connector: ids, live handlers, deliveries |
| `KickSubscriptions.dfy` | what those runs ask of Kick's subscription API |
| `KickConnector.dfy` | the Kick connector object itself |
| `KickWebhook.dfy` | webhook dispatch over the registry and the chat bridge together |
| `KickKeyCache.dfy` | the webhook public-key cache |
| `KickBridge.dfy` | the bounded webhook-to-chat bridge and its drain loop |
| `FsResolve.dfy` | a filesystem with directories, files and symbolic links, and path canonicalization |
| `FsAllowlist.dfy` | the allow-list decision, what it means, and where an access lands |
| `FsConnector.dfy` | declared capabilities and the lazily started watcher |
| `TelegramPark.dfy` | parking on the shutdown watch cell |
| `TelegramIngest.dfy` | the two classifications of an update, handler dispatch, and the spawned forwarding tasks |
| `TelegramAddress.dfy` | Telegram's chat path and its mention extractor, seen together |
| `Surface.dfy` | the walk of the command tree, the sort, and the join with the route table |
| `Hosts.dfy` | the two URL-host parsers and Presearch's network allow-list |
| `WorkspaceKey.dfy`, `Mentions.dfy` | workspace keys and the destinations the mention extractors harvest |
| `Text.dfy`, `Json.dfy`, `Prelude.dfy` | the library operations the above rest on |

## Where a promise holds only under a condition

Each of these is stated as an if-and-only-if, or with the input on which the plain promise fails.

* Subscription ids are unique per connector (`crates/springtale-connector/src/connector/subscription.rs:30-34`) as
  long as at most 2^64 of them are drawn; the counter then wraps around (`IdsDistinctIff`).
* `build` is documented as the inverse of `parse` (`crates/springtale-connector/src/workspace_key.rs:90-92`). It is
  exactly for the keys that `RoundTrips` describes; other parts are dropped, split or trimmed on the way.
* A harvested key, handed back to the send action of its connector, is to address the id it was made from. It does so
  if and only if the destination's last id is not empty, holds no slash and does not end in whitespace (`KeySends`).
  Signal group ids are Base64 (`connectors/connector-signal/src/actions/send_group_message.rs:17`) and may hold
  slashes: the key of the group `a/b` addresses `b` (`SlashedGroupGoesElsewhere`).
* Destination keys identify their destination, for any single id and for pairs of ids whose first has no slash, except
  where a first id is empty: empty ids are dropped from a key, so an empty guild with channel `channel/x` prints like
  the guild `channel` with channel `x`, and an IRC user `user/x` or `channel/#x` on an unnamed network like the user `x`
  or the channel `#x` on a network `user` (`KeysIdentifyIff`). With a slash in the first id of a pair, the place where
  it ends is lost: network `a/channel/#b` with channel `#c` prints like network `a` with channel `#b/channel/#c`
  (`SlashedPairsCollide`).
* The walk of the command tree yields exactly the leaf verbs if and only if no shown top-level command has an empty
  name (`WalkExactIff`).
* The two host parsers agree on an `http` or `https` URL if and only if the host is not directly followed by a second
  `://` (`ParsersAgreeIff`).
* OpenCode documents a default host for malformed URLs (`connectors/connector-opencode/src/connector.rs:83-96`). The
  code never gets to use it (`DefaultNeverUsed`): a URL with nothing, a slash or a second `://` where the host should
  start gets the empty host (`HostEmptyIff`).
* For a path that does not resolve, the allow-list decides about its resolved parent plus its file name. That is where
  an access would land if and only if the path ends in that name, the parent is a directory and the name is not
  taken (`FallbackLands`); a name taken by a link with a missing target is the case where it is not
  (`MissingTargetLandsElsewhere`).
* An allowed access therefore lands inside the allow-list unless its last name is taken by such a link
  (`AllowedLandsInside`).
* Spellings of a new file name get one answer, except that a bare name is always denied, also where `./name` is
  allowed: the parent of a bare name is the empty path, which does not resolve (`NewNameSameAnswer`,
  `BareNewNameDenied`).
* A failed watcher start is not rolled back: the registration reports an error and its callback stays until its id is removed
  (`FailedStartKeepsCallback`).

## Model

| member | source | states |
|---|---|---|
| `SubscriptionIds.IdsDistinctIff` | crates/springtale-connector/src/connector/subscription.rs:35-47 | the first `n` ids are pairwise distinct if and only if `n` is at most 2^64 |
| `SubscriptionIds.IdsCountUp` | crates/springtale-connector/src/connector/subscription.rs:35-47 | the ids are 1, 2, and so on to the largest 64-bit number, and then 0 |
| `SubscriptionIds.IsTakenIsIdAt` | crates/springtale-connector/src/connector/subscription.rs:35-47 | the closed description of the drawn ids is exactly the set the counter has handed out |
| `SubscriptionIds.NextIsFresh` | crates/springtale-connector/src/connector/subscription.rs:44-46 | the next id was not drawn before, and drawn ids stay drawn |
| `SubscriptionIds.DrawKeepsFresh` | crates/springtale-connector/src/connector/subscription.rs:44-46 | a drawn id differs from all ids held by other calls and all ids pushed |
| `SubscriptionIds.PushKeepsFresh` | connectors/connector-kick/src/connector.rs:190-194 | pushing a held id keeps the other held ids unpushed and pairwise distinct |
| `SubscriptionIds.IdsStayFresh` | connectors/connector-kick/src/connector.rs:190-194 | in every run of a connector that draws, holds and pushes ids, held ids are unpushed and pairwise distinct and pushed ids were drawn |
| `SubscriptionIds.PushIsFresh` | connectors/connector-kick/src/connector.rs:190-194 | in every such run no id is pushed twice |
| `HandlerList.RetainKeeps` | connectors/connector-kick/src/connector.rs:284-289 | removal keeps exactly the registrations with another id |
| `HandlerList.RetainDistinct` | connectors/connector-kick/src/connector.rs:284-289 | removal keeps ids pairwise distinct |
| `HandlerList.RetainHandlers` | connectors/connector-kick/src/connector.rs:284-289 | the retain loop computes the filtered list in order |
| `HandlerList.InvokeHandlers` | connectors/connector-kick/src/connector.rs:106-111 | the dispatch loop calls the handlers of the trigger, in registration order |
| `HandlerList.DeliveryOnce` | connectors/connector-kick/src/connector.rs:106-111 | one delivery reaches a subscription exactly once if it is registered for the trigger, otherwise not at all |
| `KickRegistry.RunFollows` | connectors/connector-kick/src/connector.rs:172-194 | every interleaved run draws, holds and pushes its ids in that order, so the ids stay fresh |
| `KickRegistry.TriggerEventsAre` | connectors/connector-kick/src/connector.rs:49-56 | which event type carries which trigger; going live and going offline share one |
| `KickRegistry.ValidIffCarried` | connectors/connector-kick/src/connector.rs:49-56 | the triggers one can register for are exactly those some event type carries |
| `KickRegistry.PushedOnce` | connectors/connector-kick/src/connector.rs:190-194 | in every interleaved run no id is pushed twice |
| `KickRegistry.HandlersAreLive` | connectors/connector-kick/src/connector.rs:190-194 | in every run, the handler list holds exactly the subscriptions pushed and not removed since |
| `KickRegistry.LiveIdsDistinct` | connectors/connector-kick/src/connector.rs:172-194 | in every interleaved run, live subscription ids are pairwise distinct |
| `KickRegistry.UnpushedReceivesNothing` | connectors/connector-kick/src/connector.rs:102-112 | an id that was never pushed receives no payload |
| `KickRegistry.LiveDuringLifetime` | connectors/connector-kick/src/connector.rs:284-289 | a subscription is live from its push to its first removal and never again |
| `KickRegistry.ReceivedLast` | connectors/connector-kick/src/connector.rs:102-112 | a step adds to what a subscription received exactly when it delivers for the trigger it is live with |
| `KickRegistry.DeliveredExactly` | connectors/connector-kick/src/connector.rs:102-112 | in every interleaved run, a subscription receives exactly, in order and once each, the payloads dispatched for its trigger between its push and its removal |
| `KickSubscriptions.NewEventsExact` | connectors/connector-kick/src/connector.rs:198-206 | a request asks for exactly the trigger's event types not recorded yet, as often as the trigger lists them |
| `KickSubscriptions.TriggerEventsOnce` | connectors/connector-kick/src/connector.rs:49-56 | no trigger lists an event type twice |
| `KickSubscriptions.InvariantHolds` | connectors/connector-kick/src/connector.rs:198-233 | in every run the lock is held exactly by the call whose request is in flight, and it asks only for unrecorded types |
| `KickSubscriptions.SubscribesOnce` | connectors/connector-kick/src/connector.rs:198-233 | in every run no event type succeeds twice, the recorded set is exactly the successful types, no request repeats one, at most one request is in flight |
| `KickSubscriptions.SubscribedOnlyGrows` | connectors/connector-kick/src/connector.rs:215-217 | the recorded set and the request log only grow |
| `KickSubscriptions.RetriesUntilSuccess` | connectors/connector-kick/src/connector.rs:198-233 | a registration asks for exactly those of its event types that never succeeded, however often they failed |
| `KickConnectorObject.CollectNewEvents` | connectors/connector-kick/src/connector.rs:202-206 | the filter over the trigger's event types keeps the unrecorded ones in order |
| `KickConnectorObject.NewEventsCover` | connectors/connector-kick/src/connector.rs:198-217 | recording the requested types records all types of the trigger |
| `KickConnectorObject.KickConnector.Begin` | connectors/connector-kick/src/connector.rs:172-190 | performs the step that rejects an unknown trigger or draws an id |
| `KickConnectorObject.KickConnector.PushHandler` | connectors/connector-kick/src/connector.rs:191-194 | performs the step that pushes the handler |
| `KickConnectorObject.KickConnector.TakeLock` | connectors/connector-kick/src/connector.rs:198-207 | performs the step that takes the subscription lock and finds what to ask for |
| `KickConnectorObject.KickConnector.RecordAnswer` | connectors/connector-kick/src/connector.rs:208-233 | performs the step that records a success and nothing on a failure |
| `KickConnectorObject.KickConnector.OnEvent` | connectors/connector-kick/src/connector.rs:172-240 | a whole registration: new id, handler appended, event types recorded only when the request succeeded |
| `KickConnectorObject.KickConnector.RemoveEvent` | connectors/connector-kick/src/connector.rs:284-289 | performs the removal step |
| `KickConnectorObject.KickConnector.OfferToBridge` | connectors/connector-kick/src/connector.rs:102-105 | performs the step that offers the payload to the bridge, before the handlers lock |
| `KickConnectorObject.KickConnector.DispatchWebhook` | connectors/connector-kick/src/connector.rs:102-112 | feeds the bridge first, then makes exactly the calls of the trigger's handlers |
| `KickWebhook.Projects` | connectors/connector-kick/src/connector.rs:102-112 | a run of both machines together is a run of each, so what holds of each holds of both |
| `KickWebhook.DeliveredWasOffered` | connectors/connector-kick/src/connector.rs:102-112 | in every interleaved run, what a dispatch delivers to the handlers it offered to the bridge earlier, each exactly once |
| `KickWebhook.BridgeMatchesHandlers` | connectors/connector-kick/src/connector.rs:102-112 | in every interleaved run, a chat payload was taken, is queued or was dropped exactly as often as it was delivered or waits for the handlers lock |
| `KickWebhook.OrdersDiffer` | connectors/connector-kick/src/connector.rs:105-106 | a run in which the bridge gets two payloads in one order and the handlers in the other |
| `KickKeyCache.FetchesOnce` | connectors/connector-kick/src/connector.rs:88-99 | under every interleaving at most one fetch succeeds, every successful call returned that key, exactly the callers whose own fetch failed got an error |
| `KickKeyCache.CachedForGood` | connectors/connector-kick/src/connector.rs:88-99 | once a key is cached no later step fetches or changes it |
| `KickKeyCache.PublicKeyCache.WebhookPublicKey` | connectors/connector-kick/src/connector.rs:91-99 | returns the cached key, or fetches, caching only a success |
| `KickBridge.ChatMessageIff` | connectors/connector-kick/src/chat.rs:72-111 | a payload is a chat message exactly when it names a broadcaster or a sender |
| `KickBridge.IdFieldIs` | connectors/connector-kick/src/chat.rs:72-78 | an id is kept as it was sent: a string unchanged, an integer in decimal, nothing else at all |
| `KickBridge.ChatMessageIs` | connectors/connector-kick/src/chat.rs:91-111 | over the payload's own fields: the broadcaster's id is the channel, the sender's the user, the content the text, and the payload is kept |
| `KickBridge.BridgeConserves` | connectors/connector-kick/src/chat.rs:48-68 | in every reachable state the queue is bounded, accepted = taken ++ queued, decodings of taken payloads are sent, failed or in flight in order, and each run fails at most once |
| `KickBridge.NothingLostSilently` | connectors/connector-kick/src/chat.rs:61-68 | the chat payloads handed in are, as a multiset, the taken, the queued and the dropped ones |
| `KickBridge.DroppedIffFull` | connectors/connector-kick/src/chat.rs:61-68 | a chat payload is dropped exactly when the bridge is full |
| `KickBridge.ExitReason` | connectors/connector-kick/src/chat.rs:115-150 | a run ends only after seeing shutdown true or a failed forward; the bridge-closed exit is unreachable |
| `KickBridge.ShutdownEndsRun` | connectors/connector-kick/src/chat.rs:139-144 | in every trace, a run that wakes up for the shutdown flag ends, and frees the bridge, if and only if the flag was last set to true; otherwise it goes on |
| `KickBridge.ForwardEndsRun` | connectors/connector-kick/src/chat.rs:134-137 | in every trace, a failed forward ends the run and frees the bridge, and a successful one does not |
| `KickBridge.KickChatSource.Ingest` | connectors/connector-kick/src/chat.rs:61-68 | queues a chat payload when there is room, ignores other triggers |
| `KickBridge.KickChatSource.Drain` | connectors/connector-kick/src/chat.rs:125-138 | the receive arm takes one payload and forwards its message if it carries one |
| `KickBridge.KickChatSource.Wake` | connectors/connector-kick/src/chat.rs:124-145 | one wake-up is the machine's handling of that arm; it ends the run exactly for shutdown true or a failed forward |
| `KickBridge.KickChatSource.Run` | connectors/connector-kick/src/chat.rs:115-150 | the drain loop drives the machine through every wake-up until an exit, which is never bridge-closed; a shutdown among the wake-ups always ends it |
| `FsResolve.ResolvedIsPhysical` | connectors/connector-filesystem/src/config.rs:75-83 | a canonical path names an existing location with no link on the way |
| `FsResolve.WalkCompose` | connectors/connector-filesystem/src/config.rs:75-83 | resolving a concatenated path is resolving its first part and going on from there |
| `FsResolve.ResolveIdempotent` | connectors/connector-filesystem/src/config.rs:75-83 | a canonical path resolves to itself |
| `FsResolve.DotSpelling` | connectors/connector-filesystem/src/config.rs:75-79 | `a/./b` and `a//b` resolve like `a/b` |
| `FsResolve.DotDotSpelling` | connectors/connector-filesystem/src/config.rs:75-79 | `a/x/../b` resolves like `a/b` when `a/x` is a directory |
| `FsResolve.PrefixSpelling` | connectors/connector-filesystem/src/config.rs:75-79 | a path through a link resolves like the same path with its leading part spelled out physically |
| `FsResolve.LinkSpelling` | connectors/connector-filesystem/src/config.rs:75-83 | a path through a link resolves like the path with the target in its place, below the root for an absolute target and below the link's directory for a relative one, at the cost of one link |
| `FsResolve.LinkLimitEnds` | connectors/connector-filesystem/src/config.rs:81-83 | without links left, a path through a link does not resolve |
| `FsResolve.DotDotIsParent` | connectors/connector-filesystem/src/config.rs:75-79 | dot-dot leads one component up, and the root is its own parent |
| `FsResolve.NothingBelowFile` | connectors/connector-filesystem/src/config.rs:81-83 | nothing below a file resolves |
| `FsResolve.EmptyPathNamesNothing` | connectors/connector-filesystem/src/config.rs:81-83 | the empty path does not resolve |
| `FsAllowlist.IsPathWithinAllowlist` | connectors/connector-filesystem/src/config.rs:81-109 | the loop answers yes exactly when the decided location is at or below, at any depth, the resolved location of some entry |
| `FsAllowlist.WithinIff` | connectors/connector-filesystem/src/config.rs:99-109 | the answer, stated over locations and their components alone |
| `FsAllowlist.BelowAllowedIsAllowed` | connectors/connector-filesystem/src/config.rs:99-109 | whatever lies below an allowed location is allowed by the same list |
| `FsAllowlist.EntryAllowsBelow` | connectors/connector-filesystem/src/config.rs:99-109 | every existing location at or below an entry's is allowed |
| `FsAllowlist.Containment` | connectors/connector-filesystem/src/config.rs:81-109 | an allow answer puts the decided location physically below the resolved location of some entry, also for a name that does not exist yet |
| `FsAllowlist.AnswerIsSemantic` | connectors/connector-filesystem/src/config.rs:81-109 | spellings of one location, and allow-lists that resolve to the same locations, get the same answer |
| `FsAllowlist.CanonicalSpellingSameAnswer` | connectors/connector-filesystem/src/config.rs:81-109 | replacing the path and every entry by its canonical spelling changes no answer |
| `FsAllowlist.AllowlistUnion` | connectors/connector-filesystem/src/config.rs:53-69 | the answer for a concatenated list is the disjunction of the answers; adding entries never revokes access |
| `FsAllowlist.LandOrWalk` | connectors/connector-filesystem/src/config.rs:82-97 | an access lands where the path resolves, or on a missing last name in an existing directory |
| `FsAllowlist.ResolvedLands` | connectors/connector-filesystem/src/config.rs:82-83 | for a path that resolves, the decided location is where an access lands |
| `FsAllowlist.FallbackLands` | connectors/connector-filesystem/src/config.rs:84-97 | for a path that does not, it is so if and only if the path ends in its file name, its parent is a directory and the name is not taken |
| `FsAllowlist.AllowedLandsInside` | connectors/connector-filesystem/src/config.rs:81-109 | an allowed access lands on a location some entry covers, whether the path exists or names a new entry; only a last name taken by a link is left over |
| `FsAllowlist.LinkLands` | connectors/connector-filesystem/src/config.rs:84-97 | an access through a link, also one with a missing target, lands where the path with the target in its place does |
| `FsAllowlist.UnresolvedCandidate` | connectors/connector-filesystem/src/config.rs:84-97 | a path that does not resolve is decided about its name below whatever the rest resolves to, and denied when that resolves to nothing |
| `FsAllowlist.NewNameTrailingDots` | connectors/connector-filesystem/src/config.rs:84-97 | a new name with a trailing slash or dot is decided like the name, although no access lands there |
| `FsAllowlist.NewNameCandidate` | connectors/connector-filesystem/src/config.rs:84-97 | for a new name in an existing directory, however spelled, the decided location is that name in the physical directory, and an access lands there |
| `FsAllowlist.NewNameSameAnswer` | connectors/connector-filesystem/src/config.rs:75-109 | any two spellings of a directory give a new name in it the same decided location and answer |
| `FsAllowlist.NewNameDot` | connectors/connector-filesystem/src/config.rs:75-97 | `a/./b/x` and `a//b/x` are decided like the new name `a/b/x` |
| `FsAllowlist.NewNameDotDot` | connectors/connector-filesystem/src/config.rs:75-97 | `a/y/../b/x` is decided like the new name `a/b/x` when `a/y` is a directory |
| `FsAllowlist.NewNameLink` | connectors/connector-filesystem/src/config.rs:75-97 | a new name below a link is decided like the name below the link's physical place |
| `FsAllowlist.BareNewNameDenied` | connectors/connector-filesystem/src/config.rs:84-97 | a bare new name is denied by every allow-list, while `./name` is decided about the working directory |
| `FsAllowlist.MissingTargetLandsElsewhere` | connectors/connector-filesystem/src/config.rs:84-97 | the input on which the decided location and the landing differ |
| `FsConnectorObject.FirstMentionsExact` | connectors/connector-filesystem/src/connector.rs:168-176 | the watch paths added are exactly the new ones, one entry per distinct path |
| `FsConnectorObject.ConfigCapabilities` | connectors/connector-filesystem/src/connector.rs:159-186 | the three loops compute reads, new watches, writes |
| `FsConnectorObject.CapabilitiesExact` | connectors/connector-filesystem/src/connector.rs:159-186 | reading is declared exactly for read and watch paths, writing exactly for write paths |
| `FsConnectorObject.CapabilitiesOrdered` | connectors/connector-filesystem/src/connector.rs:159-186 | the order is reads, new watches, writes, and each new watch path has exactly one entry |
| `FsConnectorObject.AllowedIffDeclared` | connectors/connector-filesystem/src/config.rs:53-69 | writing is allowed exactly below the paths declared for writing, and reading or watching exactly below those declared for reading |
| `FsConnectorObject.ValidIffFires` | connectors/connector-filesystem/src/watcher/mod.rs:16-23 | the triggers one can register for are exactly those some file event fires |
| `FsConnectorObject.WatcherAllOrNothing` | connectors/connector-filesystem/src/connector.rs:57-71 | in every run the watcher is absent or covers all watch paths in order, is installed at most once, after a callback was registered and before any registration returns |
| `FsConnectorObject.StartSucceedsIff` | connectors/connector-filesystem/src/connector.rs:63-69 | a start succeeds exactly when every configured path passes the allow-list check and is accepted |
| `FsConnectorObject.InstalledWasAllowed` | connectors/connector-filesystem/src/connector.rs:57-71 | a running watcher was started by some step of the run, when every path it covers passed the check |
| `FsConnectorObject.LiveCallbacks` | connectors/connector-filesystem/src/connector.rs:126-151 | in every run a callback is registered exactly when some step pushed it and no later step removed its id |
| `FsConnectorObject.RunFollows` | connectors/connector-filesystem/src/connector.rs:112-129 | every interleaved run draws, holds and pushes its ids in that order, so the ids stay fresh |
| `FsConnectorObject.PushedOnce` | connectors/connector-filesystem/src/connector.rs:125-129 | in every interleaved run no id is pushed twice |
| `FsConnectorObject.RegisteredUntilRemoved` | connectors/connector-filesystem/src/connector.rs:125-151 | in every run a pushed callback is registered if and only if no removal of its id follows its push |
| `FsConnectorObject.FailedStartKeepsCallback` | connectors/connector-filesystem/src/connector.rs:125-134 | in every run, a registration answered with an error pushed its callback, then attempted a start that failed; the callback is registered if and only if no removal of its id follows the push |
| `FsConnectorObject.ResolvedPathsAreWatchable` | connectors/connector-filesystem/src/watcher/mod.rs:126-138 | watch paths that resolve pass their own allow-list, so only the operating system can refuse a start |
| `FsConnectorObject.StartWatcher` | connectors/connector-filesystem/src/connector.rs:63-69 | the start loop yields all configured paths, or nothing if any is refused |
| `FsConnectorObject.FilesystemConnector.EnsureWatcherStarted` | connectors/connector-filesystem/src/connector.rs:57-71 | performs the start step; succeeds exactly when a watcher is installed or every path can be watched |
| `FsConnectorObject.FilesystemConnector.OnEvent` | connectors/connector-filesystem/src/connector.rs:105-144 | a whole registration: the callback is pushed for every valid trigger, also when the start then fails |
| `FsConnectorObject.FilesystemConnector.RemoveEvent` | connectors/connector-filesystem/src/connector.rs:146-151 | performs the removal step |
| `TelegramPark.NoLostWakeUp` | connectors/connector-telegram/src/chat.rs:106-114 | in every reachable parked state, a cell that holds true has a wake pending; true or a dropped sender never leaves the loop stuck |
| `TelegramPark.ExitsWithinThreeSteps` | connectors/connector-telegram/src/chat.rs:106-114 | once the value stays true or the sender is gone, three more loop steps suffice to exit and one is always possible |
| `TelegramPark.ExitReason` | connectors/connector-telegram/src/chat.rs:106-114 | the loop exits only by reading true, or with the sender gone and false seen last |
| `TelegramPark.ShutdownReceiver.ParkUntilShutdown` | connectors/connector-telegram/src/chat.rs:106-114 | the loop is still parked exactly when the cell holds false and the sender is alive |
| `TelegramIngest.PathsAgree` | connectors/connector-telegram/src/chat.rs:155-247 | for every update, the rule events of the polling path and the triggers of `dispatch_update` are the same under message / message_received |
| `TelegramIngest.MessageIs` | connectors/connector-telegram/src/chat.rs:156-189 | over the update's own fields: chat, user, text and rule events of a message, which keeps the whole update |
| `TelegramIngest.CallbackIs` | connectors/connector-telegram/src/chat.rs:190-247 | over the update's own fields: chat, user, data and rule event of a button press, which keeps the whole update |
| `TelegramIngest.ClassifyIff` | connectors/connector-telegram/src/chat.rs:155-247 | an update becomes a message exactly when it has a message or a button press |
| `TelegramIngest.PayloadIs` | connectors/connector-telegram/src/connector.rs:67-91 | the payload each trigger's handlers get |
| `TelegramIngest.ValidIffFires` | connectors/connector-telegram/src/connector.rs:155-170 | the triggers one can register for are exactly those some update fires |
| `TelegramIngest.CallsForUpdateOnce` | connectors/connector-telegram/src/connector.rs:67-100 | with any handler list at each lock, a handler is invoked once if the list at its own trigger's lock holds it, otherwise not at all |
| `TelegramIngest.HandlerFiresIffRuleEvent` | connectors/connector-telegram/src/connector.rs:67-100 | the polling path attaches exactly the fired triggers, and a handler is invoked once if it is found at its trigger's lock, otherwise not at all |
| `TelegramIngest.ParsesCommands` | connectors/connector-telegram/src/webhook/mod.rs:39-49 | command and arguments are read back, with or without bot name and arguments |
| `TelegramIngest.EveryCommandParses` | connectors/connector-telegram/src/webhook/mod.rs:39-49 | every text that starts with a slash is such a command text and is read back into its parts |
| `TelegramIngest.SlashIsOptional` | connectors/connector-telegram/src/webhook/mod.rs:39-49 | a text without the slash parses like the command it would be with one |
| `TelegramIngest.WithCommandKeeps` | connectors/connector-telegram/src/connector.rs:71-79 | the command payload is the message with the parsed command and arguments added |
| `TelegramIngest.TelegramConnector.TakeId` | connectors/connector-telegram/src/connector.rs:155-172 | rejects unknown triggers or draws an id, which stays fresh while other calls run |
| `TelegramIngest.TelegramConnector.PushHandler` | connectors/connector-telegram/src/connector.rs:173-176 | appends the handler under an id that was never registered before |
| `TelegramIngest.TelegramConnector.OnEvent` | connectors/connector-telegram/src/connector.rs:155-182 | a whole registration: rejects unknown triggers, otherwise appends the handler under an id never registered before |
| `TelegramIngest.TelegramConnector.Interfere` | connectors/connector-telegram/src/connector.rs:155-189 | whatever other calls do, ids stay distinct and no registered id changes its trigger |
| `TelegramIngest.TelegramConnector.RemoveEvent` | connectors/connector-telegram/src/connector.rs:184-189 | keeps exactly the handlers with another id, which stay distinct |
| `TelegramIngest.TelegramConnector.DispatchUpdate` | connectors/connector-telegram/src/connector.rs:67-100 | makes exactly the calls of the fired triggers, in order, each with its payload and the handler list found at its lock, whatever other calls do in between |
| `TelegramIngest.RunAccounts` | connectors/connector-telegram/src/chat.rs:155-247 | for each message, the tasks holding it and its outcomes add up to the updates that carried it |
| `TelegramIngest.TasksConserve` | connectors/connector-telegram/src/chat.rs:155-247 | over every interleaving of the spawned tasks, pending + sent + failed equal the carried messages as a multiset, and every callback with an id is acknowledged once, before its send |
| `TelegramIngest.OutcomesAre` | connectors/connector-telegram/src/chat.rs:183-186 | in every run, sent are the sends that succeeded and failed those that did not, each in order |
| `TelegramIngest.UpdateFate` | connectors/connector-telegram/src/chat.rs:155-247 | in every run, an update is waiting, sent or failed exactly as often as it was dispatched; a button press with a string id and no message is acknowledged once before each send, and no other update is |
| `Surface.Collect` | apps/springtale-cli/src/surface.rs:585-606 | the accumulator-passing walk appends the pure leaf listing to its input |
| `Surface.PathsExact` | apps/springtale-cli/src/surface.rs:573-606 | the reference enumeration lists exactly the paths on which no node is hidden or called `help` and whose last node has no other children |
| `Surface.PathsNoRepeats` | apps/springtale-cli/src/surface.rs:573-606 | and each of them once |
| `Surface.LeavesExact` | apps/springtale-cli/src/surface.rs:585-606 | below non-empty names the walk pushes the space-joined leaf paths, in tree order and with multiplicity |
| `Surface.WalkExactIff` | apps/springtale-cli/src/surface.rs:577-606 | the walk yields exactly the leaf verbs if and only if no shown top-level name is empty |
| `Surface.SortSorts` | apps/springtale-cli/src/surface.rs:580-580 | the result is a sorted permutation |
| `Surface.SortedIff` | apps/springtale-cli/src/surface.rs:580-580 | sorted means: of two verbs, the earlier is a prefix of the later or smaller where they first differ |
| `Surface.Verbs` | apps/springtale-cli/src/surface.rs:577-582 | in order, and a permutation of the leaf verbs if and only if no shown top-level name is empty |
| `Surface.VerbsSkipHelp` | apps/springtale-cli/src/surface.rs:585-606 | every verb is a path of commands none of which is hidden or called `help` |
| `Surface.VerbsDistinct` | apps/springtale-cli/src/surface.rs:577-606 | distinct space-free sibling names give pairwise distinct verbs |
| `Surface.RoutesForIff` | apps/springtale-cli/src/surface.rs:610-615 | routes are found exactly for the verbs the table lists, and are those of a table entry |
| `Surface.RoutesForFirst` | apps/springtale-cli/src/surface.rs:610-615 | of several entries for a verb the first counts |
| `Surface.DumpExact` | apps/springtale-cli/src/surface.rs:618-651 | when both halves of the coverage check pass, the dump lists each verb once, in order, with routes of the table, and its verbs are the table's |
| `Hosts.ParsersAgreeIff` | connectors/connector-opencode/src/connector.rs:86-96 | on every http(s) URL the two parsers find the same host if and only if no second `://` directly follows it |
| `Hosts.ParsersAgree` | connectors/connector-presearch/src/config.rs:86-90 | in particular whenever the host does not end in a colon |
| `Hosts.DefaultNeverUsed` | connectors/connector-opencode/src/connector.rs:83-96 | for every text a first segment is present, so the default is never used and the host is the first segment after the delimiter |
| `Hosts.HostEmptyIff` | connectors/connector-opencode/src/connector.rs:83-96 | the host is empty if and only if nothing, a slash or a second `://` stands where it should start |
| `Hosts.NoScheme` | connectors/connector-presearch/src/config.rs:86-90 | a text without `://` has its first segment as host for OpenCode and no host for Presearch |
| `Hosts.AllNetworkHosts` | connectors/connector-presearch/src/config.rs:60-82 | the list holds exactly the allowed hosts, each once, the API host first and the others by first mention |
| `Hosts.ConfigCapabilities` | connectors/connector-presearch/src/connector.rs:92-98 | a capability names a host exactly when the allow check passes it, without repetition, API host first |
| `WorkspaceKey.BuildLoop` | crates/springtale-connector/src/workspace_key.rs:93-108 | the loop prints the scheme and the non-empty segments joined by slashes |
| `WorkspaceKey.RoundTripIff` | crates/springtale-connector/src/workspace_key.rs:77-108 | parsing a built key gives its parts back if and only if they are well formed |
| `WorkspaceKey.ParsedIsWellFormed` | crates/springtale-connector/src/workspace_key.rs:77-88 | a parse yields a non-empty scheme and non-empty slash-free segments |
| `WorkspaceKey.CanonicalKeyIff` | crates/springtale-connector/src/workspace_key.rs:77-108 | rebuilding what was parsed and parsing again gives the same parts exactly when the last segment does not end in whitespace |
| `WorkspaceKey.PathExtracts` | crates/springtale-connector/src/workspace_key.rs:77-160 | what any text with a scheme yields: its last piece to its own connector, an error to any other, itself if it has no piece |
| `WorkspaceKey.KeyExtracts` | crates/springtale-connector/src/workspace_key.rs:93-160 | a key whose last segment is clean yields that segment to its own connector, whatever precedes it, and an error to any other |
| `WorkspaceKey.TaggedKeyExtracts` | crates/springtale-connector/src/workspace_key.rs:93-160 | a key that ends in a tag and any text yields the last piece of that text, or the tag |
| `WorkspaceKey.AddressedIff` | crates/springtale-connector/src/workspace_key.rs:93-160 | that is the text itself if and only if it is a clean segment |
| `WorkspaceKey.RawIdExtracts` | crates/springtale-connector/src/workspace_key.rs:134-160 | surrounding whitespace never matters, and an input without `://` is passed on as a raw id |
| `WorkspaceKey.SchemeOfConnector` | crates/springtale-connector/src/workspace_key.rs:115-119 | a connector's scheme is its name without `connector-`, and any other name is its own scheme |
| `WorkspaceKey.KeyEqualIff` | crates/springtale-connector/src/workspace_key.rs:93-108 | keys of slash-free parts are equal exactly when scheme and non-empty parts are |
| `WorkspaceKey.KeyInjective` | crates/springtale-connector/src/workspace_key.rs:93-108 | keys with well-formed parts are equal only if all parts are |
| `Mentions.TelegramNamesIff` | connectors/connector-telegram/src/mention.rs:36-76 | Telegram names a chat exactly when the id of the chat its trigger is about is an `i64` |
| `Mentions.DiscordNamesIff` | connectors/connector-discord/src/mention.rs:33-60 | Discord names a guild channel exactly when `guild_id` is a string, otherwise a direct message, and nothing without `channel_id` |
| `Mentions.IrcNamesIff` | connectors/connector-irc/src/mention.rs:25-55 | IRC names a channel exactly when the target, or the channel when there is no target, starts with `#` or `&` as in section 1.3 of RFC 1459, whatever the nick; otherwise the nick |
| `Mentions.SlackNamesIff` | connectors/connector-slack/src/mention.rs:25-52 | Slack reads `item_channel` exactly when there is no `channel_id`, and names a direct message exactly when the id starts with `D` |
| `Mentions.SignalNamesIff` | connectors/connector-signal/src/mention.rs:24-57 | Signal names a group exactly when `group_id` is a non-empty string, whoever the source is; otherwise the source |
| `Mentions.NamesOwn` | connectors/connector-irc/src/mention.rs:25-55 | payloads name only their own connector's destinations |
| `Mentions.NameableIsNamed` | connectors/connector-discord/src/mention.rs:33-60 | every such destination is named by some payload |
| `Mentions.SingleKeyShapes` | connectors/connector-signal/src/mention.rs:24-57 | the documented shapes of the keys with one id |
| `Mentions.PairedKeyShapes` | connectors/connector-discord/src/mention.rs:8-12 | the documented shapes of the keys with two ids |
| `Mentions.KeysIdentifyIff` | connectors/connector-discord/src/mention.rs:49-60 | where the first id of a pair has no slash, payloads of any of the five connectors yield the same key if and only if they name the same destination or collide because a first id is empty |
| `Mentions.SlashedPairsCollide` | connectors/connector-irc/src/mention.rs:41-55 | the family where a slash in the first id of a pair makes two different destinations share a key |
| `Mentions.ReadKeyIff` | connectors/connector-slack/src/mention.rs:39-52 | a destination is recoverable from its key if and only if its ids are non-empty, slash-free and do not end in whitespace |
| `Mentions.KeySends` | connectors/connector-signal/src/mention.rs:24-57 | for every destination: its key handed to its own connector addresses the named id if and only if that id is not empty, has no slash and does not end in whitespace, and otherwise its last piece; every other connector refuses it |
| `Mentions.SlashedGroupGoesElsewhere` | connectors/connector-signal/src/actions/send_message.rs:46-65 | the family where the promise fails: the key of a Signal group id with a slash addresses what follows the last slash |
| `Mentions.TelegramIdSurvives` | connectors/connector-telegram/src/mention.rs:57-76 | every chat id is printed into its key and recovered from it |
| `TelegramAddress.ReplyReachesMention` | connectors/connector-telegram/src/mention.rs:36-76 | for every update and fired trigger, the harvested key handed to the send action addresses the channel the chat path answers in, and none is harvested when there is no channel |

## Left out

- `apps/springtaled/src/config.rs`: `extract_connector_configs` is a filtered copy of a table and would only add easy members.
- Handler registries of the other connectors: the same push / retain / invoke pattern as Kick's.
- Cancellation of a call in the middle of an await: every critical section runs to its end.
- Termination of the Kick drain loop: only its safety is stated; it does not look at the shutdown value before its first wait and ignores a dropped sender.
- `dispatch_raw_webhook` and the mapping from Kick event types to triggers: dispatch starts at the trigger name.
- KickConnectorObject.KickConnector.OnEvent: states one call with nothing in between; calls that interleave are covered by the machine's lemmas.
- KickConnectorObject.KickConnector.DispatchWebhook: states one call with no step between ingest and delivery; calls that interleave are covered by the lemmas about both machines together.
- FsConnectorObject.FilesystemConnector.OnEvent: states one call with nothing in between; calls that interleave are covered by the machine's lemmas.
- TelegramIngest.TelegramConnector.DispatchUpdate: what other calls do between the locks is given as a finite list of their critical sections.
- TelegramIngest.TelegramConnector.OnEvent: states one call with nothing in between; its two critical sections are separate members that other calls may run between.
- KickBridge.KickChatSource.Run: the wake-ups of the select, and the dispatches between them, are given as a finite list; the loop as written need not end.
- TelegramPark.ShutdownReceiver.ParkUntilShutdown: what the sender does is given as a finite list; the version counter is unbounded.
- FsResolve.Walk: missing permissions and input errors are not modelled, so resolution fails only for missing entries, non-directories and too many links.
- FsAllowlist.IsPathWithinAllowlist: one unchanging filesystem serves every canonicalization of a decision and the access after it; a filesystem that changes in between is not modelled.
- FsConnectorObject.ConfigCapabilities: paths are compared as paths; the lossy conversion of paths that are not valid UTF-8 is not modelled.
- FsConnectorObject.StartWatcher: delivery of file events by the running watcher is not modelled.
- Surface.SortSorts: stands for the standard library's sort, whose algorithm is not modelled.
- Display names, workspace kinds and metadata of harvested destinations: they do not enter the key.
- REST, WebSocket and webhook clients, signature verification, `execute` matches, manifests, factories, error types and configuration defaults: network code or facts settled by one branch.
