# Residential IP Manager: verified model

Residential IP Manager keeps one exit to the Internet alive. It fetches public VPN nodes, grades them as
residential or not, probes them, ranks them, opens a userspace OpenVPN tunnel to the best one, and moves to
another node when the tunnel or its health check fails. This project models the parts where that can go wrong
and proves what they promise.

* **Tunnel session** (`Session`, `SessionObject`, `Controller`, `ControllerRuns`). Dialers, users closing their
  sockets, the teardown, the bridge workers, Connect, Disconnect and one watcher per session are goroutines of a
  transition system. Each critical section is one event, each unlocked region is a gap in which any other goroutine
  may run, and the theorems hold for every interleaving. A projection carries what is proved of one session over to
  every session of every controller run, and `TunnelRuns` ties the controller to the tunnel the server model uses
  (`Tunnel`). The critical sections also exist as methods of the objects they mutate,
  proved equal to the functions the transition system applies.
* **Failover** (`Failover`, `Ranking`, `Server`, `ServerObject`, `Handlers`, `Cooldowns`, `ErrorSnapshots`, `Scores`,
  `Monitor`). Operator requests and monitor ticks come one after the other. Everything the outside world decides is
  part of the action: fetch results, lookups, dial outcomes, verdicts, the time that passes and the death of the
  tunnel between any two sub-steps. A run is any sequence of actions. Each handler is a method of a server object,
  proved to be the action the theorems are about and to keep the object valid. `Ranking` and `Handlers` say on fields,
  offers and the trace of the tunnel what lists, failures, refreshes and handlers come to.
* **Profiles** (`SkipMachine`, `Sanitizer`, `SanitizedText`, `Renderer`, `ManagedProfile`, `RenderedProfiles`, `Remote`,
  `EndpointText`, `EndpointExamples`, `Base64`, `Source`). The sanitizer is a line machine with two skip modes; the
  questions are what never gets through it and what it does to the endpoint a profile names.
* **Probing and ranking** (`Probe`, `ProbePool`, `Classify`, `Diagnostics`, `Sorting`). The concurrent probe,
  the median, the batch rule, and the two comparators whose soundness depends on facts other files establish.

`Text`, `Nodes` (in `Node.dfy`) and `Prelude` hold string operations, the node record and Option and Result.

Six statements one might expect are not true of the program. For each there are lemmas exhibiting the failure and
one giving the condition that decides it:

* Sanitizing does not always keep the endpoint a profile names (`EndpointExamples.HiddenEndpointIsLost`,
  `EndpointExamples.LoneCrLosesEndpoint`, `EndpointExamples.LoneCrRevealsEndpoint`); `Remote.EndpointSurvivesIff`
  says for every profile when it does.
* Sanitizing a rendered profile does not always strip what it should of the lines the manager added and nothing
  else (`RenderedProfiles.BrokenPathStays`, `RenderedProfiles.OpeningPathExists`);
  `RenderedProfiles.SanitizeRenderedIff` says for which auth paths it does.
* A cooldown does not survive a node's absence from one fetch (`Cooldowns.ReintroductionLosesCooldown`);
  `Cooldowns.RefreshStaysCooledIff` and `Cooldowns.AutoStaysCooledIff` say which fetches keep it.
* The comparator of the diagnostic command is not an order (`Diagnostics.ComparatorCanCycle`);
  `Diagnostics.WeakOrderIff` says on which lists it is one.
* An error snapshot does not always mean an idle tunnel (`ErrorSnapshots.ErrorBesideLiveIsReachable`);
  `ErrorSnapshots.ErrorBesideLiveIff` and `ErrorSnapshots.ErrorBesideLiveInRuns` say when it does not.
* Ninety points do not always mean a strict home (`Scores.DemotedStaysAhead`); `Scores.NinetyPointsIff` says when
  they do.

## Model

| member | source | states |
|---|---|---|
| Session.EveryRunKeepsInv | internal/tunnel/openvpn.go:361-475 | in every interleaving `activeDials` is the number of dials between increment and decrement, and every socket ever opened has been closed, is tracked, or is held by exactly one counted dial |
| Session.TrackedExactly | internal/tunnel/openvpn.go:404-475 | in every interleaving a tracked socket has been handed out and not been released by its user, and before the teardown begins every such socket is tracked |
| Session.TeardownClosesTracked | internal/tunnel/openvpn.go:437-452 | the teardown closes only sockets that were tracked when it refused dials, and none of them twice |
| Session.WorkNeverGrows | internal/tunnel/openvpn.go:389-460 | once dials are refused, no step of anyone adds a tracked socket, a counted dial or a handed-out socket |
| Session.OnlyShrinksAlong | internal/tunnel/openvpn.go:389-460 | the same over any number of steps: what a goroutine may rely on while the lock is free |
| Session.RefusalIsFinal | internal/tunnel/openvpn.go:389-452 | over whole runs: after the refusal the set of sockets handed out is fixed and the tracked set only shrinks |
| Session.NoHandoutAfterRefusal | internal/tunnel/openvpn.go:389-413 | no dial is admitted and no socket handed out anywhere later in the run than the refusal |
| Session.TeardownOrder | internal/tunnel/openvpn.go:361-376 | however many callers race on close, refuse, close VPN, drain, close device, join workers and signal occur at most once each, in that order and without gaps |
| Session.SocketsShutBeforeVpn | internal/tunnel/openvpn.go:437-452 | when the VPN is about to be closed every socket ever handed out has been closed and none is tracked |
| Session.DeviceOutlivesSockets | internal/tunnel/openvpn.go:361-376 | when the device is closed every socket ever opened has been closed, and in every continuation none is opened |
| Session.WorkerNeverBlocks | internal/tunnel/openvpn.go:324-333 | a bridge worker reporting an error always has an enabled way on |
| Session.FirstErrorIsDelivered | internal/tunnel/openvpn.go:324-347 | once any worker has reported, an error is in the channel or was received by the watcher, unless the session is closing |
| Session.SleeperWillBeWoken | internal/tunnel/openvpn.go:454-460 | a sleeping teardown waits for at least one counted dial, and each such dial has an enabled step: no wakeup is lost |
| Session.TeardownNeverStuck | internal/tunnel/openvpn.go:361-460 | between the first close call and the closing of `closed`, some step that waits for no outsider is enabled |
| Session.TeardownTerminates | internal/tunnel/openvpn.go:361-460 | after the refusal only a bounded number of steps (other than refused dials and repeated close calls) can happen, and a session that owes no step has closed `closed` with every socket closed |
| SessionObject.VpnSession.constructor | internal/tunnel/openvpn.go:227-242 | a new session is the start state of the transition system |
| SessionObject.VpnSession.BeginDial | internal/tunnel/openvpn.go:389-396 | a dial is admitted and counted exactly when the session is not closing |
| SessionObject.VpnSession.SettleDial | internal/tunnel/openvpn.go:404-413 | a socket is tracked and the count given back exactly when the dial succeeded and the session is not closing; otherwise nothing changes |
| SessionObject.VpnSession.EndDial | internal/tunnel/openvpn.go:418-421 | the count is given back and sleepers are woken |
| SessionObject.VpnSession.UntrackConnection | internal/tunnel/openvpn.go:428-435 | exactly that socket is untracked and sleepers are woken |
| SessionObject.VpnSession.BeginClose | internal/tunnel/openvpn.go:437-445 | dials are refused and the tracked sockets are listed, each once |
| SessionObject.VpnSession.CloseConnections | internal/tunnel/openvpn.go:437-452 | with other goroutines running at every unlocked point, exactly the sockets tracked at the refusal are closed and none stays tracked |
| SessionObject.VpnSession.CheckWait | internal/tunnel/openvpn.go:454-460 | the teardown sleeps exactly while a socket or a dial is left |
| Controller.OpenVPNController.BeginConnect | internal/tunnel/openvpn.go:127-139 | the connection is reserved exactly when there is no session and no other Connect in flight |
| Controller.OpenVPNController.FinishConnect | internal/tunnel/openvpn.go:142-150 | the reservation ends with the session published or the error recorded |
| Controller.OpenVPNController.DropFromWatch | internal/tunnel/openvpn.go:338-343 | a watcher clears the session and records the error only if its own session is current |
| Controller.OpenVPNController.TakeSession | internal/tunnel/openvpn.go:349-354 | Disconnect takes whatever session is current and clears session and error |
| Controller.EveryRunKeepsInv | internal/tunnel/openvpn.go:127-359 | in every interleaving `connecting` implies no session and exactly one Connect; every published session is current, being or having been closed, or owed a close by some goroutine; nobody closes the current session; every session keeps its own invariant |
| Controller.PublishFindsNoSession | internal/tunnel/openvpn.go:141-150 | when Connect publishes there is no session to overwrite and no stale error |
| Controller.OnlyItsWatcherClears | internal/tunnel/openvpn.go:335-359 | a session stops being current only by Disconnect or by its own watcher, which is then committed to closing it |
| Controller.ErrorNamesTheLostSession | internal/tunnel/openvpn.go:335-343 | a data-path error is recorded only for the session that was current until that step |
| ControllerRuns.LastErrorIs | internal/tunnel/openvpn.go:127-359 | in every run the last error is read off the events: a failed Connect leaves its failure, the watcher of the current session the loss of that session, the start of a Connect and a Disconnect none, and every other step what was there |
| Controller.CurrentSessionAdmitsDials | internal/tunnel/openvpn.go:379-396 | in every reachable state the current session accepts dials |
| Controller.RetiredSessionNeverStuck | internal/tunnel/openvpn.go:335-376 | a published session that is no longer current always has an enabled step towards `closed` |
| ControllerRuns.WatcherTouchesOnlyItsSession | internal/tunnel/openvpn.go:335-347 | from its start to its end no step of a watcher changes the controller unless its own session is current; the step that does clears it, records its error and commits to closing it |
| ControllerRuns.SessionRuns | internal/tunnel/openvpn.go:127-376 | from any point of any controller run on, a session's part of it is a run of the session transition system leading to the same state |
| ControllerRuns.SessionRunsFromStart | internal/tunnel/openvpn.go:127-376 | all a session has gone through in a controller run is a run from the session's start state |
| ControllerRuns.TeardownOrderInEveryRun | internal/tunnel/openvpn.go:335-376 | however Disconnect and the watcher race, each teardown step of a session occurs at most once and in order |
| ControllerRuns.NothingOpenBehindTheDevice | internal/tunnel/openvpn.go:361-376 | in every controller state, a session whose device was closed has no open socket |
| ControllerRuns.RetiredSessionEnds | internal/tunnel/openvpn.go:335-460 | a session that refuses dials has a bounded number of steps left in any controller run, and owing none means closed with every socket closed |
| ControllerRuns.AlwaysWatched | internal/tunnel/openvpn.go:127-154 | the current session always has a watcher or a goroutine about to start one |
| ControllerRuns.DeadPathIsNoticed | internal/tunnel/openvpn.go:324-347 | once a worker of the current session has reported an error, its watcher is about to start, can receive it, or has received it and can retire the session |
| Sorting.SortIsStableSort | internal/web/failover.go:25-40 | on a strict weak order the sort gives a sorted permutation with ties in input order |
| Sorting.StableSortUnique | internal/web/failover.go:25-40 | there is only one such result, so any stable library sort agrees with the model |
| Sorting.SortIgnoresInputOrder | internal/web/failover.go:25-40 | under a total order the result depends on the elements only |
| Failover.BeforeIsTotal | internal/web/failover.go:25-40 | with distinct IDs the candidate comparator is a strict total order |
| Failover.RankIsLexicographic | internal/web/failover.go:60-70 | on scores the classifier can leave, comparing ranks is comparing (strict home, available, score) |
| Failover.ConnectionCandidates | internal/web/failover.go:10-45 | the loop, sort and cut-off compute the candidate list the theorems below characterize |
| Failover.CandidatesAreTheBest | internal/web/failover.go:19-44 | a list is the candidate list if and only if it is strictly ordered, made of connectable nodes, leaves no better one out and has the right length |
| Failover.CandidatesIgnoreNodeOrder | internal/web/failover.go:19-44 | the candidate list does not depend on the order of the cache |
| Failover.MoreAttemptsExtend | internal/web/failover.go:41-44 | raising the limit only appends candidates |
| Ranking.CandidateOrder | internal/web/failover.go:25-80 | of two candidates the earlier is the purer (strict home, available, score); of two equally pure ones trusted measurements come faster first and, below 100 s, before advertised pings, smaller pings first and, below 900 s, before none; then the higher score, then the smaller ID |
| Ranking.OverflownPingLeads | internal/web/failover.go:72-80 | an advertised ping too large for the 64-bit sum comes before every trusted measurement of the same purity, against that order exactly where the measurement is at most 100 s |
| Ranking.ListedIff | internal/web/failover.go:10-58 | without a limit a node is listed if and only if it is cached, TCP, neither rejected nor unavailable, and past any deadline |
| Ranking.RequestedIff | internal/web/failover.go:11-18 | by ID at most that node is listed, and it is if and only if the cache holds it so |
| Failover.CandidatesAreConnectable | internal/web/failover.go:10-58 | every candidate, automatic or by ID, is connectable and asked for; the list is empty if and only if no such node exists |
| Failover.MarkNodeFailure | internal/web/failover.go:82-99 | the loop computes the list MarkFailureEffect describes |
| Failover.MarkFailureEffect | internal/web/failover.go:82-99 | exactly the node of that ID is cooled down until now plus cooldown; every other node, and the order, is untouched |
| Ranking.FailureOnFields | internal/web/failover.go:82-99 | on fields: status, error and, for a positive cooldown, deadline of the failed node, and nothing else anywhere |
| Failover.PreserveNodeCooldowns | internal/web/failover.go:101-119 | the two loops compute the list RefreshKeepsCooldown describes |
| Failover.CoolingByIdCorrect | internal/web/failover.go:102-107 | the index holds exactly the nodes whose cooldown has not ended |
| Failover.RefreshKeepsCooldown | internal/web/failover.go:101-119 | a fetched node is cooling if and only if the previous cache held it cooling, and then with the same deadline and error |
| Ranking.RefreshOnFields | internal/web/failover.go:101-119 | on fields: a fetched node takes status, error and deadline of its predecessor if that is still cooling and stays as fetched otherwise |
| Ranking.NewNodeIsTakenAsFetched | internal/web/failover.go:101-119 | a node the previous cache did not hold stays as fetched |
| Server.ConnectCandidateMatches | internal/web/server.go:778-828 | from an idle tunnel an attempt succeeds exactly when the handshake does and verification, where enabled, passes; success publishes that node, failure leaves the tunnel idle |
| Server.TryFromMatches | internal/web/server.go:702-737 | a candidate loop that connects leaves a snapshot naming the live session; one that fails leaves an idle tunnel idle |
| Server.PerformMatches | internal/web/server.go:369-838 | every single action keeps "a live session and a nonempty active node are the same node" |
| Server.SnapshotNamesLiveSession | internal/web/server.go:369-838 | at every action boundary of every run, with the tunnel dying anywhere, a live session with a nonempty active node is that node's |
| Server.MaintenanceFollowsTunnel | internal/web/server.go:522-604 | refresh, classification and probing leave session and counter alone and end showing the session that outlived their work, or the idle snapshot if none did |
| TunnelRuns.ControllerRefinesTunnel | internal/tunnel/openvpn.go:127-359 | in every interleaving with serial callers the controller refuses, dials, drops and loses sessions only where the server's tunnel may, and the current session is the one that leaves live |
| TunnelRuns.RunLogged | internal/web/server.go:188-838 | in every run of the server what happens to its tunnel is such a legal trace and explains the session it counts on |
| TunnelRuns.SnapshotNamesCurrentSession | internal/web/server.go:188-838 | over a controller run with the same trace, whatever its goroutines do, the server's session is the controller's current one and a nonempty active node beside it is its node |
| Server.RunsKeepGoodNodes | internal/web/server.go:369-604 | every run from fetched nodes keeps IDs distinct and scores 0, 40 or 90, with strict home at 90 and rejected at 0 |
| Server.RankInEveryRun | internal/web/failover.go:60-70 | in every such state rank comparison of cached nodes is lexicographic |
| Cooldowns.CooldownIsHonoured | internal/web/failover.go:47-119 | a node failed at t is in no candidate list computed before t plus cooldown, during or after any run, provided no fetch brings it back after dropping it |
| Cooldowns.GuardPerform | internal/web/server.go:320-604 | each single action keeps the node cooling until its deadline and out of every list it computes |
| Cooldowns.StaysCooledIff | internal/web/failover.go:101-119 | before the deadline, one fetch keeps a cooling node cooling if and only if it does not bring it back after it was gone |
| Cooldowns.RefreshStaysCooledIff | internal/web/server.go:522-548 | the same of a refresh as a whole, which is the hypothesis of CooldownIsHonoured |
| Cooldowns.AutoStaysCooledIff | internal/web/server.go:376-415 | the same of an automatic connection up to its candidates |
| Cooldowns.ReintroductionLosesCooldown | internal/web/failover.go:101-119 | a node that failed, was left out by one fetch and returned by the next is a candidate again before its deadline |
| Cooldowns.LoopOutcome | internal/web/server.go:702-737 | the candidate loop stops at the first working candidate or tries them all, and every node tried in vain is cooling |
| Cooldowns.RecoveryOutcome | internal/web/server.go:320-367 | a recovery tries distinct nodes, at most the limit, never the one that just failed within its cooldown, and ends Connected to the first that works or in Error with an idle tunnel and all tried nodes cooling |
| Handlers.ConnectTriesWhatIsAsked | internal/web/server.go:667-738 | with no live session a connect computes one list, dials at most its nodes and brings up no other: the named node alone if an ID is given and it is usable, otherwise at most one node without failover and at most the limit with it |
| Handlers.ConnectOutcome | internal/web/server.go:702-738 | it ends Connected to the first of them that connects and passes, or in Error with the tunnel idle and all of them cooling |
| Handlers.ConnectOverLive | internal/web/server.go:679-684 | with a live session nobody is dialled and that session is shown |
| Handlers.ConnectWithoutNodes | internal/web/server.go:685-691 | without nodes nothing is listed, dialled or shown |
| Handlers.AutoTriesWithinLimit | internal/web/server.go:369-436 | an automatic connection computes one list, of at most the limit, or of one node where no limit is set, dials at most its nodes and brings up no other |
| Handlers.AutoListsPrepared | internal/web/server.go:376-415 | that list is computed from the fetched nodes, graded if grading is on, then probed, then given the cooldowns of the previous cache that had not ended when the probe did |
| Handlers.AutoWithoutFetch | internal/web/server.go:376-386 | a failed fetch keeps the cache, dials nobody and shows an error |
| Handlers.PassedTick | internal/web/server.go:213-259 | a health tick over a running exit whose active node is cached and verified, or reachable where verification erred, clears the counter and leaves the exit to its own death |
| Handlers.FailedTick | internal/web/server.go:213-259 | any other check of a running exit raises the counter by one while it stays below the threshold |
| Handlers.LastTick | internal/web/server.go:213-259 | at the threshold the session is dropped, the counter cleared and, unless cancelled, one recovery made |
| Handlers.UnwatchedTick | internal/web/server.go:213-217 | without verification or a running exit the counter is cleared and nothing else done |
| Handlers.BadTicksDropExit | internal/web/server.go:188-259 | over runs: as many checks in a row as the threshold that do not pass drop a running exit, and fewer leave it running |
| Handlers.TransportTickOutcome | internal/web/server.go:208-212 | a transport tick recovers, clearing the counter, exactly when an exit is shown whose session is gone, and changes nothing otherwise |
| Handlers.RefreshOutcome | internal/web/server.go:522-548 | a refresh changes the cache only if its fetch succeeded, and then to the fetched list with the cooldowns still running when the fetch ended |
| Handlers.RefreshDialsNobody | internal/web/server.go:522-548 | a refresh makes no call on the tunnel |
| Handlers.MaintainOutcome | internal/web/server.go:550-604 | a lookup or probe replaces a nonempty cache by its own result and leaves lists and counter alone |
| Handlers.MaintainDialsNobody | internal/web/server.go:550-604 | neither makes a call on the tunnel |
| Handlers.VerifyOutcome | internal/web/server.go:613-631 | the operator's check of a cached active node shows Connected if it passed and Error if it was refuted; an error of the check, or no such node, changes no phase |
| Handlers.DisconnectOutcome | internal/web/server.go:766-776 | Disconnect drops any session, shows nothing and keeps the cache |
| ErrorSnapshots.LoopIff | internal/web/server.go:702-737 | the candidate loop ends in Error beside a live session if and only if a session was live at its start and outlived every refused attempt |
| ErrorSnapshots.ErrorBesideLiveIff | internal/web/server.go:188-838 | for every action and every death of the tunnel: Error beside a live session if and only if a refuted check or an automatic connection raised it over a surviving session, or the action left such a state alone |
| ErrorSnapshots.ErrorBesideLiveInRuns | internal/web/server.go:188-838 | in every run from start-up this state holds if and only if some action raised it and all later ones left it alone |
| ErrorSnapshots.ErrorBesideLiveIsReachable | internal/web/server.go:369-386 | a refuted check or a failed automatic fetch after one successful connection gets there |
| Scores.NinetyPointsIff | internal/classify/residential.go:76-130 | in every run, from fetched nodes or a restored cache, a cached node with 90 points is a strict home if and only if the last answered lookup since the last fetch had a usable record for its address |
| Scores.NinetyPointsAcrossRestart | internal/web/server.go:55-85 | the same of a run that begins with the cache an earlier run left, in terms of both runs' lookups |
| Scores.DemotedStaysAhead | internal/classify/residential.go:82-91 | two lookups after a fetch, a strict home without a second record is a candidate with 90 points and still comes before a candidate with 40 |
| ServerObject.AppServer.constructor | internal/web/server.go:55-85 | starts in the start state of the runs, valid if the restored nodes are good |
| ServerObject.AppServer.CooldownNode | internal/web/server.go:830-838 | the cache of the object becomes the one MarkFailureEffect describes |
| ServerObject.AppServer.ConnectCandidate | internal/web/server.go:778-828 | tunnel, snapshot and clock of the object after one attempt are those ConnectCandidateMatches describes |
| ServerObject.AppServer.TryCandidates | internal/web/server.go:702-737 | the loop on the object is the loop LoopOutcome and LoopIff are about |
| ServerObject.AppServer.RecoverExit | internal/web/server.go:320-367 | keeps the object valid and is the recovery RecoveryOutcome is about |
| ServerObject.AppServer.Connect | internal/web/server.go:667-738 | keeps the object valid and is the connect action of the runs |
| ServerObject.AppServer.PrepareNodes | internal/web/server.go:376-415 | the cache becomes the fetched, graded and probed list with the cooldowns of the previous one |
| ServerObject.AppServer.AutoConnectExit | internal/web/server.go:369-436 | keeps the object valid on a good fetch and is the automatic connection of the runs |
| ServerObject.AppServer.RefreshNodes | internal/web/server.go:522-548 | keeps the object valid on a good fetch and is the refresh of the runs |
| ServerObject.AppServer.ClassifyNodes | internal/web/server.go:550-574 | keeps the object valid and is the classification of the runs |
| ServerObject.AppServer.ProbeNodes | internal/web/server.go:576-604 | keeps the object valid and is the probe of the runs |
| ServerObject.AppServer.ActiveNode | internal/web/server.go:1014-1028 | found exactly when the active ID is nonempty and in the cache |
| ServerObject.AppServer.VerifyExit | internal/web/server.go:613-631 | keeps the object valid and is the operator's check of the runs |
| ServerObject.AppServer.Disconnect | internal/web/server.go:766-776 | keeps the object valid and is the disconnect of the runs |
| ServerObject.AppServer.TransportTick | internal/web/server.go:208-212 | keeps the object valid and is the transport tick of the runs |
| ServerObject.AppServer.CheckHealth | internal/web/server.go:213-226 | counts as the monitor's counter does and gives up exactly when the monitor would |
| ServerObject.AppServer.HealthTick | internal/web/server.go:213-230 | keeps the object valid and is the health tick of the runs |
| Monitor.MonitorExit | internal/web/server.go:188-232 | the loop reacts to each tick as the characterized sequence says |
| Monitor.CounterIsRestOfStreak | internal/web/server.go:203-229 | the counter is below the threshold at every loop head and is the remainder of the current run of failures |
| Monitor.DisconnectsExactlyOnStreaks | internal/web/server.go:213-229 | the health branch disconnects exactly when a failed check ends a streak whose length is a multiple of the threshold |
| SkipMachine.Walk | internal/tunnel/ovpn_config.go:114-149 | the loop with its two skip variables keeps the lines the machine's definition keeps |
| SkipMachine.DropTail | internal/tunnel/ovpn_config.go:150-152 | exactly the blank lines at the end are dropped |
| SkipMachine.CleanedBetween | internal/tunnel/ovpn_config.go:119-152 | for any rules: of lines between clean ones and a clean tail stay the kept ones, and the tail unless they leave a block open that nothing closes |
| SkipMachine.KeptNothingIff | internal/tunnel/ovpn_config.go:119-149 | nothing is kept exactly when every line is reached in a skip mode or is removed itself |
| Sanitizer.SanitizeOpenVPNConfig | internal/tunnel/ovpn_config.go:114-160 | the whole sanitizer computes the function the lemmas below are about, error included |
| Sanitizer.HasContent | internal/tunnel/ovpn_config.go:153-158 | true exactly when some line is neither blank nor a comment |
| Sanitizer.OutputIsHarmless | internal/tunnel/ovpn_config.go:114-171 | no output line names a removed directive or opens a credential block |
| Sanitizer.SanitizeIsIdempotent | internal/tunnel/ovpn_config.go:114-160 | sanitized text is a fixed point of sanitizing |
| Sanitizer.OutputIsSubsequence | internal/tunnel/ovpn_config.go:114-160 | output lines are right-trimmed input lines in input order |
| SanitizedText.TagOpensIff | internal/tunnel/ovpn_config.go:127-133 | a line `<name ..>`, in any case, with blanks before the name and anything behind it, opens a block to be skipped if and only if the name is `auth-user-pass` or `http-proxy-user-pass` |
| SanitizedText.NoTagOpensNothing | internal/tunnel/ovpn_config.go:127-133 | a line not in angle brackets opens none |
| SanitizedText.OpenCredentials | internal/tunnel/ovpn_config.go:121-133 | reached outside a skipped block, nothing of such a block is kept up to its closing tag, or to the end of the profile if there is none |
| SanitizedText.CredentialsVanish | internal/tunnel/ovpn_config.go:121-133 | once it is closed the sanitizer goes on in the mode it had before the block |
| SanitizedText.BlockMakesNoDifference | internal/tunnel/ovpn_config.go:114-160 | a profile with such a block sanitizes to what it would without it |
| SanitizedText.NoCredentialsInOutput | internal/tunnel/ovpn_config.go:114-160 | no output line is such an opener |
| SanitizedText.RemovedIff | internal/tunnel/ovpn_config.go:11-53 | a line whose first word, in any case and with or without two dashes, is a given directive is removed for its name if and only if that is one of the 38 that run commands, load code, set credentials or relays, or open the management interface |
| SanitizedText.NoForbiddenInOutput | internal/tunnel/ovpn_config.go:114-171 | no output line is one of these directives |
| SanitizedText.DirectiveMakesNoDifference | internal/tunnel/ovpn_config.go:134-146 | a profile with such a directive, not continued, sanitizes to what it would without it |
| SanitizedText.ContinuationVanishes | internal/tunnel/ovpn_config.go:134-146 | with a backslash at its end it takes the next line along, and that one in turn the one behind it |
| SanitizedText.OtherDirectiveStays | internal/tunnel/ovpn_config.go:138-149 | every other directive reached outside both skip modes is kept where it stands |
| SanitizedText.OutputIsTrimmed | internal/tunnel/ovpn_config.go:149-149 | an output line is an input line less exactly the spaces and tabs at its end |
| SanitizedText.FailsIff | internal/tunnel/ovpn_config.go:153-160 | sanitizing fails if and only if every line left is blank or a comment |
| Renderer.BuildManagedLines | internal/tunnel/ovpn_config.go:69-110 | the first failing check decides the error; otherwise all managed lines in order |
| Renderer.RenderOpenVPNConfig | internal/tunnel/ovpn_config.go:64-112 | clean text followed by the managed lines, or the first error |
| ManagedProfile.AcceptedIff | internal/tunnel/ovpn_config.go:64-110 | which options are accepted, on their fields, and which complaint is raised first |
| ManagedProfile.LinesAdded | internal/tunnel/ovpn_config.go:76-110 | how many lines are added, and that credentials, proxy and DNS lines are among them where asked for |
| ManagedProfile.RouteOf | internal/tunnel/ovpn_config.go:99-110 | the last lines are one route for each bypass address, in order, by way of `net_gateway` and to that address alone |
| ManagedProfile.ProxyWords | internal/tunnel/ovpn_config.go:82-95 | the proxy line names the host and, read as a number, the port |
| ManagedProfile.AuthPathIsQuoted | internal/tunnel/ovpn_config.go:79-79 | the auth path stands in quotation marks, no mark inside it is unescaped, and unescaped it is the path |
| ManagedProfile.AuthLineIsQuoted | internal/tunnel/ovpn_config.go:79-79 | the credentials line is the directive and something in quotation marks, for every path |
| ManagedProfile.UnescapeInverts | internal/tunnel/ovpn_config.go:173-175 | for every path, replacing escaped marks by marks undoes the escaping |
| RenderedProfiles.SanitizeRendered | internal/tunnel/ovpn_config.go:64-160 | for every auth path, what sanitizing gives back of a rendered profile: the clean lines, the note, the pieces of the auth line that stay, and the tail without its replaced directives unless a piece leaves a credential block open |
| RenderedProfiles.SanitizeRenderedIff | internal/tunnel/ovpn_config.go:64-160 | it leaves exactly the notes, `auth-nocache` and the bypass routes if and only if every piece of the auth line is skipped or removed and no block stays open, or the pieces swallow the tail and write its lines themselves |
| RenderedProfiles.OneLinePathVanishes | internal/tunnel/ovpn_config.go:76-81 | a path without line breaks meets that condition, so every managed line that is a replaced directive is stripped, and nothing else |
| RenderedProfiles.TwoPiecesVanishIff | internal/tunnel/ovpn_config.go:76-146 | a path with one line feed meets it exactly when a backslash ends the first half or the second half names a removed directive |
| RenderedProfiles.BrokenPathStays | internal/tunnel/ovpn_config.go:76-149 | under all other options, the path `a`, line feed, `b` leaves its second half behind as a line |
| RenderedProfiles.OpeningPathSwallows | internal/tunnel/ovpn_config.go:121-133 | a path with the opener of a credential block on a line of its own loses every managed line behind it |
| RenderedProfiles.OpeningPathExists | internal/tunnel/ovpn_config.go:121-133 | such a path, under all other options |
| RenderedProfiles.ImitatingPathExists | internal/tunnel/ovpn_config.go:121-149 | a path of the second kind the condition admits |
| Remote.ParseRemote | internal/source/vpngate.go:192-217 | the loop returns the endpoint of the first complete remote line and the protocol in force there |
| EndpointText.RemoteStatement | internal/source/vpngate.go:203-214 | a line whose first word is `remote`, in any case and with or without two dashes, names its second word as host, its third as port and its fourth, if any, as protocol |
| EndpointText.ProtoStatement | internal/source/vpngate.go:203-205 | such a `proto` line sets the protocol its second word says |
| EndpointText.OtherLines | internal/source/vpngate.go:195-204 | comments, other directives and statements with too few words say nothing |
| EndpointText.FirstRemoteDecides | internal/source/vpngate.go:192-217 | the first remote line decides host and port; the protocol is its own or that of the last proto line before it |
| EndpointText.ProtocolIs | internal/source/vpngate.go:219-228 | a word means TCP if and only if those letters stand in it somewhere in any case, and UDP if and only if those do and the others do not |
| EndpointText.AtoiReads | internal/source/vpngate.go:208-208 | a number printed in decimal is read back, with either sign, up to the ends of 64 bits |
| EndpointText.AtoiRejects | internal/source/vpngate.go:208-208 | any other character behind the optional sign makes the port 0 |
| EndpointText.UnquoteCuts | internal/source/vpngate.go:207-207 | quotation marks around a host are cut off, all of them and nothing else |
| Remote.SanitizePreservesEndpoint | internal/source/vpngate.go:192-217 | host, port and protocol survive sanitizing when no carriage return stands alone and no skipped part hides a remote or proto line before the deciding one |
| Remote.SanitizedEndpoint | internal/tunnel/ovpn_config.go:114-160 | for every profile, host, port and protocol after sanitizing are those the parser reads off the unskipped lines of the normalized text |
| Remote.UnskippedAt | internal/tunnel/ovpn_config.go:121-149 | a line counts there exactly when the machine reaches it outside both skip modes |
| Remote.ReadingAtDeciding | internal/source/vpngate.go:192-217 | what the parser returns stands at the first naming line: its host and port, and its own protocol or the last one set before it |
| Remote.EndpointSurvivesIff | internal/source/vpngate.go:192-217 | for every profile, host, port and protocol survive sanitizing if and only if the deciding line of the text and the deciding one of its unskipped normalized lines agree on them |
| Remote.SanitizedNamesNone | internal/tunnel/ovpn_config.go:114-160 | a profile whose normalized lines name no address names none after sanitizing, whatever was read before |
| Remote.OpenerHasNoEffect | internal/tunnel/ovpn_config.go:127-133 | a line that opens a credential block never names an endpoint |
| Remote.RemovedHasNoEffect | internal/tunnel/ovpn_config.go:138-146 | a removed directive never names an endpoint |
| EndpointExamples.HiddenEndpointIsLost | internal/tunnel/ovpn_config.go:121-133 | for every host and port, a remote line inside a credential block is read by the source parser and lost by sanitizing |
| EndpointExamples.LoneCrLosesEndpoint | internal/tunnel/ovpn_config.go:115-119 | for every host and port, a remote line with a lone carriage return in it is read by the source parser and lost by sanitizing |
| EndpointExamples.LoneCrRevealsEndpoint | internal/tunnel/ovpn_config.go:115-119 | for every host and port, a remote line after a lone carriage return is invisible before sanitizing and visible after |
| Base64.DecodeOfEncode | internal/source/vpngate.go:185-188 | the decoder inverts the encoding of section 4 of RFC 4648 |
| Base64.QuantumIsBigEndian | internal/source/vpngate.go:185-188 | the encoding it inverts writes three bytes as the four base-64 digits of the 24-bit number they spell |
| Base64.StandardVectors | internal/source/vpngate.go:185-188 | and agrees with test vectors of section 10 of RFC 4648 |
| Base64.SignVector | internal/source/vpngate.go:185-188 | the last two characters of the alphabet are `+` and `/` |
| Base64.EncodeInGroups | internal/source/vpngate.go:185-188 | groups of three bytes are encoded one after the other |
| Base64.DecodeConfigInvertsEncode | internal/source/vpngate.go:177-190 | an encoding with white space anywhere and any trailing padding lost decodes to the bytes less one byte-order mark |
| Base64.DecodeConfigRejects | internal/source/vpngate.go:177-188 | blank text, and unpadded text one character past a quantum, are errors |
| Source.Fetch | internal/source/vpngate.go:86-102 | the loop over the rows and the cut-off compute the list the lemmas below are about; no usable row is an error |
| Source.FirstByIdCorrect | internal/source/vpngate.go:86-98 | deduplication keeps exactly the first row of every ID |
| Source.KeptInOrder | internal/source/vpngate.go:86-98 | the rows kept stay in the order of the list |
| Source.RowAcceptedIff | internal/source/vpngate.go:130-175 | a row becomes a node if and only if its address is public and its profile decodes and names that address, a port from 1 to 65535 and TCP or UDP; the node carries these and the row's country, score and ping |
| Source.FetchedIff | internal/source/vpngate.go:54-102 | fetching fails if and only if no row is usable; a positive limit keeps the first so many nodes |
| Source.FetchedIsFresh | internal/source/vpngate.go:54-175 | a fetched list has distinct IDs, no cooldown, no latency and score 0, and comes from rows whose profile names the node's own address |
| Classify.ClassifyNodes | internal/classify/residential.go:55-132 | the loops compute the list ClassifiedKeeps and NinetyPointsIff are about, the last record of an address winning |
| Classify.ClassifiedKeeps | internal/classify/residential.go:55-132 | the score discipline is kept; identity, status, cooldown and latency are untouched |
| Classify.VerdictOfRecord | internal/classify/residential.go:76-130 | a node with a successful record is rejected with 0 points if the record says proxy, hosting, mobile or a denied word, else a strict home with 90 on an allowed word, else a candidate with 40 |
| Classify.VerdictWithoutRecord | internal/classify/residential.go:82-91 | one without is a candidate with the points it had |
| Classify.VerdictWithoutReply | internal/classify/residential.go:60-75 | a failed lookup only makes ungraded nodes candidates |
| Probe.CeilIsLeast | internal/probe/tcp.go:100-105 | the least positive number of whole milliseconds covering the duration |
| Probe.MedianSplits | internal/probe/tcp.go:84-86 | the latency is one of the samples and at least half of them lie on each side of it |
| Probe.ProbeNodeMeasures | internal/probe/tcp.go:46-92 | a node is available exactly when it is TCP and some dial succeeded, exactly when it has a latency, and that is the median and at least 1 ms |
| Probe.ProbeMeasures | internal/probe/tcp.go:46-92 | with a successful dial, on counts of dials: the latency has a strict majority of the samples at or below it and at least half at or above it, and is suspicious if and only if the host is public and it is below 5 ms |
| Probe.ProbeFails | internal/probe/tcp.go:74-83 | without one the node is unavailable, with no latency and the last dial's error |
| Probe.ProbeSkipsUdp | internal/probe/tcp.go:51-57 | a node that is not TCP is not dialled and its status is unknown |
| Probe.MarkBatchLatencyAnomaly | internal/probe/tcp.go:112-138 | the in-place rule turns the array into the marked batch the two lemmas below are about |
| Probe.MarkBatchOnFields | internal/probe/tcp.go:112-138 | all measured public nodes are marked if at least 10 are measured, in two or more countries, and 60 percent of them below 15 ms; otherwise nothing changes |
| Probe.MarkBatchIsIdempotent | internal/probe/tcp.go:112-138 | marking twice is marking once |
| Probe.AnomalousOrderIgnoresLatency | internal/web/failover.go:72-80 | two anomalous batches that differ only in measured latencies give the same candidate order |
| ProbePool.EveryRunKeepsInv | internal/probe/tcp.go:40-96 | under every schedule the semaphore counts the workers inside and each slot is what its own worker's progress dictates |
| ProbePool.AtMostLimitInside | internal/probe/tcp.go:38-45 | at most `limit` workers are inside the semaphore |
| ProbePool.ScheduleDoesNotMatter | internal/probe/tcp.go:24-98 | every finished schedule gives the sequential per-node result with the batch rule applied |
| ProbePool.PoolNeverStuck | internal/probe/tcp.go:40-95 | until all workers are done one can move |
| ProbePool.PoolTerminates | internal/probe/tcp.go:40-95 | no schedule is longer than the work at the start |
| ProbePool.ProbedKeeps | internal/probe/tcp.go:24-98 | probing keeps identity, cooldown and scores, and available means having a latency |
| Diagnostics.DiagnosticCandidates | cmd/rim/main.go:202-217 | filter and stable sort compute the list DiagnosisAfterProbe is about |
| Diagnostics.ComparatorCanCycle | cmd/rim/main.go:202-217 | three nodes that pass the filter, one without latency, on which the comparator runs in a circle and is no order |
| Diagnostics.WeakOrderIff | cmd/rim/main.go:209-215 | the comparator is a strict weak order on a list if and only if no unmeasured score lies between those of a faster and a slower node |
| Diagnostics.DiagnosisAfterProbe | cmd/rim/main.go:202-217 | after a probe the diagnostic list is the sorted stable permutation of the available TCP nodes |
| Diagnostics.DiagnosisOrder | cmd/rim/main.go:209-215 | of two nodes of that list the earlier is faster or, at the same latency, has no smaller score |
| Diagnostics.DiagnosisMembers | cmd/rim/main.go:202-208 | the list holds exactly the available TCP nodes |

## Left out

Assumptions:

- Serial handlers: the failover theorems are about actions that do not overlap. The handlers read, compute and write without one lock, so nothing is claimed for overlapping ones, and in particular not that a cooldown survives them.
- Disconnect during a Connect in flight does not cancel it; "no session after Disconnect" is not claimed.
- Dials: a successful network dial returns a socket never seen before, a failed one leaves none open, and a cancelled one comes back.
- Bridge workers stop, with or without an error, once the VPN and the device are closed.
- Nodes restored from disk at start-up satisfy what `Server.RunsKeepGoodNodes` establishes for the lists the program itself produced; fetched nodes satisfy `Source.FetchedIsFresh`.

Stated weaker than one might:

- Remote.SanitizePreservesEndpoint: gives a sufficient condition in terms of what is hidden; the exact one is Remote.EndpointSurvivesIff.
- Cooldowns.CooldownIsHonoured: gives a sufficient condition on the fetches of a run; exact for each fetch are Cooldowns.RefreshStaysCooledIff and Cooldowns.AutoStaysCooledIff.
- Ranking.CandidateOrder: is about advertised pings whose sum with 100,000 fits 64 bits; Ranking.OverflownPingLeads says what the others do.
- ManagedProfile.RouteOf: is about addresses printed without white space, as every printed address is.
- TunnelRuns.SnapshotNamesCurrentSession: relates a server run to the controller runs with its trace; that the server's calls and gaps can be chosen to match any given serial controller run is not stated.

Not modelled:

- The OpenVPN handshake, the network stack, the xray core and all HTTP calls; their outcomes are inputs.
- Routing, login, cookies, pages and JSON of the web server.
- Configuration checks, service templates, the JSON files on disk, the formatting of VMESS links, and starting and stopping the proxy core: flat field checks, text and files.
- Exit verification beyond its verdict, and the exit address, metadata, messages, log lines and packet counters.
- Timestamps other than cooldown deadlines.
- Parsing of CSV text and IP addresses, decoding bytes to text, the clean-up of IDs, and keyword matching in the classifier; whether an address is public, which texts denote it, and whether a keyword matches are inputs.
- Invalid UTF-8, and lower-casing of letters whose lower case is not ASCII; slash conversion of the auth path and the default of the target system in rendering.
- Integer width, except in the latency rank and in the port number; ranks of nodes with arbitrary scores are not wrapped.
- The texts of probe errors, which are abbreviated, and the texts of rendering errors, which are constructors.
- Sharing of slices between copies of node lists: lists are values, except in the batch rule, which works in place.
