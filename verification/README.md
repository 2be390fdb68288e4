# Verification of autodeploy-web

A Dafny model of the parts of autodeploy-web that have to be right whatever fails and in whatever order things
happen, with proofs. `dafny verify dfyconfig.toml` checks the whole project.

Four parts of the program are modelled.

* **Wiring.** `Topology`, `Catalogue`, `Naming`, `Vbr` (the backup server as an abstract state), `FanOut` (workers, four
  slots, first-error cell, cancellation, result list as a state machine whose steps the scheduler, the network
  and the server choose), `FanOutInvariant`, `FanOutSteps`, `FanOutTheorems`,
  `FanOutProgress`, `Bodies` (the client's request bodies), `Wire` (license, mount server,
  fan-out, configuration backup, default repository, cluster, advanced settings, as a client that records every changing call),
  `TokenRefresh`, `Retries`, `Base64`, `License`.
* **Deployments and jobs.** `Deployment` (one run against a hypervisor whose operations may fail, with
  cancellation arriving at any moment), `LogHub` (bounded buffer and live channels), `Retention` (pruning and
  restart), `JobPool` (workers behind a semaphore).
* **Keystrokes.** `Text`, `BootCommand`, `KernelLine` (the installer's reading of the boot line), `Keystrokes` (tokens and a model US keyboard), `HyperV`, `VSphere`,
  `Vnc` (the three translations, each read back by a decoder of its own).
* **The planner and its printers.** `Decimal`, `Shell`, `PowerShell`, `Literals`, `Planner`, `PlanVariables`,
  `PlanSafety`, `PlanExecution`, `PlanRefinement`, `PlanRepeats`, `PlanCluster`,
  `PlanMirror`.

Loops and objects keep the program's form: methods with invariants, classes whose methods are the program's
atomic sections, each tied to a specification function or to the whole new state. Concurrency is an arbitrary
sequence of steps; a step that is not enabled leaves the state alone, so a theorem about every sequence is a
theorem about every interleaving.

## What the proofs found

Where a promise does not hold of the code as it stands, the model keeps the code and states exactly when it
does.

* A nil error from the fan-out does not mean every node is wired: a worker that sees the cancelled context
  before its first call returns silently, and for every topology there is a schedule in which all do
  (`FanOutTheorems.NilErrorWithoutWiring`); exactly the nodes of those workers stay as they were
  (`NilErrorExactly`). With one VSA or none and no advanced settings the whole wiring then reports success; the
  contracts of `Wire.WireDeployment` and `Wire.WireStandalone` carry that exception.
* The planner emits no step for a VIA node that is neither hardened repository nor proxy, although the wiring
  registers its host (`PlanRefinement.PlanWiresExactly`).
* The planner falls back to the address for a node without a hostname, the wiring does not: repository names
  agree exactly when every hardened-repository node has a hostname (`PlanRefinement.NamesAgreeExactly`).
* The generated script adds a proxy without looking for one: it leaves no host with two exactly when no proxy
  node had one (`PlanRepeats.OneProxyExactly`), and a second run adds one for each proxy node and changes nothing else
  (`PlanRepeats.SecondRunExactly`). The comment on the step says "mirroring" the wiring; the code differs.
* The generated script deletes the default repository without deleting its backups first and fails when there
  is none; the wiring handles both (`PlanCluster.ClusterPlanExactly`).
* The wiring refuses an empty cluster endpoint because the server requires one within a subnet; the planner leaves
  it out of the call and goes on, so the script fails at its last step
  (`PlanCluster.ClusterPlanExactly`, `Wire.WireDeployment`).
* The planner's bodies are said to mirror the live client's. They do for the license, the cluster and syslog
  (`PlanMirror.ClusterPartMirrors`); not when a basic-auth login is set for node_exporter, whose type is left out
  (`PlanMirror.ExporterMirrorsExactly`), nor when an S3 endpoint has no scheme, which only the client adds, or when
  the store's mount server is named: the planner looks it up by name, the wiring by address
  (`PlanMirror.StoreMirrorsExactly`, `PlanMirror.StoreMountsAgreeExactly`).
* The planner emits a call that reads the license, and installs the license whatever it answers; the wiring skips
  the installation when a license is valid (`PlanMirror.LicenseMirrors`, `Wire.Client.InstallLicense`).
* An IPv6 address does not survive the kernel argument: a static network is read right exactly when no setting holds
  a colon (`KernelLine.AddressReadsBackExactly`).
* A plan for two VSAs without a hardened repository reads `$repo0_id`, which nothing sets
  (`PlanSafety.DefinedBeforeUse`).
* The planner looks the mount server up by address only, the wiring by address and then by name. They agree
  exactly unless the primary VSA is registered by its name only (`PlanRefinement.MountsAgreeExactly`); then the
  repositories differ as soon as one is new (`PlanRefinement.PlanRefinesVsaWiring`).
* Two hardened repositories can get one name, exactly when a hostname spells another node's shared hostname with
  its address (`Naming.NamesCollideExactly`).
* License normalisation is idempotent exactly when the decoded content is neither empty nor begins with a
  byte-order mark (`License.IdempotentExactly`).
* The bare-variable test of the PowerShell printer accepts more than the documented pattern: exactly the
  strings in which a word character follows an index (`PowerShell.DocumentedExactly`).
* Strings that spell `$true`, `$false` or `$null` are printed as the constants (`Literals.ConstantsCollide`), and
  that is the only confusion (`Literals.PrintsAlikeExactly`). PowerShell ignores the case of the constants, so
  `$TRUE` is one too.
* Only the apostrophe is doubled in strings, and nothing in map keys, while PowerShell takes U+2018 to U+201B for
  single quotes too. A string such as `O’B` is cut short at its typographic quote
  (`Literals.TypographicQuoteCuts`), and `$a[0]c` is printed bare and rejected (`Literals.UnseparatedIsRejected`).
  `Literals.ReadsBackExactly` says which values PowerShell reads back.
* A stop requested before the run has published its cancel function is lost, and asking again does not help
  (`Deployment.LostStop`).
* A line is sent on a closed channel exactly when its subscriber has left since the line was appended
  (`LogHub.Hub.SendNext`, with the run in `LogHub.SendAfterLeaving`). Such a send panics: the `default` branch of
  the select does not protect it, since a send on a closed channel is ready at once.
* A job is terminal, and may be deleted or pruned, before its worker's last save; that save brings the deleted
  record back (`JobPool.DeletedStaysExactly`).
* A job canceled while queued at shutdown is never saved again, so a restart reports it as failed, not as
  canceled (`JobPool.Manager.StoredStates`, `Retention.Normalised`).
* The cap is not yet known when stored deployments are loaded, so loading prunes nothing in spite of the comment
  there; setting the cap afterwards does (`Retention.Start`).

## Model

| member | source | states |
|---|---|---|
| Topology.Scan | internal/craftapi/craftapi.go:159-176 | the window-by-window role scan finds a substring exactly when it occurs, as the wiring's library test does |
| Catalogue.LabelsMean | internal/topology/topology.go:15-25 | what the program's own role labels mean: VSA is the backup server, VIA-HR a hardened repository, VIA-Proxy a proxy |
| Catalogue.OfferedNodesHaveDuties | internal/topology/topology.go:90-112 | in every topology on offer each node is a VSA, a hardened repository or a proxy, a pair of VSAs comes with a hardened repository, and only the two standalone ones have no VSA |
| Naming.CountNames | internal/wiring/wiring.go:276-282 | the count map holds exactly the names of hardened-repository nodes, each with its number of nodes |
| Naming.RepoNamesAreInjective | internal/wiring/wiring.go:358-364 | with dot-free hostnames and distinct dotted addresses, hardened repositories get pairwise distinct names |
| Naming.RepoNameIsNotDefault | internal/wiring/wiring.go:361-364 | no hardened repository is named like the default repository |
| Naming.NamesCollideExactly | internal/wiring/wiring.go:358-364 | whatever the hostnames, two hardened repositories with distinct hyphen-free addresses get one name exactly when one hostname is shared, the other is not, and the other spells the shared one with its node's address |
| Naming.DottedHostnameCollides | internal/wiring/wiring.go:361-364 | its smallest instance: three nodes, a shared hostname and one that spells it with an address |
| FanOut.PickLowest | internal/wiring/wiring.go:423-432 | the loop over the results returns the identifier recorded for the lowest node index, whatever the order of arrival |
| FanOutSteps.NextKeepsInv | internal/wiring/wiring.go:308-417 | every step of any worker, the server, the caller or a restart keeps the invariant: no duplicates, nothing unwanted, every worker's knowledge true, slots and errors accounted for |
| FanOutTheorems.ResumableConvergence | internal/wiring/wiring.go:273-433 | after any interleaving with any number of crashes and re-runs, success means exactly one host per node, one repository per name, one proxy per proxy node, exactly the wanted content, and every earlier entry unchanged |
| FanOutTheorems.HistoriesAgree | internal/wiring/wiring.go:273-433 | two successful histories from one server leave the same content, however either was interrupted |
| FanOutTheorems.ScheduleIndependentResult | internal/wiring/wiring.go:423-432 | on success the returned identifier is the repository of the lowest-index hardened node, or empty if there is none, in every schedule |
| FanOutTheorems.NilErrorExactly | internal/wiring/wiring.go:313-321 | after a nil error a node is wired exactly when its worker finished or the node was wired at launch; a worker that did not finish has quit and the caller has cancelled |
| FanOutTheorems.NilErrorWithoutWiring | internal/wiring/wiring.go:313-317 | for every topology, a caller that cancels before the first slot is taken gets a nil error and an untouched server |
| FanOutTheorems.AtMostFourHold | internal/wiring/wiring.go:284-318 | in every interleaving at most four workers hold a slot, and a waiting worker can take one exactly when fewer do |
| FanOutTheorems.FirstErrorWins | internal/wiring/wiring.go:299-306 | the first recorded error is never replaced and cancellation is never undone within a run |
| FanOutTheorems.LateWorkerIsSilent | internal/wiring/wiring.go:313-321 | a worker that has not passed its cancellation test when the run is cancelled never makes a call |
| FanOutTheorems.NeverStuck | internal/wiring/wiring.go:308-418 | in every reachable state before all workers have ended some worker can move |
| FanOutTheorems.RunIsBounded | internal/wiring/wiring.go:273-452 | a run takes at most 21 worker steps per node, component retries included |
| FanOutProgress.NoErrorWithoutFailure | internal/wiring/wiring.go:308-417 | over every interleaving with any number of restarts, whatever was registered before, no error is recorded unless a call fails or a node has no address |
| FanOutProgress.UndisturbedRunSucceeds | internal/wiring/wiring.go:273-433 | so a run without failure and cancellation whose workers have ended has succeeded |
| FanOutProgress.CanSucceed | internal/wiring/wiring.go:308-417 | from every reachable state in which nothing has gone wrong the run can be brought to success |
| FanOutProgress.RerunSucceeds | internal/wiring/wiring.go:273-433 | whatever an interrupted run has left on the server, a further run without restart or cancellation can succeed, and leaves exactly what the topology called for at the very start |
| FanOutProgress.SuccessIsPossibleExactly | internal/wiring/wiring.go:318-326 | from any server, some run succeeds exactly when every node has an address |
| FanOutProgress.TwoRefusalsAreRetried | internal/wiring/wiring.go:439-452 | in every run a creation refused for its host's components is asked for again, after a component update, the first two times and never a third |
| Wire.Client.ResolveMountServer | internal/wiring/wiring.go:245-262 | the identifier returned belongs to the first candidate that resolves: every earlier one, and every one when nothing is returned, is empty, unknown or had its lookup fail |
| Wire.AnsweredResolves | internal/wiring/wiring.go:245-262 | when every lookup is answered that is the host of the first candidate that has one |
| Wire.Client.WireNodes | internal/wiring/wiring.go:273-433 | the fan-out as one call: success without cancellation leaves exactly the expected content and returns the first hardened repository; it fails only if a call of the fan-out fails or a node has no address, and succeeds uncancelled only if all have one |
| Wire.Client.RedirectConfigBackup | internal/veeam/veeam.go:385-398 | success means the target is the repository; SNMP notifications go off with the change and nothing is written when the target is already right |
| Wire.Client.RemoveDefaultRepository | internal/wiring/wiring.go:632-658 | only the default repository and backups of it can go; success means it is gone with all its backups and every other repository is there; it is deleted only when empty and never while the configuration backup goes to it |
| Wire.Client.CreateHA | internal/wiring/wiring.go:701-743 | the cluster call is made only on a ready server; success means the calls were exactly these, in order: credentials, the secondary's certificate fetched with them, the cluster of primary and secondary with that certificate, the configured name or the primary's, and the endpoint |
| Wire.Client.InstallLicense | internal/wiring/wiring.go:612-628 | the license is posted unless one is valid, and success leaves a valid one |
| Wire.FinishHA | internal/wiring/wiring.go:214-231 | redirection, removal, cluster in that order: success leaves the wired server with the configuration backup on the identifier given, the default repository gone and the cluster standing, and needs an endpoint and a secondary address; without a hardened repository only the cluster changes; without a failed request it succeeds unless one of these is missing |
| Wire.FindStoreMount | internal/wiring/wiring.go:511-538 | the object store is pinned to the host of the first node with the configured name, found by its address, and to none when that fails |
| Wire.ApplyAdvanced | internal/wiring/wiring.go:490-600 | success means the calls made were exactly those of the configured settings, in order: node_exporter, syslog, cloud credentials, folder, repository, with the client's bodies |
| Wire.WireDeployment | internal/wiring/wiring.go:173-238 | in every run, whatever fails, each call is safe where it was made: redirection to the first hardened repository only, deletion of an empty default repository only, the cluster call only after all of that; the hardened repositories are pinned to the host the search for the primary VSA's address, then name, finds; success that was not cancelled leaves exactly the topology's content, each entry once, less the default repository when that was removed; success ends with the cluster's calls, if there are two VSAs, and those of the advanced settings; with one VSA the server's own settings stay; an uncancelled run in which no request and no step of the fan-out fails succeeds exactly when every node has an address and, with two VSAs, there is an endpoint |
| Wire.WireStandalone | internal/wiring/wiring.go:137-174 | wiring into an existing server never touches license, configuration backup, backups, default repository or cluster; the hardened repositories are pinned to the host the search for the target finds; success that was not cancelled leaves exactly the topology's content, each entry once, and ends with the calls of the advanced settings; an uncancelled run in which nothing fails succeeds exactly when there is a target and every node has an address |
| TokenRefresh.OneRefreshPerToken | internal/veeam/veeam.go:127-186 | over every interleaving each token value causes at most one refresh, when the server never issues a token twice |
| TokenRefresh.RetryCarriesAnotherToken | internal/veeam/veeam.go:156-163 | a retry never carries the rejected token |
| TokenRefresh.RejectedIsRetried | internal/veeam/veeam.go:113-166 | a request that is over was sent a second time exactly if it got a 401 and its grant was not refused; only a refused grant ends it without a renewed token |
| TokenRefresh.NeverGivesUp | internal/veeam/veeam.go:113-166 | over every interleaving in which no grant is refused, a request that got a 401 is over only after a second request |
| TokenRefresh.UndisturbedRefresh | internal/veeam/veeam.go:156-186 | undisturbed, a request rejected with the current token asks for one grant and is sent again with exactly the token granted, which the client keeps |
| TokenRefresh.ReplacedMeanwhile | internal/veeam/veeam.go:179-186 | a request rejected with a token replaced meanwhile asks for none and is sent again with the replacement |
| TokenRefresh.SomeoneCanMove | internal/veeam/veeam.go:113-186 | in every reachable state some request that is not over can go on |
| TokenRefresh.StepLowersRank | internal/veeam/veeam.go:113-186 | every step takes its request closer to its end and leaves the others alone, so a call takes at most nine |
| TokenRefresh.RequestIsBounded | internal/veeam/veeam.go:118-172 | one call costs at most two requests and one password grant |
| TokenRefresh.RefreshIsExclusive | internal/veeam/veeam.go:179-186 | at most one request is inside the refresh section |
| Retries.WaitSession | internal/veeam/veeam.go:213-247 | the first of three events ends the wait, and nothing else does: an answer that decides (nil only for Success, Warning, or Stopped without Failed), the deadline passed, the caller giving up; the time waited is that of the requests and one interval between them; at most timeout/poll + 2 polls |
| Retries.CompletedMeans | internal/veeam/veeam.go:209-237 | a session is reported complete exactly on a good result, or when it stopped without a failed one |
| Retries.RetryS3 | internal/wiring/wiring.go:469-485 | the loop computes the recursive specification: transient errors are retried up to five attempts |
| Retries.KnownErrors | internal/wiring/wiring.go:441-464 | an error is retried for the texts it is meant for, whatever stands around them |
| Retries.CreateWithComponents | internal/wiring/wiring.go:439-452 | around the retry loop: between 1 and 15 POSTs and at most two component updates |
| Retries.CreationReturnsLastError | internal/wiring/wiring.go:439-485 | what is returned is the outcome of the last POST, and every earlier one failed for a reason that is retried |
| Retries.CreationStopsOnlyThen | internal/wiring/wiring.go:439-485 | a creation that is not given up ends with a transient error only after five POSTs, and with an error about components only after two updates |
| Retries.BoundsAreReached | internal/wiring/wiring.go:439-485 | a server that keeps failing with an error that is both transient and about components costs exactly 15 POSTs and two updates |
| Base64.PaddedRoundTrip | internal/veeam/veeam.go:599-606 | decoding the canonical encoding gives the bytes back |
| Base64.PaddedOnRaw | internal/veeam/veeam.go:599-600 | the padded decoder takes an unpadded text exactly when there is nothing to pad |
| Base64.AlphabetExactly | internal/veeam/veeam.go:594 | the decoder gives a value to exactly the 64 characters the encoder writes, each its own |
| Base64.PaddedAcceptsExactly | internal/veeam/veeam.go:594 | the padded decoder accepts exactly alphabet characters padded to groups of four |
| Base64.RawAcceptsExactly | internal/veeam/veeam.go:594 | the unpadded decoder accepts exactly alphabet characters without a lone last one |
| License.WrappedContent | internal/veeam/veeam.go:590-608 | any white-space wrapping of the padded or unpadded base64 of content, with or without one encoded byte-order mark, becomes the canonical base64 of the content |
| License.LineWrappedContent | internal/veeam/veeam.go:590-608 | base64 cut into lines of any length, with any line end or an indent between them, becomes the canonical base64 of its content |
| License.RawXml | internal/veeam/veeam.go:581-589 | raw XML becomes base64 that decodes to the file without its mark and surrounding white space |
| License.OtherTextIsEncoded | internal/veeam/veeam.go:609-610 | a text that is neither XML nor accepted by either decoder becomes base64 of itself |
| License.OuterMarkIsDropped | internal/veeam/veeam.go:581-582 | one byte-order mark in front of an unmarked file changes nothing |
| License.SpaceIsUnicode | internal/veeam/veeam.go:582 | the white space trimmed is, in UTF-8, exactly the Unicode white-space characters |
| License.TrimmedExactly | internal/veeam/veeam.go:582 | trimming leaves none of them at either end |
| License.IdempotentExactly | internal/veeam/veeam.go:580-611 | normalising twice is normalising once exactly when the content is neither empty nor begins with a byte-order mark |
| License.MarksAreLostOneByOne | internal/veeam/veeam.go:600-606 | the failing inputs: a lone mark becomes an empty text, which is then refused; each pass strips one mark |
| Deployment.Run.Cancel | internal/deploy/deploy.go:889-904 | the first request cancels the context only if the cancel function is published; later ones do nothing |
| Deployment.LostStop | internal/deploy/deploy.go:581-586 | a request that comes too early is lost, and asking again does not bring it back |
| Deployment.Run.DeployNode | internal/deploy/deploy.go:702-805 | one node: media, machine, attaching, boot order, power, keys in that order; a machine is created at most once and is recorded whenever it exists, on failure too |
| Deployment.Run.TypeBootCommand | internal/deploy/deploy.go:774-793 | a run stopped before the wait for the boot menu types nothing; otherwise the keys are typed after the power-on or an error is returned |
| Deployment.Run.ResolveAddresses | internal/deploy/deploy.go:810-875 | success means every node has an address: a known one stays, any other is the answer of its own poll, and nothing else changes |
| Deployment.Run.Execute | internal/deploy/deploy.go:565-695 | every view of the run shows the nodes in sequence; it completes unless an operation fails, brings nothing or the run is stopped, and then every node is final with its machine and, if requested, the wiring succeeded on nodes that all had addresses; stopped means someone asked; a failure names its node with that node's error, or else the addresses or the wiring; the context is done exactly after a shutdown or a stop request, unless one came before the cancel function was published |
| Deployment.Run.Remove | internal/deploy/deploy.go:914-970 | each machine the nodes show is destroyed or reported, once, by identifier, and afterwards none is shown; without a live hypervisor nothing is destroyed or reported |
| Deployment.LifeCycle | internal/deploy/deploy.go:565-970 | from start to removal: the machines created carry the first identifiers handed out, in order; each is either destroyed or reported, once, and removing again destroys and reports nothing |
| LogHub.BufferStep | internal/deploy/deploy.go:251-254 | dropping the first line of a full buffer and appending keeps exactly the last 5000 lines |
| LogHub.Hub.Append | internal/deploy/deploy.go:248-256 | the buffer is the last 5000 lines appended, and the line goes to exactly the subscribers registered at that moment |
| LogHub.Hub.SendNext | internal/deploy/deploy.go:257-263 | a line is dropped only when the channel is full; a closed channel is met only after its subscriber left |
| LogHub.Hub.LeaveBeforeSend | internal/deploy/deploy.go:248-312 | a subscriber that leaves between a writer's locked section and its send makes the writer send on a closed channel, from any state |
| LogHub.SendAfterLeaving | internal/deploy/deploy.go:248-312 | the shortest such run from a new hub: subscribe, append, leave, send |
| LogHub.Hub.Subscribe | internal/deploy/deploy.go:292-301 | the history is the buffer of that moment and the channel starts empty |
| LogHub.Hub.Unsubscribe | internal/deploy/deploy.go:302-312 | the channel is closed once; a second call or one after the end does nothing; other subscribers stay |
| LogHub.Hub.CloseAll | internal/deploy/deploy.go:316-323 | every channel ever made has then been closed exactly once |
| LogHub.Hub.NothingMissed | internal/deploy/deploy.go:248-314 | for a subscriber that stayed, every line is in exactly one place: retained old lines in the history only, later lines delivered once or dropped; with one writer at a time in order |
| Retention.Registry.Prune | internal/deploy/deploy.go:416-451 | for any map order: active entries stay, the cap is met exactly, nothing dropped is newer than a finished entry kept, and the store loses the same ids |
| Retention.Registry.SetKeep | internal/job/manager.go:169-177 | a non-positive cap is ignored, any other is applied at once |
| Retention.Registry.Load | internal/job/manager.go:64-86 | every record is loaded; those that were under way become failed and are saved again, except where the store refuses |
| Retention.RefusedSavesExactly | internal/job/manager.go:71-80 | when saves were refused, the next start ends with the records the first one meant exactly when every refused record under way already had its end time |
| Retention.SecondRestartChangesNothing | internal/deploy/deploy.go:455-499 | no record stays pending or running, exactly those change, and a second restart at any later time changes nothing |
| Retention.RestartTwice | internal/deploy/deploy.go:388-499 | start, cap, stop, start, cap: the second start ends where the first did |
| Retention.Registry.Delete | internal/deploy/deploy.go:1159-1181 | only finished entries are deleted, from registry and store alike; a store that refuses keeps the record, and only the deployments' registry reports it |
| JobPool.Manager.Acquire | internal/job/manager.go:215-222 | a worker takes a slot only when one is free |
| JobPool.Manager.StopQueued | internal/job/manager.go:217-221 | a queued job that sees the stop signal is canceled and done, its record unsaved |
| JobPool.Manager.RunningHoldSlots | internal/job/manager.go:211-226 | in every state each running job holds a slot, so at most the configured number run |
| JobPool.Manager.DoneOnce | internal/job/manager.go:211-269 | the done channel is closed at most once, and only in a terminal state |
| JobPool.DeletedStaysExactly | internal/job/manager.go:211-269 | a deleted record stays deleted, whatever comes, exactly when the worker is past its last save |
| JobPool.Manager.DeleteBeforeSave | internal/job/manager.go:252-311 | the failing run: a job that has ended is deleted before its last save, which brings the record back |
| JobPool.Manager.SomeoneCanMove | internal/job/manager.go:211-269 | while a worker is left, some worker can go on |
| JobPool.Manager.StoredStates | internal/job/manager.go:211-269 | once a worker is gone its record, unless deleted, says how the job ended, exactly unless a shutdown canceled it |
| Keystrokes.KeysForText | internal/deploy/bootcmd.go:117-132 | the loop emits exactly the tokens of the mapped characters, in order |
| Keystrokes.TokenParts | internal/deploy/bootcmd.go:93-131 | each token is a key's name, prefixed exactly when the character needs Shift, and that key and Shift give the character on a US layout |
| HyperV.ScancodesMeanText | internal/hypervisor/hyperv.go:515-606 | a set-1 controller reading the scancodes of any text receives the text less its unmapped characters, with every key and Shift released |
| HyperV.SendKeys | internal/hypervisor/hyperv.go:626-651 | the chunks concatenate to the scancode stream and each holds 1 to 384 codes |
| HyperV.RenderArray | internal/hypervisor/hyperv.go:658-668 | the byte-array literal and its exact length |
| HyperV.ListParsesBack | internal/hypervisor/hyperv.go:661-666 | reading the literal back gives the codes |
| HyperV.ChunkFitsCommandLine | internal/hypervisor/hyperv.go:608-685 | the encoded command of any chunk stays under 8192 characters |
| HyperV.LargestChunk | internal/hypervisor/hyperv.go:608-615 | with launcher, preamble and VM id of up to 64 characters each, a chunk is sure to fit exactly up to 479 codes |
| VSphere.AlphanumericEntries | internal/hypervisor/vsphere.go:745-781 | the table's letter and digit loops and the assignments of the digit row's symbols, with the encoded key codes |
| VSphere.EntriesAnswerLookup | internal/hypervisor/vsphere.go:745-781 | for every name of one character, plain or shifted, those entries answer as the lookup: no letter or digit is missing and no other such name is there |
| VSphere.EventsMeanText | internal/hypervisor/vsphere.go:721-847 | a HID keyboard that takes events of its own usage page and decodes their codes receives the text less its unmapped characters |
| Vnc.WriteKeyEvent | internal/hypervisor/vnc.go:201-210 | the eight-byte message has the type and padding of section 7.5.4 of RFC 6143 and decodes to the event |
| Vnc.EventsMeanText | internal/hypervisor/vnc.go:24-189 | a VNC server reading the events of any text receives the text less its unmapped characters, every key and Shift released |
| BootCommand.BootKeysFromLines | internal/deploy/bootcmd.go:67-78 | "c", then each trimmed non-empty line's tokens and Enter |
| BootCommand.UneditedTextGivesSameKeys | internal/deploy/bootcmd.go:60-90 | the text splits into the generated lines, and typing it gives the generated command's keys, exactly when neither argument holds a newline |
| BootCommand.SettingsGiveSameKeys | internal/deploy/bootcmd.go:25-31 | the same for a node's network settings: only a newline in a setting that is used breaks it |
| KernelLine.KernelLineReadsBack | internal/deploy/bootcmd.go:26-47 | an installer reading the kernel line finds the role's volume, the kickstart URL, DHCP or the static network, FIPS mode for a VSA and the single disk where asked for; for space-free settings the static network is read right exactly when they hold no colon |
| KernelLine.AddressReadsBackExactly | internal/deploy/bootcmd.go:26-31 | the seven colon-separated fields read back as client, gateway, netmask and hostname exactly when no setting holds a colon |
| KernelLine.LinesAreCommands | internal/deploy/bootcmd.go:33-63 | the three typed lines are a linux command, an initrd command and boot, each read as its words |
| BootCommand.GeneratedLinesAreTyped | internal/deploy/bootcmd.go:49-55 | the three generated lines are typed as they are |
| BootCommand.AllBackEndsAgree | internal/deploy/bootcmd.go:67-78 | on all three back ends the console receives "c" and the typed lines, each followed by Enter, and no key is left held |
| BootCommand.ConsoleIsVerbatimExactly | internal/deploy/bootcmd.go:114-132 | the console receives the typed lines verbatim exactly when every character of theirs has a key |
| BootCommand.KeysSplitIntoLines | internal/deploy/bootcmd.go:67-78 | cutting the keys at Enter gives back the typed lines, key for key |
| Decimal.Format | internal/craftapi/craftapi.go:694-706 | filling the twenty-byte buffer from the right gives the decimal numeral of every machine integer that is not negative |
| Decimal.ItoaIsInjective | internal/craftapi/craftapi.go:694-706 | different numbers have different numerals |
| Planner.SplitByRole | internal/craftapi/craftapi.go:229-237 | one pass splits the nodes by role, in order |
| Planner.Plan | internal/craftapi/craftapi.go:188-519 | the appending loops with count map, mount variable and remembered first repository compute the plan stated part by part; what the parts' calls carry is proved in `PlanMirror` and `PlanCluster` |
| PlanVariables.SpellIsInjective | internal/craftapi/craftapi.go:678-706 | different variables have different names |
| PlanVariables.RenderedRefs | internal/craftapi/render.go:912-933 | what a text renders to refers to exactly the variable it stands for, and to none if it holds no dollar sign |
| PlanSafety.DefinedBeforeUse | internal/craftapi/craftapi.go:188-519 | with no dollar sign in user strings, every variable is set before it is read exactly when two or more VSAs come with a hardened repository |
| PlanSafety.SetOnce | internal/craftapi/craftapi.go:188-519 | the captures of a plan are pairwise distinct and none is a preamble variable |
| PlanSafety.NamesAreDistinct | internal/craftapi/craftapi.go:678-706 | captured variables, each node's host and repository among them, have pairwise different names |
| PlanRefinement.NamesAgreeExactly | internal/craftapi/craftapi.go:686-691 | planner and wiring name the repositories alike exactly when every hardened-repository node has a hostname |
| PlanRefinement.PlannerNamesAreInjective | internal/craftapi/craftapi.go:239-276 | the planner's repository names are pairwise distinct too, address fallback included |
| PlanRefinement.PlanWiresExactly | internal/craftapi/craftapi.go:267-304 | the plan's steps wire every node exactly when each node without a duty was registered already |
| PlanRefinement.PlanConverges | internal/craftapi/craftapi.go:252-304 | with a duty for every node and no proxy yet, running the plan leaves exactly the content the topology calls for, each entry once |
| PlanRepeats.OneProxyExactly | internal/craftapi/render.go:181-193 | from any server the wiring may start from, running the plan's steps leaves no node's host with two proxies exactly when no proxy node had one |
| PlanRepeats.SecondRunExactly | internal/craftapi/craftapi.go:267-304 | running the steps a second time changes nothing but the proxies, adds one for each proxy node, and so leaves no host with two exactly when there is no proxy node |
| PlanRefinement.PlanRefinesWiring | internal/craftapi/craftapi.go:229-304 | the plan and any successful interleaving of the wiring leave the same hosts and proxies, and the same repositories (name, host, path, days, mount) exactly when both pin the same mount server or no repository is new |
| PlanRefinement.MountsAgreeExactly | internal/craftapi/craftapi.go:251-265 | planner and wiring pin the same mount server exactly when the primary VSA is registered by its address, or has no name, or is not registered by its name either |
| PlanRefinement.LiveMountResolves | internal/wiring/wiring.go:208-262 | the wiring's mount server as a function of the start server is what its search resolves to |
| PlanRefinement.ResolvedIsLive | internal/wiring/wiring.go:208-262 | where no two hosts share a name, whatever the wiring's search resolves to is that mount server |
| PlanRefinement.PlanRefinesVsaWiring | internal/craftapi/craftapi.go:229-304 | with the wiring's own lookup the repositories are the same exactly under that condition, or when no repository is new |
| PlanCluster.ClusterExecuted | internal/craftapi/craftapi.go:305-384 | the cluster part, run on the wired server: it gets through exactly when the default repository exists without backups and the endpoint is configured, and then with the user's own login and the secondary VSA's certificate fetched with it; otherwise it creates no cluster |
| PlanCluster.ClusterPlanExactly | internal/craftapi/craftapi.go:229-384 | the same from the start server through all node steps: exactly when the start server has an empty default repository and the endpoint is configured; then the wired server is left with the configuration backup on the first hardened repository, the default one removed and the cluster standing |
| PlanCluster.PlanRefinesClusteredWiring | internal/craftapi/craftapi.go:229-384 | a plan that gets through and a wiring that ends well leave the same hosts, proxies and cluster; the same repositories exactly when both pin one mount server or none is new; and the configuration backup on repositories with the same record exactly when the mount server is the same or the first one was there before |
| PlanMirror.DefaultsAgree | internal/craftapi/craftapi.go:121-140 | planner and wiring fill in the same repository path, immutability days and user name |
| PlanMirror.LicenseMirrors | internal/craftapi/craftapi.go:193-220 | the license call carries what the live client sends |
| PlanMirror.ClusterPartMirrors | internal/craftapi/craftapi.go:341-384 | the cluster part's calls and bodies are those of the live wiring, credentials, the secondary's certificate and the cluster, exactly when the credentials have an identifier |
| PlanMirror.ExporterMirrorsExactly | internal/craftapi/craftapi.go:389-416 | the node_exporter calls are the live client's exactly when no basic-auth login is set: the plan leaves out the type the client says is required |
| PlanMirror.SyslogMirrors | internal/craftapi/craftapi.go:421-434 | the syslog call is the live client's, defaults included |
| Bodies.EndpointHasScheme | internal/veeam/veeam.go:700-709 | an S3 endpoint is sent with a scheme or empty; one without blanks around it is sent as given exactly when it has a scheme or is empty |
| PlanMirror.StoreMirrorsExactly | internal/craftapi/craftapi.go:439-511 | the object-storage calls are the live client's exactly when the endpoint needs no rewriting and both pin the same mount server |
| PlanMirror.AdvancedMirrorsExactly | internal/craftapi/craftapi.go:386-519 | all calls after the cluster are the live wiring's exactly under these conditions together |
| PlanMirror.StoreMountsAgreeExactly | internal/craftapi/craftapi.go:470-484 | looking the store's mount server up by name and by address finds the same host exactly when the two are the same text or neither is registered |
| Shell.ExpandPath | internal/craftapi/render.go:912-933 | the index scan computes the bracketing of every reference |
| Shell.ExpandKeepsMeaning | internal/craftapi/render.go:912-933 | bracketing keeps the meaning: put in for its references, bracketed or bare, any values give the same text before and after, for every text |
| Shell.ExpandIsIdempotent | internal/craftapi/render.go:912-933 | expanding twice is expanding once; exactly the texts without a reference, all dollar-free texts among them, are left as they are |
| PowerShell.IsVarExpr | internal/craftapi/render.go:453-493 | the scan accepts exactly the strings of the variable grammar |
| PowerShell.DocumentedExactly | internal/craftapi/render.go:403-406 | the documented pattern is what the scan accepts less the strings in which a word character follows an index |
| Literals.RoundTrip | internal/craftapi/render.go:412-528 | reading any printed value the reader understands gives the value back, bare strings as references or constants; for the printer's own inverse and for PowerShell's rules (five quotes, documented variables, constants and keys without regard to case) |
| Literals.PlainKeysExactly | internal/craftapi/render.go:412-528 | the printer's own inverse understands a value exactly when no key in it holds an apostrophe |
| Literals.PrintsAlikeExactly | internal/craftapi/render.go:412-528 | with apostrophe-free keys, two values are printed alike exactly when they mean the same to the printer's inverse, that is differ at most in strings that spell a constant |
| Literals.PrintIsInjective | internal/craftapi/render.go:412-528 | so different values without such strings are printed differently |
| Literals.ConstantsCollide | internal/craftapi/render.go:414-441 | the strings that spell a constant are printed like it |
| Literals.KeyReadsBackExactly | internal/craftapi/render.go:495-513 | a map key, printed without escaping, reads back exactly when it holds none of the reader's quotes |
| Literals.ReadsBackExactly | internal/craftapi/render.go:412-528 | any printed value reads back as what it means, with the rest untouched, exactly when the reader understands it: in PowerShell, when no key holds one of the five quotes or is repeated, every bare string is of the documented form and no other string holds a typographic quote, at every depth |
| Literals.StringReadsBackExactly | internal/craftapi/render.go:415-419 | a string printed in quotes reads back exactly when it holds no typographic quote, since only the apostrophe is doubled |
| Literals.TypographicQuoteCuts | internal/craftapi/render.go:415-419 | the failing inputs: PowerShell ends a string at a typographic quote that no other quote follows |
| Literals.UnseparatedIsRejected | internal/craftapi/render.go:453-493 | of the strings printed bare, PowerShell rejects exactly those in which a word character follows an index |
| Literals.UnseparatedExists | internal/craftapi/render.go:453-493 | one such string: `$a[0]c` |

## Left out

- HTTP handlers, templates, translations, static files, event-stream framing, cookies, search: no deep state.
- Hypervisor SDK calls, WinRM, TCP dialling, SQLite, JSON, process spawning, ISO copying: foreign; their outcomes are oracle answers or chosen steps, and a store is a map from id to record.
- Clocks: times are numbers, latencies are parameters; a deadline is compared as the code compares it. The clock prefix of log lines is part of the line.
- Server lookups are assumed exact, a rejected POST to have no effect inside the fan-out, a session reported as completed to have had its effect, and no creation to be in flight when the process is restarted. In `Wire` a failing call may or may not have taken effect.
- Host descriptions and pairing codes are not part of a managed server's record, and component updates are modelled by their outcome only.
- FanOutTheorems.ResumableConvergence: for distinct addresses and distinct repository names, and for one mount server across the re-runs, as the configuration of a deployment gives.
- FanOut.PickLowest: a "pending components update" text is taken to come from the POST, not from a session poll; the retry count is the same either way.
- The object-storage repository's own record, its credentials and the HA credentials are not in the server state: the program does not look for them before adding, so repeating the wiring repeats them. The calls that set them are recorded with their bodies and leave the inventory alone.
- TokenRefresh.OneRefreshPerToken: requests are counted per call of the client with a user name configured; the raw-request twin of the call works the same way and is not modelled.
- Wire.ApplyAdvanced: retries and component updates around the object-storage calls are in `Retries`; here each is one call, and a folder that cannot be created is passed over.
- PlanMirror.ClusterPartMirrors: user strings stand for themselves, as they do when they hold no dollar sign.
- Retries.WaitSession: the interval is in the clock's unit; overflow of durations is not modelled.
- Retries.CreateWithComponents: a POST here is one call of the client, which may itself repeat the request once after a 401.
- Deployment.Run.ResolveAddresses: nodes are polled one after the other, not in parallel, and a poll is modelled by its final answer; which addresses are known when it fails depends on the order.
- Deployment.Run.DeployNode: finding an ISO in the library and uploading one are a single operation that makes the medium ready.
- Deployment.Run.Execute: upload progress, VM sizing and the wiring-only retry are not modelled. `Retry` shares its node list with the source deployment in the program; that sharing is not modelled.
- Deployment.Run.Remove: runs after the run has ended; the program also goes on after waiting thirty seconds, and may then miss a machine created later.
- LogHub.Hub.NothingMissed: for the deployment log, which copies its list of subscribers; the job log does not and is not covered.
- Retention.Registry.Load: the wiring flag of a deployment and the log lines of a job are not stored, and come back empty.
- Retention.RestartTwice: for starts whose saves the store accepts; `Retention.RefusedSavesExactly` says what a refusal does. The cap is applied after loading for both registries; the job manager has its cap from the start and applies it when a job is submitted or the cap is set.
- Retention.Registry.Delete: the window in which a worker's last save brings a deleted record back is modelled for jobs, in `JobPool`; the deployment run has the same window (internal/deploy/deploy.go:565-580).
- HyperV.ChunkFitsCommandLine: the launcher, the shell's preamble and the VM id are bounded by 64 characters each; the script around them is 512 characters as written.
- VSphere.EventsMeanText: lower-casing is that of ASCII, which all tokens are.
- Literals.RoundTrip: what is read is the literal's structure: variables are not looked up and are told apart by their spelling, and evaluation, which flattens an array whose only item is an array, is not modelled (the planner's bodies hold no arrays). The case that keys and constants ignore is that of ASCII. Maps are given as their entries in key order, integers as naturals (the program prints nothing for a negative one), floating-point numbers and other types are not modelled.
- Planner.Plan: the verb and path of a call are not spelled out; a request's body is flattened to one key per leaf; pairing codes are left out, the license is the normalised text, and the bash rendering, which puts the mount server in single quotes, is not modelled beyond references.
- PlanRefinement.PlanConverges: for a server on which no proxy node has a proxy yet; `PlanRepeats.OneProxyExactly` shows that this is needed for unique proxies.
- PlanCluster.ClusterExecuted: credentials and certificate calls are taken to succeed, and the cluster call when it carries an endpoint. The wiring also refuses an empty address of the secondary VSA, which the planner passes on.
- Configuration validation, password hashing, resource sizing: easy or opaque.
