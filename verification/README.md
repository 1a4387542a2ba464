# WireGuard daemon: models and proofs

This project models the parts of the daemon whose correctness is hard to see from
one function at a time, and proves what they promise. `dafny verify dfyconfig.toml`
checks everything.

## What is modelled

**The userspace helper's reconcilers** (`Cidr`, `Routes`, `RouteProofs`, `RouteRuns`,
`RouteOwnership`, `RouteForgetting`, `RouteOutcomes`, `RouteDecisions`, `RouteReconciler`,
`Dns`, `DnsCustody`, `DnsConvergence`, `DnsRetry`, `DnsOutcomes`, `DnsFailures`,
`DnsReconciler`, `HelperTick`, `HelperTeardown`). The kernel routing table is a map from
network to holder, system DNS a map from service to resolvers and search domains.
Every command is an environment choice per point in time, so any command may fail at
any moment; networks and services come and go between ticks. `RouteReconciler` and
`DnsReconciler` hold the imperative form, classes whose methods update the table, the
record and the fingerprint in place; each is proved equal to a step function, and the
theorems are about runs of those functions. Route meaning is longest-prefix match
(sections 3.1 and 5.1 of RFC 4632); an address is the sequence of its bits.

**The configuration language** (`Text`, `ConfParser`, `ConfReading`, `ConfSpelling`,
`ConfDirectives`, `ConfValues`, `MtuRewrite`, `MtuMeaning`, `Printer`, `Fingerprint`,
`FingerprintIdentity`, `FingerprintBounds`, `FingerprintFormat`). Lines, comments,
sections, directives, decimal numbers, UTF-8 and the identity encoding are concrete.
Base64, address parsing and name resolution are arbitrary functions.

**The client protocol machine** (`Socket`, `SocketRuns`, `SocketFraming`, `SocketService`).
The client record is a class; the environment decides the size of every read and write,
the clock and the worker's answer.

**The connection lifecycle** (`Lifecycle`, `LifecycleInv`, `LifecycleTheorems`,
`LifecycleOutcomes`, `LifecycleRace`). Every request is a program of atomic steps over the
shared store, and any number of operations interleave. A lock is held by the operation
between its acquire and release steps; an acquire is possible only when nobody holds the
lock.

**The teardown handshake** (`Handshake`, `HandshakeProofs`, `HandshakeExact`,
`HandshakeOutcomes`). Daemon and helper processes of one interface talk through the pid,
name, socket and status files. A helper makes its socket, takes routes and DNS, writes its
name and pid files and signals its parent; it may fail or die at any step, and its
rollbacks and cleanups may fail as well.

## What turned out not to hold

- A route whose delete fails is forgotten, and a pin may be recorded that the tunnel's own
  route for the endpoint kept out of the table: `RecordMatchesIff` gives the exact
  condition, `OwnershipOverPlainRuns` the runs without either, `LostPinIsRecorded` a run
  with the second.
- The MTU override is lost or overruled when an interface header is spelled in a way only
  the parser knows: `RewriteCommutesIff` gives the exact condition for every text,
  `EveryTextHasALosingSpelling` shows that it concerns every accepted configuration.
- A byte sent while a worker is pending is swallowed: `KeptIffSilent` and
  `FramingSurvivesIffSilent` give the exact condition, `ImpatientClientIsMisread` a client
  that suffers.
- An explicit disconnect can be undone by an identical resubmission that read the record
  before the disconnect committed: `FlagFallsExactlyWhen` gives the exact steps,
  `NoRaceNoStaleWriteBack` the race it needs, `StaleWriteBackHappens` and
  `ReconciliationUndoesDisconnect` the run.
- A helper that has reported its teardown still unlinks the socket, pid and name files and
  may take those of the next session, and a status file that a bring-up fails to unlink
  may be taken for the next session's. `CarefulIsExact` shows that these two steps, and no
  others, let a teardown be reported whose helper still owns its routes;
  `ReportedTeardownHappened` holds over every run without them, `LateUnlinksLoseTheHelper`
  and `StaleOkIsMet` are runs with them.
- A teardown that finds none of a helper's files reports success although a helper that
  failed while starting, or one that died and had its files swept by a later bring-up, may
  have left routes or resolvers behind: `NothingLeft` says so, `LeftoversGoUnseen` is a
  run.
- A DNS write that fails is tried again, in a quiet environment, only if the stored
  fingerprint is out of date or a collision asks for a restore: `SettlesIffWritesLand` and
  `RetriedIff` give the exact conditions, `FailedApplyIsNotRetried` what follows for every
  later tick, `TargetLeftWithoutTunnel` a service that stays without tunnel DNS for good.

## Model

| member | source | states |
|---|---|---|
| `Cidr.BaseComposes` | src/userspace_helper.rs:1660-1681 | masking twice is masking once by the shorter length; with equal lengths, masking is idempotent |
| `Cidr.SameBase` | src/userspace_helper.rs:1660-1681 | two addresses have the same base exactly when they agree on the prefix bits |
| `Cidr.ContainsIsInclusion` | src/userspace_helper.rs:1646-1658 | the containment test decides inclusion of the two blocks as sets of addresses, for both widths |
| `Cidr.CoverTestIsMembership` | src/userspace_helper.rs:1685-1716 | the endpoint-cover comparison decides membership of the endpoint in the block |
| `Cidr.NestedOrDisjoint` | src/userspace_helper.rs:1646-1681 | two blocks that share an address are nested, the longer in the shorter |
| `Cidr.SameKeyIsMutualContainment` | src/userspace_helper.rs:1343-1360 | two written CIDRs index the same routing-table entry exactly when their blocks contain each other |
| `Cidr.CountOnesOfMask` | src/userspace_helper.rs:3011-3016 | counting the ones of the netmask of a prefix length returns that length |
| `Cidr.HalvesPartition` | src/userspace_helper.rs:1528-1562 | the two half-space routes that stand for a default route cover every address of the family exactly once and nothing else |
| `RouteReconciler.CollectAllowedRoutes` | src/userspace_helper.rs:1520-1584 | the loop that turns AllowedIPs into tunnel routes builds the specified list, default routes split into halves, unaddressed families dropped |
| `RouteReconciler.CollectDesiredRoutes` | src/userspace_helper.rs:1586-1623 | the pin, if there is one, followed by the allowed routes no connected subnet contains |
| `RouteReconciler.Reconciler.AddMacosRoute` | src/userspace_helper.rs:1272-1315 | a tunnel route is refused when a physical holder has its exact prefix, replaces a stale tunnel entry, and reports what happened |
| `RouteReconciler.Reconciler.RestoreShadowedLanRoute` | src/userspace_helper.rs:1434-1481 | the first connected subnet that contains the dropped route gets its own route back if it has none |
| `RouteReconciler.Reconciler.RemoveStaleRoutes` | src/userspace_helper.rs:1814-1838 | the removal loop computes the specified table, and counts no error exactly when every delete it issued worked |
| `RouteReconciler.Reconciler.InstallMissingRoutes` | src/userspace_helper.rs:1840-1867 | the install loop computes the specified table and the new record: kept routes and newly owned ones, in order |
| `RouteReconciler.Reconciler.ReconcileRoutes` | src/userspace_helper.rs:1769-1878 | one tick is the specified step of table, record and fingerprint, and an idle tick changes nothing |
| `RouteReconciler.Reconciler.InstallUntilFailure` | src/userspace_helper.rs:999-1016 | setup installs the desired routes and stops at the first failing command, keeping what it recorded |
| `RouteReconciler.Reconciler.ConfigureRoutes` | src/userspace_helper.rs:999-1063 | setup comes up with its record or rolls every recorded route back, newest first |
| `RouteReconciler.Reconciler.CleanupRoutes` | src/userspace_helper.rs:1065-1090 | teardown deletes the recorded routes newest first and reports no error exactly when every delete worked |
| `RouteProofs.RoutesForCoverEntry` | src/userspace_helper.rs:1528-1562 | the routes made from one AllowedIPs entry cover exactly the addresses of that entry |
| `RouteProofs.UnpinnedMeansUncovered` | src/userspace_helper.rs:935-940 | an endpoint that was not pinned is covered by no AllowedIPs route |
| `RouteProofs.LanNeverHijacked` | src/userspace_helper.rs:1520-1681 | for every AllowedIPs list and every set of connected subnets, the longest-prefix match of an address of a connected subnet is never a tunnel route |
| `RouteProofs.ReachableResolverStaysRouted` | src/userspace_helper.rs:1902-1914 | without a resolver in a connected subnet every AllowedIPs entry that covers a resolver still has a desired route covering it |
| `RouteProofs.CollidingResolverGoesToLan` | src/userspace_helper.rs:1902-1914 | a resolver that lies in a connected subnet is answered by the LAN |
| `RouteRuns.SetupIsEndpointSafe` | src/userspace_helper.rs:999-1016 | a successful setup leaves the endpoint uncovered by tunnel entries or pinned outside the tunnel |
| `RouteRuns.EndpointSafeAlongRun` | src/userspace_helper.rs:1769-1878 | ticks and the environment keep that, although gateway lookups, deletes and every add but a new pin's may fail |
| `RouteRuns.EndpointNeverInOwnTunnel` | src/userspace_helper.rs:1685-1878 | in every state reachable from a successful setup the longest-prefix match of the endpoint is never a tunnel entry |
| `RouteOwnership.SetupRecordsOrUndoes` | src/userspace_helper.rs:999-1063 | from a host without tunnel entries setup comes up with an exact record, or leaves no entry of its own |
| `RouteOwnership.TickKeepsRecord` | src/userspace_helper.rs:1769-1878 | a tick whose stale deletes work and that misrecords no pin keeps the record exact and removes no physical entry |
| `RouteOwnership.RecordExactAlongRun` | src/userspace_helper.rs:1769-1878 | the record stays exact over every run, and connected subnets keep their routes while adds work |
| `RouteOwnership.RouteOwnershipOverRuns` | src/userspace_helper.rs:999-1090 | after setup and any run the record matches the table, and a teardown without errors leaves no tunnel entry and every physical one |
| `RouteOwnership.LansRoutedAfterTick` | src/userspace_helper.rs:1434-1481 | after a tick every connected subnet has its physical route and no address of one is answered by the tunnel |
| `RouteOwnership.TeardownLeavesNothing` | src/userspace_helper.rs:1065-1090 | a teardown whose deletes all work leaves none of the helper's entries and every other one |
| `RouteForgetting.RecordMatchesIff` | src/userspace_helper.rs:1816-1867 | after a tick the record matches the table if and only if every delete of a stale route worked and no pin was misrecorded |
| `RouteForgetting.PinMisrecordedIff` | src/userspace_helper.rs:1294-1315 | a pin is recorded that is not in the table if and only if somebody holds its key after stale removal, it is newly wanted, and its add succeeds |
| `RouteForgetting.ContentionNeedsBoth` | src/userspace_helper.rs:1594-1605 | no pin is misrecorded while the pin is on record, or when the endpoint's own route is no AllowedIPs entry |
| `RouteForgetting.PlainRunsOwn` | src/userspace_helper.rs:1769-1878 | runs in which stale deletes work, and the pin adds issued where the AllowedIPs contend for the pin's key, keep an exact record |
| `RouteForgetting.OwnershipOverPlainRuns` | src/userspace_helper.rs:999-1090 | so after setup and any such run the record matches the table and a clean teardown leaves no tunnel entry and every physical one, endpoint's own route among the AllowedIPs or not |
| `RouteForgetting.LostPinIsRecorded` | src/userspace_helper.rs:1272-1315 | a reachable run, for every tunnel to a single host: one pin add fails, the next pin is recorded over the tunnel's entry, and the endpoint is routed into its own tunnel |
| `RouteForgetting.FailedDeleteStays` | src/userspace_helper.rs:1814-1838 | when some stale delete fails, a stale route is left in the table as it was installed |
| `RouteOutcomes.AllowedIsRouted` | src/userspace_helper.rs:1520-1584 | every address an AllowedIPs entry covers is covered by a desired tunnel route if the interface has an address of its family, unless a connected subnet contains that route |
| `RouteOutcomes.RoutedIsAllowed` | src/userspace_helper.rs:1520-1623 | every desired tunnel route comes from the AllowedIPs, and none is of a family without an address |
| `RouteOutcomes.PinIsTheEndpoint` | src/userspace_helper.rs:1594-1605 | the pin is desired exactly when one is wanted and the endpoint has a gateway, and covers the endpoint alone |
| `RouteOutcomes.SetupRoutesWhatIsAllowed` | src/userspace_helper.rs:999-1063 | after a setup whose adds work and that refuses nothing, every allowed address off the LANs is answered by the tunnel or by a longer entry |
| `RouteOutcomes.TickRoutesWhatIsAllowed` | src/userspace_helper.rs:1769-1878 | so it is after every tick that acts and whose commands work |
| `RouteDecisions.PinnedIff` | src/userspace_helper.rs:935-940 | the endpoint is pinned exactly when the AllowedIPs cover it, an IPv6 one only if the interface has an IPv6 address |
| `RouteDecisions.DesiredInOrder` | src/userspace_helper.rs:1586-1623 | the pin comes first, then the tunnel routes in the order of their AllowedIPs entries |
| `RouteDecisions.StaleTunnelEntryIsReplaced` | src/userspace_helper.rs:1272-1315 | an entry on any utun device counts as a tunnel's and is replaced |
| `RouteDecisions.PhysicalEntryIsKept` | src/userspace_helper.rs:1272-1315 | any other entry stays, and the route is not recorded |
| `RouteDecisions.UnseenEntryIsAdded` | src/userspace_helper.rs:1272-1315 | a free destination is added; one already there, unseen by the lookup, stays and counts as added |
| `RouteDecisions.DroppingThePin` | src/userspace_helper.rs:1434-1481 | dropping a pin changes its own destination only |
| `RouteDecisions.TickActsIff` | src/userspace_helper.rs:1769-1812 | a tick acts exactly when the connected subnets, or the gateway of a pinned endpoint, changed since the last pass |
| `DnsReconciler.PlanDnsActions` | src/userspace_helper.rs:1934-1978 | the planning loops compute the four specified lists: capture, restore, drop, apply |
| `DnsReconciler.Reconciler.TakeSnapshot` | src/userspace_helper.rs:1989-2016 | a snapshot fails exactly when the listing fails or is empty; failed reads degrade to empty |
| `DnsReconciler.Reconciler.CaptureService` | src/userspace_helper.rs:2022-2040 | capturing saves both settings, or empty ones when the service shows the tunnel's own list |
| `DnsReconciler.Reconciler.CaptureListed` | src/userspace_helper.rs:2140-2155 | the capture loop records what it read and collects what it could not |
| `DnsReconciler.Reconciler.RestoreReleased` | src/userspace_helper.rs:2157-2178 | the restore loop keeps an entry whose restore failed and counts the ones that worked |
| `DnsReconciler.Reconciler.ApplyListed` | src/userspace_helper.rs:2180-2193 | tunnel DNS is asserted on every listed service whose original was saved |
| `DnsReconciler.Reconciler.ReconcileDns` | src/userspace_helper.rs:2065-2220 | one tick is the specified step of host, record and fingerprint; an idle tick changes none of them |
| `DnsReconciler.Reconciler.ConfigureDns` | src/userspace_helper.rs:1126-1150 | setup takes over the target services or restores the ones it had taken, newest first |
| `DnsReconciler.Reconciler.CleanupDns` | src/userspace_helper.rs:1091-1110 | teardown restores every recorded service, newest first, and counts the failures |
| `DnsCustody.PlanMeans` | src/userspace_helper.rs:1934-1978 | what each of the four lists of the plan contains, in terms of owned and target services |
| `DnsCustody.TickKeepsCustody` | src/userspace_helper.rs:2065-2220 | a tick with arbitrary command failures keeps custody, and writes to no service that is off the record before and after |
| `DnsCustody.SetupKeepsCustody` | src/userspace_helper.rs:1126-1150 | setup establishes custody, or gives everything back when its rollback reports no error |
| `DnsCustody.RestoringGivesBack` | src/userspace_helper.rs:1153-1166 | restoring the record without an error gives every service what its user had set |
| `DnsCustody.CustodyAlongRun` | src/userspace_helper.rs:2065-2220 | custody holds along every run of ticks and environment changes |
| `DnsCustody.DnsCustodyOverRuns` | src/userspace_helper.rs:1065-1166 | after any run a teardown without errors returns exactly the resolvers and search domains each service had when last unowned; originals are never the tunnel's list; owned names are duplicate-free |
| `DnsCustody.NoUnsavedWriteOverRuns` | src/userspace_helper.rs:2140-2193 | after any run every service a tick writes the tunnel's resolvers to is on record with an original that is not the tunnel's list, and no other service comes to show them |
| `DnsConvergence.PlanSplits` | src/userspace_helper.rs:1934-1978 | the plan splits owned and target services without overlap |
| `DnsConvergence.ErrorFreeTickSettles` | src/userspace_helper.rs:2065-2220 | an error-free tick that acts makes the owned set equal the targets, each showing tunnel DNS, with a true fingerprint |
| `DnsConvergence.SettledTickDoesNothing` | src/userspace_helper.rs:2098-2114 | once settled the next tick in a quiet environment does nothing |
| `DnsConvergence.CollisionReleasesEverything` | src/userspace_helper.rs:2055-2114 | a LAN collision makes the next error-free tick give every service back, changed fingerprint or not |
| `DnsRetry.SettlesIffWritesLand` | src/userspace_helper.rs:2140-2215 | an acting tick settles if and only if every restore works, every resolver write lands, and one pair completes unless nothing had to be written |
| `DnsRetry.RetriedIff` | src/userspace_helper.rs:2098-2215 | the next tick of a quiet environment acts if and only if no pair completed although some write changed resolvers, or a collision still asks for a restore that failed |
| `DnsRetry.FailedApplyIsNotRetried` | src/userspace_helper.rs:2098-2114 | otherwise no later tick of a quiet environment ever does anything, whatever its commands would do |
| `DnsRetry.TargetLeftWithoutTunnel` | src/userspace_helper.rs:2180-2215 | a reachable run: the old service is restored, the new primary's write fails, and it stays without tunnel DNS over every later tick |
| `DnsOutcomes.SetupTakesOver` | src/userspace_helper.rs:1126-1150 | an error-free setup puts on record, and gives the tunnel's resolvers, exactly the primary service if it is listed and else every listed service, each with the settings its user had |
| `DnsOutcomes.SetupWithoutResolvers` | src/userspace_helper.rs:1126-1128 | without resolvers setup touches nothing |
| `DnsOutcomes.ActsIff` | src/userspace_helper.rs:2098-2114 | a tick acts exactly when listing, primary or their settings changed since the last full pass, or a collision finds services on record |
| `DnsOutcomes.TickTakesOver` | src/userspace_helper.rs:2065-2220 | an error-free tick that acts leaves on record, with the tunnel's resolvers, exactly the primary if it is listed and else every listed service, or nothing under a collision; what it releases shows its user's settings again |
| `DnsFailures.SetupComesUpIff` | src/userspace_helper.rs:1126-1150 | whatever commands fail, setup comes up exactly when the listing and all four commands of every service to take over work, a failed primary lookup counting as none; then each is taken over |
| `DnsFailures.FailedRollbackIsReported` | src/userspace_helper.rs:1126-1166 | a setup that takes over its first service and then can write no more fails, leaves that service with the tunnel's resolvers and counts both restores it could not do |
| `DnsFailures.TeardownCounts` | src/userspace_helper.rs:1091-1110 | a teardown whose writes work reports no error; one whose writes all fail reports every service and changed nothing |
| `DnsFailures.HalfRestoreIsRetried` | src/userspace_helper.rs:2157-2215 | a release that sets the resolvers but not the search domains keeps its service on record, and the next tick tries again |
| `HelperTick.PullBackAgreesWithExclusion` | src/userspace_helper.rs:1586-1642 | for the one list of resolvers: each resolver on a LAN is answered by the LAN, one suffices to release every service, and with none every covering entry keeps a desired route to each resolver |
| `HelperTeardown.CleanCleanupUndoesEverything` | src/userspace_helper.rs:1065-1119 | a cleanup that collects no error leaves no route of the helper and gives every service back to its user |
| `ConfParser.ParseConnectionConfig` | src/wireguard/connection_config.rs:207-437 | the loop over lines with its flushed accumulators computes the specified scan, accepting and rejecting the same texts |
| `ConfReading.ParserRefinesReading` | src/wireguard/connection_config.rs:207-437 | the one-pass parser succeeds exactly when the section-by-section reading does, and returns the same configuration |
| `ConfReading.OnePeerPerSection` | src/wireguard/connection_config.rs:236-262 | one peer per peer header, in file order, each read from its own section only |
| `ConfDirectives.AcceptedExactlyWhen` | src/wireguard/connection_config.rs:207-437 | a text is accepted exactly when every line is blank, a header or a known directive of its section with a valid value, spelled by literal names, and every section is complete |
| `ConfDirectives.InterfaceFields` | src/wireguard/connection_config.rs:318-362 | each interface field of an accepted text is what the lines of that literal name give: hooks all of them in file order, lists joined, single values the last |
| `ConfDirectives.PeerFields` | src/wireguard/connection_config.rs:363-396 | the same of each peer, from the lines of its own section |
| `ConfDirectives.IgnoredLineChangesNothing` | src/wireguard/connection_config.rs:318-362 | a line named listenport, fwmark, table or saveconfig changes nothing |
| `ConfDirectives.NameIsSpelling` | src/wireguard/connection_config.rs:323-396 | each directive has exactly one name, once trimmed and in lower case |
| `ConfValues.SpaceIs` | src/wireguard/connection_config.rs:264-270 | what is trimmed are exactly the 25 code points with the property White_Space |
| `ConfValues.NumberRead` | src/wireguard/connection_config.rs:389-393 | a number is an optional plus sign, any leading zeros and its decimal digits, below 65536, and nothing else is |
| `ConfValues.MtuRead` | src/wireguard/config.rs:3-20 | an MTU is such a number of at least 576 |
| `ConfValues.ListRead` | src/wireguard/connection_config.rs:341-352 | a list is read entry by entry and rejected exactly if one entry is |
| `ConfValues.CsvMore` | src/wireguard/connection_config.rs:439-446 | a comma ends an entry; entries are trimmed and blank ones dropped |
| `ConfValues.EndpointRead` | src/wireguard/connection_config.rs:489-504 | an endpoint that is no socket address is split at its last colon into a port and a host without its brackets, an address or a name to resolve |
| `ConfSpelling.CommentsDoNotMatter` | src/wireguard/connection_config.rs:264-270 | a comment changes nothing about what a line says |
| `ConfSpelling.SpacingDoesNotMatter` | src/wireguard/connection_config.rs:264-270 | neither do spaces around a line |
| `ConfSpelling.EntryLine` | src/wireguard/connection_config.rs:318-325 | a line is its key in lower case and its value, both trimmed, split at the first equals sign |
| `ConfSpelling.KeySpellingDoesNotMatter` | src/wireguard/connection_config.rs:318-325 | spaces around the equals sign and the case of the key do not matter |
| `ConfSpelling.SameItemsSameConfig` | src/wireguard/connection_config.rs:264-437 | two texts whose lines say the same, blank lines aside, parse alike |
| `MtuRewrite.ApplyMtuOverride` | src/privileged/dispatch.rs:794-833 | the two loops of the rewrite compute the specified text |
| `MtuRewrite.HeadersAgree` | src/privileged/dispatch.rs:800-804 | rewriter and parser see a header in the same lines |
| `MtuRewrite.MtuLinesAgree` | src/privileged/dispatch.rs:805-813 | on a line the parser accepts both see an MTU directive in the same lines |
| `MtuMeaning.RewriteSetsMtu` | src/privileged/dispatch.rs:794-833 | if a text parses and every interface header is plain, the rewritten text parses to the same configuration with the MTU set |
| `MtuMeaning.RewriteSpeaksLastWord` | src/privileged/dispatch.rs:794-833 | every rewritten text parses to the same configuration but for the MTU, which the last deciding line gives |
| `MtuMeaning.RewriteCommutesIff` | src/privileged/dispatch.rs:794-833 | for every text that parses, the rewrite means "set the MTU" if and only if the last deciding line is the rewriter's, or a foreign directive asking for the same value |
| `MtuMeaning.UnknownHeadersLoseOverride` | src/privileged/dispatch.rs:798-804 | with no plain interface header the override is lost without a word |
| `MtuMeaning.EveryTextHasALosingSpelling` | src/privileged/dispatch.rs:794-833 | every accepted text has a spelling that parses to the same configuration and loses the override |
| `MtuMeaning.SpacedHeaderIsNotPlain` | src/wireguard/connection_config.rs:275-279 | every header with spaces inside its brackets is accepted by the parser and unknown to the rewriter |
| `Printer.GenerateConfig` | src/wireguard/config.rs:40-74 | appending step by step produces the specified lines |
| `Printer.JoinedListReadsBack` | src/wireguard/connection_config.rs:439-446 | a printed list splits back into its items, trimmed, empty ones dropped |
| `Printer.EndpointReads` | src/wireguard/connection_config.rs:489-504 | a printed endpoint splits at its last colon, so an unbracketed IPv6 host reads back |
| `Printer.GeneratedMeansDirect` | src/wireguard/config.rs:40-74 | for all printable parameters the parser reads the generated text as exactly what the parameters mean, and rejects it exactly when they mean nothing |
| `Printer.PrintedConfigReadsBack` | src/wireguard/config.rs:40-74 | printing the values of a configuration and parsing the text returns the configuration |
| `Fingerprint.Buffer.PushOptionU16` | src/wireguard/connection_config.rs:599-607 | appends the tag and the little-endian value |
| `Fingerprint.Buffer.PushIpnets` | src/wireguard/connection_config.rs:631-637 | appends the count, and each address as written with its prefix length |
| `Fingerprint.Buffer.PushStrings` | src/wireguard/connection_config.rs:639-644 | appends the count and each string with its length |
| `Fingerprint.Buffer.PushPeer` | src/wireguard/connection_config.rs:564-584 | appends one peer's fields in their fixed order, the endpoint as its literal text |
| `Fingerprint.FingerprintBytes` | src/wireguard/connection_config.rs:551-593 | the pushes in order build the specified encoding |
| `FingerprintIdentity.Utf8Injective` | src/wireguard/connection_config.rs:609-612 | distinct texts have distinct bytes |
| `FingerprintIdentity.NetInjective` | src/wireguard/connection_config.rs:614-637 | an encoded network is self-delimiting and determines address, host bits and prefix length |
| `FingerprintIdentity.PeerInjective` | src/wireguard/connection_config.rs:564-584 | an encoded peer is self-delimiting and determines everything but the resolved endpoint |
| `FingerprintIdentity.UniquelyDecodable` | src/wireguard/connection_config.rs:540-644 | the bytes followed by any suffix determine every field except the resolved endpoints, and the suffix |
| `FingerprintIdentity.BytesAreIdentity` | src/wireguard/connection_config.rs:540-593 | equal bytes if and only if equal configurations, resolved endpoints aside |
| `FingerprintIdentity.ResolverNeverChangesBytes` | src/wireguard/connection_config.rs:574-584 | the same text parsed under any two resolvers has the same bytes |
| `FingerprintBounds.AcceptedTextsFit` | src/wireguard/connection_config.rs:595-612 | everything an accepted text parses to is far below the length at which a prefix would wrap |
| `FingerprintBounds.SameIdentityIff` | src/wireguard/connection_config.rs:551-593 | two accepted texts have the same bytes exactly when they parse to the same configuration, resolved endpoints aside |
| `FingerprintFormat.CharIsItsCodePoint` | src/wireguard/connection_config.rs:609-612 | a character's bytes are the one well-formed sequence of section 4 of RFC 3629 that stands for it |
| `FingerprintFormat.LittleEndian` | src/wireguard/connection_config.rs:595-597 | lengths and counts are four bytes, the lowest first |
| `FingerprintFormat.AddressBytes` | src/wireguard/connection_config.rs:614-626 | an address is its family's digit and its bytes in network order |
| `FingerprintFormat.Layout` | src/wireguard/connection_config.rs:549-593 | a configuration with a distinct value in every field, byte by byte |
| `Socket.Client.constructor` | src/privileged/socket.rs:46-60 | a fresh client has empty buffers and its first deadline |
| `Socket.Client.PollWorker` | src/privileged/socket.rs:73-103 | the pending branch discards what it reads and takes the worker's response |
| `Socket.Client.ReadRequest` | src/privileged/socket.rs:104-131 | the reading branch appends one read and dispatches at most one complete line |
| `Socket.Client.WriteOutput` | src/privileged/socket.rs:132-146 | the writing tail moves what the socket takes and clears a finished response |
| `Socket.Client.StepOnce` | src/privileged/socket.rs:62-148 | one step of a client is the specified transition, with its dispatch, queued response and written bytes |
| `Socket.StepKeepsValid` | src/privileged/socket.rs:62-148 | every step keeps the buffer bounds, and a worker runs only when nothing is unwritten |
| `SocketRuns.FramingIndependentOfChunking` | src/privileged/socket.rs:62-148 | for any reads and partial writes the dispatched requests are a prefix of the lines kept, each once and in order; the bytes written are a prefix of the responses in that order |
| `SocketRuns.AliveAccounts` | src/privileged/socket.rs:62-148 | while a client lives every kept byte is a dispatched line or buffered, and every response byte written or waiting |
| `SocketRuns.ChunkingDoesNotMatter` | src/privileged/socket.rs:62-148 | two conversations over one byte stream, cut up however, dispatch the same requests as far as both go |
| `SocketRuns.KeptIffSilent` | src/privileged/socket.rs:82-87 | no byte is lost if and only if the client is silent while its worker runs |
| `SocketFraming.WellFramedMeans` | src/privileged/socket.rs:93-118 | requests are lines of the bytes sent, each once and in order, exactly if as they stand on the wire they begin those bytes |
| `SocketFraming.SilentClientIsWellFramed` | src/privileged/socket.rs:62-148 | the requests dispatched for a silent client are a prefix of the lines it sent |
| `SocketFraming.FramingSurvivesIffSilent` | src/privileged/socket.rs:82-87 | a connected client was silent while its workers ran if and only if everything it may still send is dispatched as it sent it: every lost byte can be made to matter |
| `SocketFraming.DispatchOnlyWhenAnswered` | src/privileged/socket.rs:67-132 | over whole conversations nothing is dispatched before the last byte of every earlier answer is written |
| `SocketFraming.OnlyProgressMovesDeadline` | src/privileged/socket.rs:62-148 | over any run without a dispatch, a new or a drained response the deadline stays, however bytes trickle in or out |
| `SocketRuns.ImpatientClientIsMisread` | src/privileged/socket.rs:82-87 | a concrete client that is not silent has an empty request dispatched in place of its own |
| `SocketRuns.TrickleCannotExtendDeadline` | src/privileged/socket.rs:65-70 | bytes that complete no request never move the deadline, and none are accepted after it |
| `SocketService.ConnectedExactlyWhen` | src/privileged/socket.rs:62-148 | a step keeps its client exactly when the clock is before the deadline and nothing is refused: no hang-up, error, zero write, oversized line or text that is none |
| `SocketService.StaysConnectedExactlyWhen` | src/privileged/socket.rs:62-148 | a conversation keeps its client exactly when every step goes well, whatever the sizes of its reads and writes |
| `SocketService.ClosedForAReason` | src/privileged/socket.rs:62-148 | each way of closing a client has its cause |
| `SocketService.DeadlineMoves` | src/privileged/socket.rs:62-148 | ten seconds from connecting, from a queued and from a drained response, a minute for a worker; nothing else moves the deadline |
| `SocketService.BuffersStayBounded` | src/privileged/socket.rs:62-148 | over every run the input stays within one MiB and the output within two |
| `SocketService.Delivers` | src/privileged/socket.rs:132-146 | a response written in any number of parts arrives whole once the writes offered add up to it, and the client is ready for the next line |
| `SocketService.DispatchesLine` | src/privileged/socket.rs:104-131 | a connected client with a complete line buffered has it dispatched at its next step |
| `SocketService.RequestIsServed` | src/privileged/socket.rs:62-148 | a request of any size sent in one read is dispatched, answered and its answer delivered over any partial writes |
| `SocketService.WorkerIsServed` | src/privileged/socket.rs:73-103 | a worker may take any number of polls; its answer is queued when it comes |
| `LifecycleInv.StepFrame` | src/privileged/dispatch.rs:198-640 | each atomic step of each handler and worker changes only what its locks protect |
| `LifecycleInv.OthersKeepOk` | src/privileged/connection_store.rs:493-574 | what an operation knows under its locks survives every step of every other operation |
| `LifecycleInv.OwnStep` | src/privileged/dispatch.rs:198-640 | after its own step an operation knows what its next step relies on |
| `LifecycleInv.AdvanceKeepsInv` | src/privileged/dispatch.rs:198-640 | every step keeps mutual exclusion, the store's uniqueness and what each operation knows |
| `LifecycleInv.InvAlongRun` | src/privileged/dispatch.rs:198-640 | every reachable state satisfies the invariant, with timeouts, dying operations and unreadable records anywhere |
| `LifecycleTheorems.StartsOnlyWhileWanted` | src/privileged/dispatch.rs:506-524 | a helper comes up only for a stored record whose disconnect flag is false, in the connect worker's own step |
| `LifecycleTheorems.FlagFallsExactlyWhen` | src/privileged/dispatch.rs:318-397 | the flag falls if and only if a user connect, a mode change landing on Automatic, or a stale snapshot is written |
| `LifecycleTheorems.FlagRisesExactlyWhen` | src/privileged/dispatch.rs:571-587 | the flag rises if and only if a user disconnect or a stale snapshot is written |
| `LifecycleTheorems.TeardownIsRecorded` | src/privileged/dispatch.rs:560-587 | a user's disconnect is on record before its helper is told to go |
| `LifecycleTheorems.WritesAreNarrow` | src/privileged/dispatch.rs:374-640 | no write changes what identifies a record; workers change the flag alone, mode changes mode and flag, only a resubmission the name |
| `LifecycleTheorems.CreatedAsAsked` | src/privileged/dispatch.rs:278-303 | a new record is what was asked for, under its allocated id, without a disconnect |
| `LifecycleTheorems.DisconnectSticks` | src/privileged/dispatch.rs:442-640 | over every run without an explicit request or a stale write-back, an explicit disconnect stays and no helper comes up |
| `LifecycleTheorems.NoRaceNoStaleWriteBack` | src/privileged/dispatch.rs:318-397 | a snapshot is stale only if another operation committed a write to the record since the lookup |
| `LifecycleTheorems.StoreSoundOverRuns` | src/privileged/connection_store.rs:539-706 | in every reachable store interfaces and identities are pairwise distinct and no deleted id is back |
| `LifecycleTheorems.NamesUniqueOverRuns` | src/privileged/dispatch.rs:243-268 | in runs without force a name resolves to at most one record of its namespace |
| `LifecycleTheorems.NeverDeletedWhileActive` | src/privileged/dispatch.rs:399-440 | a record is deleted only while its connection is not active |
| `LifecycleTheorems.DeletedStaysDeleted` | src/privileged/connection_store.rs:605-615 | a deleted id never reappears, over every run |
| `LifecycleTheorems.LockOrder` | src/privileged/connection_store.rs:534-574 | a holder of a lock waits only for one later in the order index, connection, network |
| `LifecycleTheorems.NoDeadlock` | src/privileged/connection_ops.rs:33-40 | without any timeout, as long as an operation is unfinished some operation can step |
| `LifecycleTheorems.StepsLeadToTheEnd` | src/privileged/dispatch.rs:198-640 | every step brings its operation closer to its end, but for a draw or lookup that does not fit |
| `LifecycleRace.StaleWriteBackHappens` | src/privileged/dispatch.rs:374-397 | a reachable run in which a resubmission's snapshot undoes a committed disconnect nobody revoked |
| `LifecycleRace.ReconciliationUndoesDisconnect` | src/privileged/connection_store.rs:884-908 | and after it a reconciliation brings the tunnel up |
| `LifecycleRace.AgentConnects` | src/privileged/connection_ops.rs:71-165 | a reconciliation with nobody in its way, of a record that is not flagged, brings the tunnel up |
| `LifecycleOutcomes.ConnectSucceeds` | src/privileged/dispatch.rs:442-524 | from every reachable state with nobody in its way, a user's connect of a readable record, flagged or not, ends with the flag false, the socket and the marker there |
| `LifecycleOutcomes.ConnectIsIdempotent` | src/privileged/connection_ops.rs:71-95 | a connect of an active connection leaves its helper alone, and clears the flag if it is a user's |
| `LifecycleOutcomes.ReconciliationBacksOff` | src/privileged/dispatch.rs:506-524 | a reconciliation of a flagged record starts nothing and changes nothing |
| `LifecycleOutcomes.DisconnectSucceeds` | src/privileged/dispatch.rs:540-590 | a disconnect ends with socket and marker gone; a user's sets the flag, a session's end leaves it |
| `LifecycleOutcomes.ModeChangeSucceeds` | src/privileged/dispatch.rs:590-640 | a mode change stores the mode asked for, and clears the flag exactly if that mode is Automatic |
| `LifecycleOutcomes.RemovalSucceeds` | src/privileged/dispatch.rs:399-440 | a removal of an inactive connection deletes its record and nothing else |
| `LifecycleOutcomes.AdditionSucceeds` | src/privileged/dispatch.rs:227-303 | an addition whose name is free stores what was asked under the drawn id |
| `LifecycleOutcomes.ResubmissionSucceeds` | src/privileged/dispatch.rs:318-397 | a resubmission of an inactive connection stores its name and mode over the record it found |
| `LifecycleOutcomes.FailureEndsIt` | src/privileged/dispatch.rs:198-640 | a step whose own action fails commits nothing and ends its operation, but for PostUp |
| `LifecycleOutcomes.FailedPostUpRollsBack` | src/privileged/connection_ops.rs:140-165 | a failing PostUp takes the helper down again and leaves no marker |
| `LifecycleOutcomes.DamagedAreStored` | src/privileged/connection_store.rs:576-615 | in every reachable state only stored records are unreadable, and a step that writes a record leaves it readable |
| `HandshakeProofs.UpKeepsInv` | src/privileged/commands.rs:260-330 | the bring-up, its pid check refusing or passing, keeps the agreement of files, helpers and daemon |
| `HandshakeProofs.DownKeepsInv` | src/privileged/commands.rs:332-441 | so does the teardown with its waiting loops and ignored unlink failures |
| `HandshakeProofs.HelperKeepsInv` | src/userspace_helper.rs:303-430 | so does every step of a helper, from its socket over routes, name and pid file to its late unlinks |
| `HandshakeProofs.ReportedTeardownHappened` | src/privileged/connection_ops.rs:167-193 | over every careful run the marker is cleared only if the latest session's helper finished without errors or none of its files was there; then no helper owns anything and every session that came up ended clean or had its files swept by a later bring-up |
| `HandshakeProofs.BringUpIsRefused` | src/privileged/commands.rs:269-276 | beside a helper that owns routes or has yet to report, the pid check refuses a bring-up |
| `HandshakeExact.CarefulIsExact` | src/privileged/commands.rs:269-290 | the condition is exact: after a careful run an event is careful if and only if no careful continuation reports a teardown whose helper still owns its routes |
| `HandshakeExact.StaleOkIsMet` | src/privileged/commands.rs:279-288 | the second hazard is reachable: a status file that says ok outlives two failing unlinks and is taken for the next session's |
| `HandshakeExact.LeftoversGoUnseen` | src/userspace_helper.rs:488-494 | what a report may leave: a run in which a dead session's files are swept and a helper exits over its name file, routes in place, and the teardown finds no file |
| `HandshakeExact.BringUpWorks` | src/privileged/commands.rs:260-330 | a bring-up past its check that meets no failure succeeds, whatever older helpers still do |
| `HandshakeExact.LateUnlinksLoseTheHelper` | src/userspace_helper.rs:421-430 | the first hazard is reachable: a reconnect right after a confirmed disconnect passes the check beside the first helper, whose late unlinks can hide the second |
| `HandshakeOutcomes.BringUpRefused` | src/privileged/commands.rs:260-276 | a bring-up that finds a socket, an unreadable pid file or one naming a live process changes nothing |
| `HandshakeOutcomes.BringUpFails` | src/privileged/commands.rs:260-330 | whichever step of the start fails, and whichever unlinks, the bring-up fails, the marker stays, and the helper unlinks what it wrote unless its name file failed |
| `HandshakeOutcomes.BringUpSucceeds` | src/privileged/commands.rs:278-330 | when the five steps work the bring-up leaves a running helper whose files are all its own, whichever unlinks failed |
| `HandshakeOutcomes.TeardownOfNothing` | src/privileged/commands.rs:332-372 | with no file there a teardown clears the marker and waits for nobody |
| `HandshakeOutcomes.TeardownAsks` | src/privileged/commands.rs:332-392 | with any file there a teardown removes the socket and waits; if it cannot remove it, nothing has changed |
| `HandshakeOutcomes.TeardownOutcome` | src/privileged/commands.rs:332-441 | an undisturbed teardown of a running helper clears the marker exactly when the cleanup was clean, the report written and read, and the marker removable; the files left are those whose unlinks failed |
| `HandshakeOutcomes.HelperDies` | src/userspace_helper.rs:421-430 | a helper that dies on its way down leaves every file, and what it owned unless it had cleaned up |
| `HandshakeOutcomes.HelperLeaves` | src/userspace_helper.rs:421-430 | after its report a helper unlinks the other three files, whoever wrote them, and never the report |
| `HandshakeOutcomes.ExitIsFinal` | src/userspace_helper.rs:303-430 | an exited helper stays as it ended over every run |

## Left out

- RouteOwnership.RouteOwnershipOverRuns: assumes that route lookups answer, that AllowedIPs are distinct as networks, and that connected subnets are disjoint and none is the endpoint's own address; its condition on pins is exact by `RouteForgetting.RecordMatchesIff`.
- RouteRuns.EndpointNeverInOwnTunnel: assumes that route lookups answer, and for a pinned endpoint that the add of a new pin works and nobody else installs a tunnel route for the endpoint itself.
- HandshakeExact.CarefulIsExact: time is not modelled, so a continuation may take any number of steps between two others; the model also lets a bring-up notice that its helper died before signalling, where the source would wait.
- SocketFraming.FramingSurvivesIffSilent: is for a buffer with room for two more bytes and requests that are all text; otherwise the next line closes the client.
- LifecycleTheorems.NoDeadlock: an operation whose process has died holds no lock, as with file locks; fairness of lock waits is not modelled.
- Printer.PrintedConfigReadsBack: is for fields without newlines and hash signs and list items without commas; other fields do not survive the text format.
- Handlers and workers of `src/privileged/dispatch.rs`, `connection_store.rs` and `connection_ops.rs` are modelled as atomic steps on values rather than as methods, since what is proved of them is their interleaving; the JSON form of a record, directory permissions and time stamps are not modelled.
- A freshly drawn connection identifier is assumed never to have been drawn before; the check of its interface name against the store is modelled.
- Error messages of the parser: only success or failure is modelled.
- Running `ifconfig`, `route`, `networksetup` and `scutil` and reading their output: their effects and failures are modelled, and a route lookup is the exact entry for a prefix.
- The accept loop, its descriptor polling and the idle exit of `src/privileged/socket.rs`, which only multiplex the client steps.
- Request decoding, response encoding, peer credentials, admin authorisation and ownership checks: an outcome the environment chooses.
- The tunnel device, its packets, daemonizing, signals and the five-second device stop.
- The content of hooks, beyond whether PreUp and PostUp fail.
- Two helpers promoting DNS at once, adoption after a crash and network-location switches, which the repository documents as open; a service that leaves the listing while owned is excluded from the custody claim.
- Presentation: command line, tables, colours, logs, `wg show` output and the network overview.
- SHA-256: identity is stated on the bytes that are hashed.
