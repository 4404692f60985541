# GateControl: verified algorithmic cores

GateControl is a gateway and VPN control panel. This project models the self-contained algorithmic cores around its
server: the Caddy matcher that blocks client addresses, the edge event channel of plugins, the refresh scheduler of
the dashboard, the scanners and printers of its scripts and pages, and the ranking and chart arithmetic of its user
interface. Each is stated in Dafny in the form the source has (classes where the source updates fields, loops where
it loops, functions where it only computes), and its central promises are proved for all inputs and all runs.

`dafny verify dfyconfig.toml` checks everything.

| files | subject |
|---|---|
| `IpBlock.dfy`, `Bits.dfy` | the index of masked prefixes per length answers the plain reading of the block file |
| `IpReload.dfy` | hot reload as stat, read and store steps against a process that replaces, locks or removes the file |
| `EdgeHost.dfy`, `EdgeChannel.dfy`, `EdgeDelivery.dfy`, `EdgeWorlds.dfy` | at-least-once sender, FIFO connection, comparing receiver: in order, exactly once, and the exact condition of a safe emission |
| `Refresh.dfy`, `Traffic.dfy` | jobs that never overlap and never lose a request; the stale-answer check of the traffic panel |
| `I18nKeys.dfy`, `I18nDuplicates.dfy` | the stream scanner agrees with the tree of every JSON text (RFC 8259) |
| `MqttTopics.dfy`, `HashRoute.dfy` | topic filters by grammar, account topics, the round trip of the hash router through percent-encoded UTF-8 |
| `Changelog.dfy` | any number of releases keeps the history of the changelog |
| `Palette.dfy`, `Ticks.dfy`, `NetChart.dfy` | bounded best lists and the recent list, axis ticks, polylines as maximal runs |
| `Text.dfy`, `Wrappers.dfy` | trimming, splitting, joining; an option type |

How the parts are stated:

- A method that updates state is proved against a function of the old state (`View() == F(old(View()))`); the runs of
  a protocol are sequences of steps over those functions, and the main theorems hold for every run.
- Clocks, the answers of the operating system, the frames of the network, `netip`'s text parsers and the escape
  decoding of `JSON.parse` are parameters, so the theorems hold for all of them.
- Addresses are naturals below 2^32 and 2^128, masks clear low bits by division, numbers of charts are exact reals.

## Where the code and its text differ

- An unreadable block file: the comment at `caddy-plugins/mirror/ipblock.go:12-13` makes it an empty set. The code
  keeps the last set when the file exists but cannot be opened or scanned (`IpReload.UnreadableFileKeepsTheSet`, with
  a run in `IpReload.UnreadableFileBlocksOn`); `IpReload.EmptySetExactly` says when the comment holds.
- IPv6 networks around the IPv4-mapped block, such as `::/0`, also decide every IPv4 address, because IPv4 addresses
  are looked up in the mapped space (`IpBlock.DefaultRouteBlocksV4`). `IpBlock.FamilyReadingExact` says exactly when that differs from a reading in
  which address families never meet.
- The edge host resends its queue after the first state of the host, not of each connection as the comment at
  `scripts/plugin-edge-host.js:126` says. With one connection (`createEdgeHost`) both are the same. With a second
  connection an event can be skipped for good under all options (`EdgeDelivery.ReconnectSkipsAnEvent`, with a run from
  the start in `EdgeDelivery.AnEventCanBeLost`); `EdgeWorlds.EmitIsSafeExactly` gives the condition the caller of
  `emit` can check: nothing was queued when the connection opened, or the queue has been sent or acknowledged since.
- The dialog of a new MQTT account and the request it sends can name different access for the same topic. When
  `shellies/<user>/#` is added for reading under the template `custom` and the template `shelly` is chosen then, the
  dialog announces readwrite and the request asks for read (`MqttTopics.VendorTopicIsAnnouncedWider`);
  `MqttTopics.AnnouncedIsGranted` says exactly when they agree.
- A release whose version itself reads as "Unreleased]..." is promoted again by the next release and loses its
  heading; the version `Unreleased` does so on every file (`Changelog.UnreleasedLosesItsHeading`).
  `Changelog.NextPromotesExactly` and `Changelog.HeadingsNewestFirst` give the exact condition.
- A route with an empty id does not parse back; `HashRoute.RouteRoundTrip` covers that case too.

## Model

| member | source | states |
|---|---|---|
| IpBlock.PrefixSet.Add | caddy-plugins/mirror/ipblock.go:86-102 | adding keeps the index invariant: lengths strictly descending and equal to the keys, sets exactly the masked mapped forms of the entries added, one more entry added |
| IpBlock.PrefixSet.Has | caddy-plugins/mirror/ipblock.go:104-115 | the lookup finds an address exactly when some added entry's stored key equals the lookup key of that length |
| IpBlock.AppendAndSort | caddy-plugins/mirror/ipblock.go:98-99 | append and reverse sort keep the lengths strictly descending with exactly one new member |
| IpBlock.PrefixSets.ReadLine | caddy-plugins/mirror/ipblock.go:221-233 | a valid line is filed under block or allow and counted; the cap stops the loop without loading it |
| IpBlock.PrefixSets.Blocked | caddy-plugins/mirror/ipblock.go:261-267 | the matcher answers the plain reading: some entry covers the address and no exception does |
| IpBlock.ParseIPBlock | caddy-plugins/mirror/ipblock.go:206-236 | the sets hold exactly the first 500000 valid entries of the file; a scanner error is reported exactly when it is recorded before the loop meets an entry above the cap |
| IpBlock.IndexAgrees | caddy-plugins/mirror/ipblock.go:104-122 | for every list of entries and every address the indexed lookup equals coverage by some entry, for blocks and exceptions |
| IpBlock.HitsIsCovers | caddy-plugins/mirror/ipblock.go:86-122 | one stored entry is hit by the lookup key of an address exactly when the entry covers the address |
| IpBlock.ShiftKeepsMeaning | caddy-plugins/mirror/ipblock.go:90-93 | the 96-bit shift keeps CIDR meaning: n leading bits agree in 32 bits exactly when n + 96 agree in the mapped space |
| IpBlock.MappedBlock | caddy-plugins/mirror/ipblock.go:117-122 | the leading 96 bits of the mapped space tell IPv4 from IPv6 (RFC 4291 section 2.5.5.2) |
| IpBlock.MappedFormIsIPv4 | caddy-plugins/mirror/ipblock.go:239-250 | a CIDR in IPv4-mapped form of length 96 or more decides every address as the network of its IPv4 form does, a shorter one is dropped |
| IpBlock.CidrIsRead | caddy-plugins/mirror/ipblock.go:239-250 | a CIDR text becomes an entry that covers exactly what its network covers |
| IpBlock.NetworkLineBlocks | caddy-plugins/mirror/ipblock.go:206-250 | a file with one CIDR line, whatever its layout and comment, blocks exactly the addresses of the network; with `!` it blocks none |
| IpBlock.RefusedIsDropped | caddy-plugins/mirror/ipblock.go:240-255 | what the address parsers refuse is no entry |
| IpBlock.BlankIsNothing | caddy-plugins/mirror/ipblock.go:209-215 | a blank line or one with only a comment is no entry |
| IpBlock.MaskingKeepsMeaning | caddy-plugins/mirror/ipblock.go:250 | masking an entry while reading keeps what it covers and never makes it IPv4-mapped |
| IpBlock.SingleAddressCovers | caddy-plugins/mirror/ipblock.go:252-257 | a single address decides exactly itself, in either form and whatever its zone |
| IpBlock.OrderAndDuplicatesIrrelevant | caddy-plugins/mirror/ipblock.go:206-236 | below the cap two files with the same set of lines give the same verdict on every address |
| IpBlock.LayoutIsIgnored | caddy-plugins/mirror/ipblock.go:209-220 | surrounding space, space behind `!` and `#` comments carry no meaning |
| IpBlock.FamilyReadingExact | caddy-plugins/mirror/ipblock.go:86-93 | the exact condition under which the matcher equals the reading in which IPv6 networks never decide IPv4 addresses, by what the IPv4 entries name |
| IpBlock.DefaultRouteBlocksV4 | caddy-plugins/mirror/ipblock.go:90-101 | a file with the one line `::/0` blocks an IPv4 address, which the family reading does not |
| IpBlock.V4Verdict | caddy-plugins/mirror/ipblock.go:261-267 | the decision on an IPv4 address, with IPv6 networks that span the mapped block |
| IpReload.IPBlockState.Reload | caddy-plugins/mirror/ipblock.go:168-195 | one reload: what is published and recorded for every outcome of stat, open and scan, forced or not |
| IpReload.IPBlockState.Match | caddy-plugins/mirror/ipblock.go:261-267 | a request sees the verdict of the published entries |
| IpReload.StepKeepsInv | caddy-plugins/mirror/ipblock.go:168-195 | every single stat, read or store and every replacement, removal or lock keeps: recorded stamp equal to the file's stamp means published is its parse |
| IpReload.PublishedIsCurrent | caddy-plugins/mirror/ipblock.go:168-195 | in every interleaving a recorded stamp equal to the file's means the published set is its parse; what is published is empty or one whole version |
| IpReload.TickIsReload | caddy-plugins/mirror/ipblock.go:154-165 | the three steps of an undisturbed tick are one call of reload |
| IpReload.OneMoreTickCatchesUp | caddy-plugins/mirror/ipblock.go:154-195 | from every reachable world, once the file stays readable and unchanged, one more tick publishes its parse; once it stays away, nothing |
| IpReload.TickPublishesExactly | caddy-plugins/mirror/ipblock.go:183-185 | without fresh stamps a tick publishes the file exactly when the stamp differs or the set was right already |
| IpReload.UnreadableFileKeepsTheSet | caddy-plugins/mirror/ipblock.go:186-192 | an existing file that cannot be read or scanned leaves the set and the stamp, against the comment at line 13 |
| IpReload.EmptySetExactly | caddy-plugins/mirror/ipblock.go:175-192 | from every reachable world whose file is missing or cannot be loaded, a tick leaves the empty set exactly when the file is missing or nothing was published |
| IpReload.UnreadableFileBlocksOn | caddy-plugins/mirror/ipblock.go:186-192 | a run from the start: a loaded file replaced by one that cannot be loaded stays in force |
| EdgeHost.EdgeHost.Emit | scripts/plugin-edge-host.js:184-194 | an emission takes max(last + 1, now), is queued behind the plugin's queue and sent when the socket is open |
| EdgeHost.EdgeHost.Resend | scripts/plugin-edge-host.js:197-199 | the plugin's queue is sent again in order, the queue itself unchanged |
| EdgeHost.EdgeHost.Send | scripts/plugin-edge-host.js:111-115 | a frame is handed over exactly when the socket is open |
| EdgeHost.EdgeHost.OnState | scripts/plugin-edge-host.js:122-127 | the first state resends the queues of all plugins in insertion order, behind the status |
| EdgeHost.EdgeHost.OnAck | scripts/plugin-edge-host.js:128-132 | an acknowledgement raises the recorded one and drops exactly the events up to its number |
| EdgeHost.EdgeHost.OnMessage | scripts/plugin-edge-host.js:117-139 | the whole new state for each kind of frame, waiters included |
| EdgeHost.EdgeHost.Notify | scripts/plugin-edge-host.js:217-221 | exactly the waiters whose acknowledgement has arrived are resolved, the others stay in order |
| EdgeHost.EdgeHost.WaitForAck | scripts/plugin-edge-host.js:224-241 | a wait is resolved at once when the acknowledgement is there, else queued |
| EdgeChannel.EmitKeepsQueueLaw | scripts/plugin-edge-host.js:184-194 | an emission keeps: queue = emitted events above the recorded acknowledgement, numbers ascending |
| EdgeChannel.AckKeepsQueueLaw | scripts/plugin-edge-host.js:128-132 | any late, repeated or out-of-order acknowledgement keeps the queue law and never lowers the record |
| EdgeChannel.QueueIsEmittedAboveHighestAck | scripts/plugin-edge-host.js:128-199 | in every run, whatever the clock does: numbers strictly increase, the record is the highest acknowledgement, the queue is exactly the emitted events above it in order |
| EdgeChannel.EventsAreEmissions | scripts/plugin-edge-host.js:184-194 | in every run the events of a plugin are those emitted, in order, with their name, data and time, each under a number not below the clock |
| EdgeChannel.WaitIsResolvedExactly | scripts/plugin-edge-host.js:217-241 | in every run each wait is queued or resolved, once, and it is resolved exactly when an acknowledgement of at least its number has been received, before or after it was asked for |
| EdgeChannel.ConfigIsLast | scripts/plugin-edge-host.js:133-134 | in every run the configuration of a plugin is the last one received |
| EdgeChannel.StateIsAnswered | scripts/plugin-edge-host.js:122-127 | a state is answered with a status first where that is wanted, and a later state of the host with nothing else |
| EdgeChannel.OpensWithHello | scripts/plugin-edge-host.js:98-101 | a connection opens with a hello where the host is to greet, and with nothing under way otherwise |
| EdgeChannel.DrainSuffix | scripts/plugin-edge-host.js:197-199 | resending a suffix completes what a comparing receiver has, whatever part it has already |
| EdgeDelivery.NextKeepsInv | scripts/plugin-edge-host.js:98-199 | every disciplined step keeps: what is under way completes a prefix of the emitted events, for every plugin |
| EdgeDelivery.ExactlyOnceInOrder | scripts/plugin-edge-host.js:122-132 | in every disciplined run with resends, drops and reconnects the receiver has accepted exactly a prefix of each plugin's emitted events |
| EdgeDelivery.EverythingArrives | scripts/plugin-edge-host.js:184-199 | at least once: on an open connection all emitted events are accepted when the frames under way arrive, at once for a plugin that is not behind, after a resend for any |
| EdgeDelivery.CreateEdgeHostDelivers | scripts/plugin-edge-host.js:60-64 | the same for every run that emits nothing between opening and the first state, as createEdgeHost enforces |
| EdgeDelivery.CreateRunIsDisciplined | scripts/plugin-edge-host.js:98-103 | waiting for the first state on the one connection implies the discipline |
| EdgeDelivery.ResolvedWaitMeansAccepted | scripts/plugin-edge-host.js:239-241 | a resolved waitForAck means every event up to that number has been accepted |
| EdgeDelivery.SafeWhenSent | scripts/plugin-edge-host.js:184-194 | an emission on an open connection keeps in-order delivery exactly when the frames under way complete all earlier events |
| EdgeWorlds.EmitIsSafeExactly | scripts/plugin-edge-host.js:184-194 | after any disciplined run, an emission is safe in every world that disciplined runs reach and that looks the same to the host exactly when the plugin is not behind: no queue when the connection opened, or all of it sent or acknowledged since |
| EdgeWorlds.UnsafeWorld | scripts/plugin-edge-host.js:122-132 | for a plugin that is behind, a disciplined run from the start leads to a world with the same host in which the emission skips an event |
| EdgeWorlds.ShadowFollows | scripts/plugin-edge-host.js:117-199 | every step can be taken in a world with the same host whose server has only what it has acknowledged |
| EdgeDelivery.BehindHasQueue | scripts/plugin-edge-host.js:128-132 | in every disciplined run a plugin that is behind has unacknowledged events, so an empty queue always allows an emission |
| EdgeDelivery.ReconnectSkipsAnEvent | scripts/plugin-edge-host.js:123-127 | under all options: after a second connection opened with a state, the next event is accepted in front of a lost one |
| EdgeDelivery.AnEventCanBeLost | scripts/plugin-edge-host.js:123-127 | under all options: a run from the start in which the event emitted next is accepted in front of a lost one |
| Refresh.JobRecord.Run | public/js/dashboard.js:100-118 | a call while busy marks a re-run and returns the present promise; else a new execution is scheduled |
| Refresh.JobRecord.OnFinish | public/js/dashboard.js:111-116 | the last callback frees the job and starts the marked re-run, whose promise settles the finished one |
| Refresh.NextKeepsInv | public/js/dashboard.js:99-118 | every call, callback, answer and adoption keeps the one-token and promise invariants |
| Refresh.NeverTwice | public/js/dashboard.js:103-105 | in every interleaving a job's function is never active twice |
| Refresh.PromiseSettlesAfterFreshExecution | public/js/dashboard.js:103-117 | the promise of any call settles only after a completed execution that began at or after the call |
| Refresh.NoRequestIsLost | public/js/dashboard.js:103-114 | every call is served, or its service is scheduled: one marked re-run or a present execution that began late enough |
| Refresh.EveryScheduleFinishes | public/js/dashboard.js:103-117 | progress under every schedule: a run without further calls has a bounded number of steps, and where it cannot go on the job is idle, every call served and every promise resolved |
| Refresh.NothingIsStuck | public/js/dashboard.js:104-117 | a busy job always has a callback to run or an awaited answer |
| Refresh.TimeMarksStart | public/js/dashboard.js:103-104 | the time of a job is that of the step that scheduled its present execution; a call while busy does not move it |
| Traffic.TrafficState.OnSelect | public/js/dashboard.js:576-584 | a click on another range selects it and requests a run; on the present one nothing changes |
| Traffic.TrafficState.OnAnswer | public/js/dashboard.js:412-419 | an answer is rendered exactly when its range is still selected |
| Traffic.ClickAsksForOneRun | public/js/dashboard.js:576-584 | a click on the present range changes nothing; one on another range leaves the screen and asks for exactly one run, started or marked |
| Traffic.MoveKeepsInv | public/js/dashboard.js:412-420 | every click and every scheduler step keeps the shown period up to date unless a re-run is marked |
| Traffic.ShownIsSelected | public/js/dashboard.js:412-420 | in every run rendered data belongs to the range selected at that moment, and an idle job whose last execution succeeded shows the selected range |
| I18nKeys.TopLevelKeys | scripts/check-i18n-duplicates.js:25-56 | the nested loops compute the scan function on every text |
| I18nKeys.ReadString | scripts/check-i18n-duplicates.js:36-43 | end, raw body and line feeds of a string with escapes |
| I18nKeys.ScanOfDocument | scripts/check-i18n-duplicates.js:25-56 | for every JSON object text the result is exactly the outermost member names in order, each with the line of its opening quote; for other values nothing |
| I18nKeys.ScanValue | scripts/check-i18n-duplicates.js:33-53 | a value printed anywhere is passed over: brackets, colons and escaped quotes inside have no effect on depth |
| I18nDuplicates.FindDuplicates | scripts/check-i18n-duplicates.js:59-66 | exactly the names with more than one line, with all their lines, in the order of first occurrence |
| I18nDuplicates.GroupByName | scripts/check-i18n-duplicates.js:60-64 | the map holds all lines of every name, keys in the order of first occurrence |
| I18nDuplicates.ReportOfDocument | scripts/check-i18n-duplicates.js:59-66 | on a JSON object text a name is reported exactly when more than one outermost member decodes to it, with the lines of exactly those members in order |
| MqttTopics.TopicOk | public/js/gateway-edge-kit.js:216-227 | the split-and-scan accepts exactly the character-level filter grammar within 1 to 128 units, without control characters and leading $, # or + |
| MqttTopics.LevelsAreShape | public/js/gateway-edge-kit.js:219-225 | the levels pass the loop exactly when the text has the grammar of MQTT 5.0 section 4.7.1 |
| MqttTopics.UsernameIs | public/js/gateway-edge-kit.js:190-213 | a user name is accepted exactly when it has 2 to 48 of the allowed characters, a letter or digit first, and is not reserved |
| MqttTopics.PlannedTopics | public/js/gateway-edge-kit.js:230-237 | own topics, then each extra topic where it first comes; own topics are readwrite with their source, an extra one has the access it was first given |
| MqttTopics.AccountTopics | public/js/gateway-edge-kit.js:241-244 | the topics of the request, each once, with the access of the first extra naming it when that is a known one, else readwrite |
| MqttTopics.AnnouncedIsGranted | public/js/gateway-edge-kit.js:230-248 | announced and granted access of a shared topic agree exactly for the device topic, for extras first given a known access, and for the vendor topic unless that access is read or write only |
| MqttTopics.VendorTopicIsAnnouncedWider | public/js/gateway-edge-kit.js:234-244 | for every accepted user, an accepted extra that names the vendor topic of the template for reading is announced readwrite and requested read |
| MqttTopics.PlannedIsGranted | public/js/gateway-edge-kit.js:230-248 | announced topics are pairwise distinct, accepted, and the same as those of the request with its vendor topic |
| MqttTopics.UsersAreApart | public/js/gateway-edge-kit.js:235 | the device filters of two different users match no common topic |
| HashRoute.CodecRoundTrip | public/js/gateway-edge-kit.js:28-33 | decodeURIComponent undoes encodeURIComponent on every string of Unicode scalar values (RFC 3986 section 2.1 over UTF-8) |
| HashRoute.EncodeNeverSlash | public/js/gateway-edge-kit.js:33 | an encoded id contains no slash and is empty only for the empty id |
| HashRoute.EncodeWritesUnreserved | public/js/gateway-edge-kit.js:33 | an encoded id consists of unreserved characters and of percent signs with two capital hexadecimal digits |
| HashRoute.UnreservedIsKept | public/js/gateway-edge-kit.js:33 | an id of unreserved characters is written as it is |
| HashRoute.DecodeIsExact | public/js/gateway-edge-kit.js:28 | the decoder answers a string for exactly the texts that read as it with some characters escaped as their shortest UTF-8 octets (RFC 3629), and fails for every other text |
| HashRoute.RouteIsMatched | public/js/gateway-edge-kit.js:25-26 | which hashes are routes: the prefix, an id without a slash, at most one tab of small letters |
| HashRoute.ParsedIs | public/js/gateway-edge-kit.js:24-30 | a hash parses to the decoded id and the tab if it is known, else overview, exactly for routes that decode |
| HashRoute.RouteRoundTrip | public/js/gateway-edge-kit.js:24-34 | parsing a built hash gives back the id and the known tab (else overview), exactly for non-empty ids |
| Changelog.PrepareHeadings | scripts/changelog-release.js:48-78 | after one release the headings are the new one followed by the old ones, without a promoted one |
| Changelog.PromotesExactly | scripts/changelog-release.js:53-60 | a release promotes exactly when the first heading reads as unreleased, in capitals or not, and some line before the next heading is neither white space nor a rule |
| Changelog.WrittenSectionIsPromoted | scripts/changelog-release.js:60-63 | such a section becomes the release: its heading is replaced and no other line changes |
| Changelog.EmptySectionIsNotPromoted | scripts/changelog-release.js:58-76 | a section without writing is left where it is, and the subject is listed in front of it |
| Changelog.HeadingTells | scripts/changelog-release.js:62 | a release heading names the version in brackets and ends with the date |
| Changelog.SectionByWord | scripts/changelog-release.js:31-36 | the section of a subject by the word it begins with |
| Changelog.NextPromotesExactly | scripts/changelog-release.js:53-60 | the next release promotes exactly when the version just written reads as Unreleased; the first heading is the new version |
| Changelog.EntryIsListed | scripts/changelog-release.js:67-76 | a generated section names its kind, lists the subject and nothing else, ends before the older releases and leaves their lines as they are |
| Changelog.LinesSurvive | scripts/changelog-release.js:61-76 | every line but a promoted heading survives a release, in order |
| Changelog.HeadingsNewestFirst | scripts/changelog-release.js:48-78 | after any number of releases the newest heading is first, and all headings stand newest first above the old ones exactly when no earlier version reads as Unreleased |
| Changelog.UnreleasedLosesItsHeading | scripts/changelog-release.js:53-62 | on every file, a release with the version `Unreleased` loses its heading to the next one |
| Changelog.OnlyTheFirstPromotes | scripts/changelog-release.js:54-64 | only the first of any number of releases promotes exactly when no version reads as Unreleased |
| Changelog.HistorySurvives | scripts/changelog-release.js:48-78 | every line of the starting file but a heading the first release promotes survives any number of releases, in order, whatever their versions |
| Changelog.TextIsLines | scripts/changelog-release.js:49-77 | rewriting the text again and again with single-line inputs is rewriting its lines again and again |
| Changelog.EntryBehindPrefix | scripts/changelog-release.js:38-42 | a subject with a conventional prefix gives the text behind it |
| Changelog.EntryWithoutPrefix | scripts/changelog-release.js:38-42 | every other subject is kept whole |
| Palette.TokensAreWords | public/js/command-palette.js:50 | splitting gives back exactly the words, whatever white space stands around and between them |
| Palette.ScoreItem | public/js/command-palette.js:63-85 | the loop with its early exit computes the score |
| Palette.ScoreIsMatch | public/js/command-palette.js:63-85 | the score is -1 exactly for items that do not match, and at least 4 for those that do |
| Palette.BetterPlaceScoresMore | public/js/command-palette.js:68-81 | by positions in the texts: an exact label scores more than a prefix, a word start, an inner hit, the keywords and the sub line, in this order |
| Palette.BetterMatchScoresMore | public/js/command-palette.js:63-85 | of two matches of one kind and label length, the one that meets no token in a worse place and some token in a better one scores more |
| Palette.ShorterLabelScoresMore | public/js/command-palette.js:84 | of two matches of one kind in the same or better places the one with the shorter label scores more, up to 60 units |
| Palette.LabelPlaceDecides | public/js/command-palette.js:68-84 | a hit at a word start of the label or better is never outweighed by the kind or the length of a hit in a worse place |
| Palette.KindsInOrder | public/js/command-palette.js:29 | pages come before hosts, settings, actions and gateways, peers and the rest |
| Palette.KindsHaveGroups | public/js/command-palette.js:26-28 | the group of an item and the limit of the group |
| Palette.SortAndSliceIsBest | public/js/command-palette.js:104 | sorting and cutting lists a hit exactly when fewer than the limit beat it, at the position of its rank |
| Palette.BestIsHighest | public/js/command-palette.js:104 | a best list comes by falling scores with ties in input order, within its limit, and no hit left out has a higher score than one that is listed |
| Palette.GroupsAreRanked | public/js/command-palette.js:107 | groups come by falling best scores when there is a query, and among equals or without one in their fixed order |
| Palette.Collect | public/js/command-palette.js:93-99 | the loop over the items collects exactly the hits of each group, in input order |
| Palette.Search | public/js/command-palette.js:89-109 | every group with a candidate appears once with exactly its best hits up to its limit, ties in input order; groups by best hit, then fixed order |
| Palette.ListedMatches | public/js/command-palette.js:63-86 | whatever is listed for a query contains every token and stands in its own group |
| Palette.MatchingIsHit | public/js/command-palette.js:93-98 | every matching item is a candidate of its group |
| Palette.EmptyQueryHits | public/js/command-palette.js:94 | without a query the candidates are exactly the items marked to be shown then |
| Palette.RecentGroupIs | public/js/command-palette.js:100-102 | the group of recent items lists the first five of them in their order |
| Palette.CutBeforeRemoval | public/js/command-palette.js:135-136 | cutting the list before a key is removed loses nothing of what remains within the limit |
| Palette.RecentIsNewest | public/js/command-palette.js:133-137 | after any uses of keyed items the list is exactly the most recent distinct keys, newest first, cut once |
| Ticks.UnitIndex | public/js/dashboard-ui.js:39-44 | the unit keeps the value below 1024 as far as there are units, and no smaller unit does |
| Ticks.DecadeIsUnique | public/js/dashboard-ui.js:60 | the power of ten at or below the share is the only reading of the logarithm |
| Ticks.NiceStepIsTight | public/js/dashboard-ui.js:57-63 | a step is at least an equal share of the maximum and less than twice as large |
| Ticks.NiceStepIsSmallest | public/js/dashboard-ui.js:61-62 | the step is the smallest of all 1, 2, 2.5 and 5 times a power of ten that reaches the share |
| Ticks.ByteTicks | public/js/dashboard-ui.js:69-83 | ticks from 0 in equal nice steps of the right unit, ending at or above the maximum and less than a step above, with at most c and more than c/2 intervals |
| Ticks.CeilOfCeil | public/js/dashboard-ui.js:165 | ceil(n / ceil(n / cap)) is at most cap |
| Ticks.DistanceIs | public/js/dashboard-ui.js:164-166 | the distance of labels is the first preferred one of the unit that keeps to the cap, else ceil(n / cap); the special case of days changes nothing |
| Ticks.XTickIndices | public/js/dashboard-ui.js:161-170 | at most cap indices, equally spaced upwards within the points, ending at the last one and without room for another in front |
| NetChart.RunsAreMaximal | public/js/gateway-net-kit.js:149-155 | the segments are exactly the maximal runs of two or more valid points without a gap, once each in time order; only a trailing point may stand alone |
| NetChart.ChartLines | public/js/gateway-net-kit.js:146-155 | the loop with its open segment draws the specified lines of the sorted points |
| NetChart.DrawnIsRuns | public/js/gateway-net-kit.js:151-155 | one polyline per maximal run in order, and at most the doubled point of an isolated last value behind them |
| NetChart.SortByTimeIs | public/js/gateway-net-kit.js:149 | the sorted points are in time order and the same points |
| NetChart.ScaleCovers | public/js/gateway-net-kit.js:137-142 | the chosen scale is at least 20 and never below any value |
| NetChart.TopIsReached | public/js/gateway-net-kit.js:137-138 | the largest value the scale is chosen for is one of the values, or 0 |
| NetChart.ScaleIsTight | public/js/gateway-net-kit.js:140-142 | the scale is the first round number of the list with a tenth to spare |
| NetChart.ScaleInSeconds | public/js/gateway-net-kit.js:141 | beyond the list the scale is the whole seconds at or above the largest value |
| NetChart.PlotIsMonotone | public/js/gateway-net-kit.js:143-144 | a larger value is drawn strictly higher and a later point strictly further to the right |
| NetChart.PlotEnds | public/js/gateway-net-kit.js:143-144 | 0 lies on the base line and the scale at the top, the window begins at the left edge and ends at the right one |
| NetChart.RunMeans | public/js/gateway-net-kit.js:150-151 | a run in its own words: values that are not negative, in the window, no gap above the limit |
| NetChart.DrawnInside | public/js/gateway-net-kit.js:143-152 | every drawn point lies inside the padded box and is not cut off, before rounding |
| NetChart.LinesInside | public/js/gateway-net-kit.js:143-155 | every vertex of every line drawn from any points shows one of the valid points, at its value and time, inside the padded box of the chosen scale, before rounding |
| NetChart.DrawnInTimeOrder | public/js/gateway-net-kit.js:143 | later points are drawn no further to the left |

## Left out

- IpBlock.ParseEntry: `netip.ParsePrefix` and `netip.ParseAddr` are parameters, so address syntax itself is not modelled.
- IpReload.PublishedIsCurrent: assumes that a new file carries a time stamp and size never used before; `IpReload.TickPublishesExactly` says what happens otherwise. A read is atomic: files are replaced whole.
- Caddy registration, logging, the ticker and the extraction of the client address in `caddy-plugins/mirror/ipblock.go`: wiring around the matcher.
- EdgeHost.EdgeHost.OnMessage: frames that do not parse as JSON and `call` frames change none of the modelled fields; the call handlers, their timeouts and the list of received frames are left out.
- EdgeHost.EdgeHost.OnClose: the close reason and waiters for states, configurations and closing are left out; a close changes no acknowledgement, so notifying the modelled waiters would change nothing.
- EdgeHost.EdgeHost.WaitForAck: the timeout that removes a waiter is left out.
- EdgeHost.EdgeHost.Emit: the explicit `seq` override is left out; numbers are those the host chooses.
- EdgeDelivery.ExactlyOnceInOrder: the receiver is the one the comment at `scripts/plugin-edge-host.js:185` describes; the server's code is not part of this model.
- EdgeWorlds.EmitIsSafeExactly: what looks the same to the host is what its fields and the events emitted hold; a host that also kept the history of its connections could know more.
- Refresh.JobRecord.Run: the statistics of failures, the timer and `renderLive` (and what follows when it throws) are left out; an unknown job name resolves at once and touches nothing.
- Traffic.TrafficState.OnAnswer: the chart data itself is represented by its period; drawing is left out.
- I18nKeys.TopLevelKeys: the escape decoding of `JSON.parse` is a parameter of the scanner, and its exceptions on malformed strings are not modelled. Numbers are taken more generously than RFC 8259 section 6.
- HashRoute.CodecRoundTrip: lone surrogates, on which `encodeURIComponent` throws, are not strings of the model.
- MqttTopics.PlannedTopics: values that are not strings, and the label of the account.
- Changelog.TextIsLines: inputs with line feeds; the command passes only the first line of the subject.
- Palette.Search: the normalisation of labels and queries (lower case, diacritics) is done before; the order of groups that tie in score and are both unknown to the fixed order is not promised.
- Palette.RecentIsNewest: items without a key; the stored fields besides the key are one text.
- Ticks.ByteTicks: the tolerances of 1e-9 and 1e-12, the number formatting of labels and floating-point rounding.
- NetChart.DrawnInside: the rounding to tenths; the outage bands, the tick labels and defaults of the options are left out.
- Dialogs, styling and translated texts of `public/js`, the wiring of `src/server.js`, and the finite tables of `config`: user interface and configuration around these cores.
