# nginxWebUI, modelled and proved in Dafny

nginxWebUI turns database rows and pasted text into nginx and CrowdSec configuration, and reads CrowdSec's alerts
and decisions back. This project models the parts of it where a small mistake would go unnoticed, in the form the
code has them: loops over text as methods with invariants, services as classes, expressions as functions. Each
method is proved against a function, and what the program promises is proved about that function.

Five groups of modules:

* **Raw blocks.** A block of configuration pasted by a user is lexed, parsed and printed (`BlockCodec`, `LexerLaws`,
  `BlockParser`, `BlockRoundTrip`, `BlockEditing`), swapped for a marker while the generated text is formatted and
  put back (`RawBlocks`, `RawBlockTurn`, `RawBlockRestore`, `RawBlockText`); a second lexer, written independently,
  later cuts the `stream` block out of the whole text (`StreamFinder`).
* **WAF event sync.** Paged fetching from a server that answers newest first (`WafFetch`), the replication protocol
  with its single-flight gate, its failures at every write and its recorded gaps (`WafSync`, `WafGaps`), the service
  itself and any number of its calls (`WafSyncCalls`, `WafSyncService`), and the table of events the alerts are merged
  into (`WafEvents`, `WafEventViews`, `WafEventStore`).
* **Policy compilation and its mirrors.** WAF settings compiled to CrowdSec hooks, with an evaluator of those hooks
  (`WafPolicy`, `WafCompile`, `WafMeaning`, `WafSiteNames`, `WafTuning`, `WafSettings`); nginx's choice of a server
  (`ServerNames`, `ServerSelector`, `HostKeys`) and the two readings of a listen text (`ListenPorts`, `ListenTexts`,
  `ListenAgreement`); address prefixes and the prediction of what the generated access
  rules do (`IpPrefix`, `IpLookup`, `IpChoice`).
* **Documents.** The fence tool (`FenceLines`, `FenceBlocks`, `FenceText`, `FenceTool`, `FenceDocument`, `FenceDamage`),
  masking and translating lines (`MaskTool`, `MaskSigns`, `MaskRoundTrip`, `TranslateFile`), the configuration checker
  against a checker of the tree (`ConfChecker`, `CommentText`, `CheckerAgreement`), spelling suggestions (`EditDistance`, `NginxDocs`).
* **Small protocols.** Paged deletion of decisions (`DecisionCleanup`), "the last request wins" (`LatestRequest`),
  base64url and challenge tickets (`Base64Url`, `Tickets`).

`Text` and `Numbers` hold what they share. `dafny verify dfyconfig.toml` checks everything.

## What the proofs brought to light

Where the code does not do what one would expect, the code is modelled as it stands, and where it does is proved as an
exact condition.

* A sync attempt can fail and still have advanced `syncedUntil`: the time is written before the last settings are, so
  a failure in between reports an error with the progress kept (`WafSync.LateFailureAdvances`;
  `WafSync.FailureAfterFetch` says exactly when). No alert is lost by it: `WafSync.NoSilentLoss` covers such runs.
* `recordGap` writes the start of a gap and then its end. A failure between the two leaves the new start beside the
  old end in the settings, and the pair is shown to the user although no sync recorded it (`WafSyncCalls.TornGap`). In
  every run the settings are the start of the last gap that was started and the end of the last that was finished, and
  so a recorded gap whenever the last one started is finished (`WafSync.GapIsTheLast`).
* The selector and the generator read a listen text by different rules. The selector trims every number and refuses a
  second hyphen; the generator trims nothing and drops empty pieces at the end. For `80-90-` directives for eleven
  ports are written, but the site is grouped under the text itself; for `80, 81` there are two groups and no
  configuration. `ListenAgreement.GroupsAreDirectives` says for which texts the two agree: exactly the tidy ones.
* A host is normalised once by the selector and once more by each group. For a host such as `a .` the second time
  makes a difference; `HostKeys.GroupsAnswerForTheKey` says for which hosts it makes none.
* A pasted block survives storing, printing and parsing exactly if trimming its header takes nothing away. A header
  that ends in an escaped blank does not (`BlockEditing.EditRoundTrip`, `BlockEditing.EscapedBlankIsLost`).
* `compose` compares the body it parses back with the one it was given. That comparison never finds a difference
  (`BlockRoundTrip.ComposeAcceptsExactly`): what is rejected is rejected before.
* `addRawBlockEntry` draws a marker that occurs in no block added so far, but does not look for earlier markers in
  the block it adds. `RawBlockRestore.AddKeepsClean` shows that this is the only way to lose the condition under
  which restoring is exact.
* The prediction of a virtual patch's action (`vpatchActionOf`) is right for all settings exactly if every matched
  name starts with `crowdsecurity/vpatch-`; the catalogue does not demand that
  (`WafTuning.PredictionIsRightExactlyIf`).
* Deleting decisions by scenario reaches 10,000 rows of a server that pages. It is complete exactly if no matching
  row stands behind them (`DecisionCleanup.PagedIsComplete`).
* A line of a document that spells a placeholder itself (`@0@`) is accepted after restoring although it has changed
  (`MaskRoundTrip.SpeltPlaceholder`); free of `@`, every line comes back, and only then
  (`MaskRoundTrip.MaskRoundTrips`).
* The fence tool can damage a document, and its guard does not always notice. A converted document is read as it was
  meant exactly if no line of a converted block is a bare run of four or more backticks (`FenceDamage.ResultReadAsMeant`).
  The guard compares contents and balance: it fires on one such document (`FenceDamage.EarlyClose`) and stays silent
  on another (`FenceDamage.SilentDamage`).
* The length guard of `suggest` changes no result: `NginxDocs.Buckets` is proved against a definition without it.

## Model

| member | source | states |
|---|---|---|
| BlockCodec.ScanText | src/main/java/com/cym/utils/NginxBlockCodec.java:95-144 | the nested loops of scan yield exactly the tokens, raw texts, unescaped values, trailing-comment flag or error of the recursive lexer |
| BlockCodec.ScanAppend | src/main/java/com/cym/utils/NginxBlockCodec.java:95-144 | where appended text cannot lengthen the last word or comment, the tokens of a concatenation are those of the first text followed by those read from the second's start |
| LexerLaws.WordMeans | src/main/java/com/cym/utils/NginxBlockCodec.java:95-144 | a word spelt piece by piece (characters, escapes, quotes, braced variables) is read to its end and has the value its pieces mean |
| LexerLaws.ScanMeans | src/main/java/com/cym/utils/NginxBlockCodec.java:95-144 | a text spelt item by item (blanks, comments, braces, semicolons, words) scans into exactly the tokens meant, each at its place, with the trailing-comment flag |
| BlockParser.ParseSingleBlock | src/main/java/com/cym/utils/NginxBlockCodec.java:15-52 | one pass over the tokens with depth, open and pending words returns the draft, or the first error, of the step function folded over the tokens |
| BlockRoundTrip.ComposeAcceptsExactly | src/main/java/com/cym/utils/NginxBlockCodec.java:62-93 | compose succeeds iff header and body scan, the header is upstream with one plain name, or in stream-child words whose first is no name of a container, and the body's directives, nested names and braces are well formed by themselves; the comparison of bodies rejects nothing more |
| BlockRoundTrip.ComposeRoundTrip | src/main/java/com/cym/utils/NginxBlockCodec.java:62-78 | parsing an accepted composition gives back exactly the header's words and the body verbatim, plus one newline only after a trailing comment |
| BlockRoundTrip.BlockClosesAtItsEnd | src/main/java/com/cym/utils/NginxBlockCodec.java:58-78 | in every accepted composition depth returns to zero at the last character and nowhere before, whatever quotes, escapes, comments or variables the body holds |
| BlockRoundTrip.RenderKeepsTokens | src/main/java/com/cym/utils/RawBlockRenderer.java:7-17 | the renderer succeeds iff compose does and keeps every token; only the closing brace moves |
| BlockRoundTrip.RenderRoundTrip | src/main/java/com/cym/utils/RawBlockRenderer.java:7-17 | a rendered block parses back to the header's words and the body, which then ends in a line end |
| BlockEditing.ParseAcceptsExactly | src/main/java/com/cym/utils/NginxBlockCodec.java:15-93 | a text is accepted iff its tokens are header words spelt out for each context, a brace, a well-formed body and its closing brace at the end; the draft is the header's raw words and the text between the two braces |
| BlockEditing.EditRoundTrip | src/main/java/com/cym/utils/NginxBlockCodec.java:15-78 | for every accepted text: composing its draft and parsing again gives the same draft iff trimming the draft's header changes nothing |
| BlockEditing.EscapedBlankIsLost | src/main/java/com/cym/utils/NginxBlockCodec.java:63-65 | a block accepted by the parser whose stored draft compose refuses: its header ends in an escaped blank |
| RawBlocks.RestoreRawBlocks | src/main/java/com/cym/service/ConfService.java:1684-1709 | the two loops compute the fold of single replacements; whatever is returned holds no marker |
| RawBlockTurn.TurnHappens | src/main/java/com/cym/service/ConfService.java:1686-1702 | one turn succeeds iff the marker line occurs exactly once, behind nothing but blanks on its line, and the block ends in a brace; it then replaces just that line |
| RawBlockTurn.TurnSubstitutes | src/main/java/com/cym/service/ConfService.java:1686-1702 | a turn does not change what simultaneous substitution of all entries gives |
| RawBlockRestore.RestoreExact | src/main/java/com/cym/service/ConfService.java:1684-1709 | for clean entries the loop succeeds iff every marker line stands once, behind nothing but blanks on its line, no marker stands elsewhere and every block is closed; the result is the simultaneous substitution, each block verbatim but for the indent of its last brace |
| RawBlockText.OneBlockRestored | src/main/java/com/cym/service/ConfService.java:1684-1709 | one block behind whole lines: the text in front, the block up to its last character, the indent of the marker, the brace, and the text behind |
| RawBlockText.RestoredText | src/main/java/com/cym/service/ConfService.java:1684-1709 | for any number of entries in any order: a skeleton cut at its marker lines comes back with the lines kept and every block written out to the last character |
| RawBlockText.RestoreWritesOut | src/main/java/com/cym/service/ConfService.java:1684-1709 | every skeleton that is restored is cut in this way, so that the result of every success is spelt out |
| RawBlockRestore.OrderIrrelevant | src/main/java/com/cym/service/ConfService.java:1684-1709 | neither success nor the text depends on the order of the entries |
| RawBlockRestore.AddRawBlockEntry | src/main/java/com/cym/service/ConfService.java:1669-1682 | the first drawn marker that collides with no marker and no block is taken and appended with the block |
| RawBlockRestore.AddKeepsClean | src/main/java/com/cym/service/ConfService.java:1669-1682 | the checks keep the entries clean iff the new block contains no earlier marker |
| StreamFinder.FindTopLevelStreamBlock | src/main/java/com/cym/service/ConfService.java:549-616 | the character loop with its flags returns the text between the positions the recursive search finds, or nothing |
| StreamFinder.LexersAgree | src/main/java/com/cym/service/ConfService.java:549-616 | from any boundary the character loop finds just what a search over the tokens of NginxBlockCodec finds, unless the text does not scan or closes more than it opened |
| StreamFinder.StreamBlockFound | src/main/java/com/cym/service/ConfService.java:549-616 | behind any text that scans, balances and holds no earlier top-level stream block, and in front of any text, exactly the stream block is cut out |
| WafFetch.PageOrder | src/main/java/com/cym/service/WafEventSyncService.java:150-176 | a matching alert missing from a newest-first page is no newer than its oldest alert, and the page is full |
| WafFetch.BoundsAdmit | src/main/java/com/cym/service/WafEventSyncService.java:150-155 | the relative bounds, one rounded up and one down, admit every owed alert that is not newer than the last boundary |
| WafFetch.RoundAccounts | src/main/java/com/cym/service/WafEventSyncService.java:154-174 | after a page everything owed has been seen or is no newer than the page's oldest alert; a short page leaves nothing owed |
| WafFetch.TakePage | src/main/java/com/cym/service/WafEventSyncService.java:154-174 | one round keeps what is accounted for; the boundary of the next page is strictly earlier in whole seconds, or the loop ends truncated |
| WafFetch.Fetch | src/main/java/com/cym/service/WafEventSyncService.java:150-176 | complete or honest: every owed WAF alert is in the output or, only if truncated, lies between from and the returned oldest; oldest and newest are those of everything read; boundaries strictly decrease in whole seconds; what was read are the pages behind those boundaries, and it is truncated iff 120 full pages were read or a full page stays in the second of the last boundary |
| WafSync.InvStep | src/main/java/com/cym/service/WafEventSyncService.java:98-140 | every step of every attempt, with a failure possible after each of its writes, the two of a gap included, and of clean-up, keeps the protocol's invariant |
| WafSync.NoSilentLoss | src/main/java/com/cym/service/WafEventSyncService.java:98-140 | after any run: at most one attempt is past the gate, and every WAF alert at least 1 s older than syncedUntil is stored, inside some recorded gap or cleaned up, or the sync that first owed it could no longer get it (outside retention, or dropped by CrowdSec) |
| WafSync.OnlyCommitsAdvance | src/main/java/com/cym/service/WafEventSyncService.java:98-140 | over a whole run: as many syncs as commits, syncedUntil is when the last of them began, and each went on from where the one before it left it; busy and failed attempts and clean-ups leave no trace in it |
| WafSync.GapIsTheLast | src/main/java/com/cym/service/WafEventSyncService.java:178-203 | over a whole run: gapFrom is the start of the last gap whose start was written, gapTo the end of the last whose end was written, recorded are exactly the finished ones, and the pair is one of them if the last gap started is finished |
| WafSync.FailureAfterFetch | src/main/java/com/cym/service/WafEventSyncService.java:118-136 | a failing attempt leaves syncedUntil as it found it iff it fails before writing it, or wrote the same time |
| WafSync.LateFailureAdvances | src/main/java/com/cym/service/WafEventSyncService.java:122-135 | a possible run that ends failed with syncedUntil advanced |
| WafSyncService.WafEventSyncService.DetectAndRecordGap | src/main/java/com/cym/service/WafEventSyncService.java:178-196 | in numbers: after more than seven days the gap from the last sync to seven days ago; otherwise, if the last alert is within seven days and the oldest one read is later than the last sync, the gap up to that one unless the probe finds an alert from before the last sync; no other gap. A failing probe leaves the settings alone, a failing write what was written before it, and each fails exactly when it is reached |
| WafSyncService.WafEventSyncService.RecordGap | src/main/java/com/cym/service/WafEventSyncService.java:198-203 | writes start and end, and leaves no, half or the whole gap behind according to the write that fails |
| WafSyncService.WafEventSyncService.Sync | src/main/java/com/cym/service/WafEventSyncService.java:98-140 | the whole new state for every outcome: unconfigured and busy change nothing; a sync that got through leaves syncedUntil, the newest alert time, the hits, and the gap spelt out by WafGaps.IsGap or the old one; a failed one ends where probe or writes fail, with the writes before it kept; the fetch is honest and its times and hits are those of the pages read; the gate is open again; a reachable state stays reachable |
| WafGaps.GapIs | src/main/java/com/cym/service/WafEventSyncService.java:98-203 | an attempt finds a gap iff it is one of three: the unread part of a truncated fetch, from five minutes before the last sync or the start of retention; over seven days since the last sync; or over ten minutes with nothing known from before it |
| WafGaps.RunFindsGap | src/main/java/com/cym/service/WafEventSyncService.java:111-117 | in every run, behind a fetch the start of a gap is written iff that gap is one of these |
| WafGaps.CompletedIsSynced | src/main/java/com/cym/service/WafEventSyncService.java:98-135 | the store after an attempt that got through, field by field and in numbers, gaps unchanged if there is none to record |
| WafSyncService.WafEventSyncService.CleanUp | src/main/java/com/cym/service/WafEventSyncService.java:215-221 | removes exactly the alerts of events before the cutoff, notes the latest cutoff, and stays within what the protocol can reach |
| WafSyncCalls.AttemptIsRun | src/main/java/com/cym/service/WafEventSyncService.java:98-140 | from any world without an attempt inside, whatever an attempt does to the stored state is a possible run of the protocol |
| WafSyncCalls.TornGap | src/main/java/com/cym/service/WafEventSyncService.java:198-213 | two calls after which the settings hold a start and an end that no sync recorded together |
| WafSyncCalls.ServiceLosesNothing | src/main/java/com/cym/service/WafEventSyncService.java:98-140 | after any sequence of calls of sync, refused or ending in any way, and of cleanup, no alert old enough is lost in silence |
| WafEvents.MergeHit | src/main/java/com/cym/service/WafEventService.java:185-214 | setting the fields one after the other equals the merge function |
| WafEvents.StoreHitsKeep | src/main/java/com/cym/service/WafEventService.java:111-155 | merging any alerts keeps: one event for a request, distinct ids, every rule row points to a stored event with its time |
| WafEvents.CleanedKeeps | src/main/java/com/cym/service/WafEventService.java:297-302 | clean-up keeps exactly the events not older than the cutoff, and of the rule rows exactly those of kept events |
| WafEvents.RunKeeps | src/main/java/com/cym/service/WafEventService.java:111-302 | after any sequence of stores and clean-ups the invariant holds |
| WafEventViews.StoredIs | src/main/java/com/cym/service/WafEventService.java:111-214 | the distinct new alerts are those whose id and second have no rule row yet, each once; each request's event (address, method, path and second) gains exactly their sources and categories, is blocking iff it was or some alert is in band and not just virtual patches that all log, and each new alert has its rules listed once |
| WafEventViews.StoredTwice | src/main/java/com/cym/service/WafEventService.java:111-155 | storing the same alerts again changes nothing, whatever the settings are by then |
| WafEventViews.BatchesIrrelevant | src/main/java/com/cym/service/WafEventService.java:111-155 | one batch or two: the same events, sources, categories and actions, and the same rules under every alert |
| WafEventStore.StepMeans | src/main/java/com/cym/service/WafEventService.java:124-150 | one turn of the main loop, on tables and the map of events in memory, is one step of the table that will be written back |
| WafEventStore.WafEventService.ExistingAlerts | src/main/java/com/cym/service/WafEventService.java:220-232 | asking in chunks finds exactly the alerts that already have rule rows |
| WafEventStore.WafEventService.LoadEvents | src/main/java/com/cym/service/WafEventService.java:156-166 | asking in chunks finds exactly the stored events of the alerts' requests |
| WafEventStore.WafEventService.Store | src/main/java/com/cym/service/WafEventService.java:111-155 | the tables afterwards are exactly those of the specification, the invariant holds, and the count is that of the events added |
| WafEventStore.WafEventService.CleanUp | src/main/java/com/cym/service/WafEventService.java:297-302 | the tables afterwards are the cleaned ones, and the count is that of the events removed |
| WafPolicy.ReadIds | src/main/java/com/cym/service/WafTuningService.java:113-124 | the list read from comma-separated text is the pieces trimmed, blank ones dropped, each once |
| WafPolicy.IdsRoundTrip | src/main/java/com/cym/service/WafTuningService.java:113-124 | joining the ids that were read and reading them again gives the same ids |
| WafPolicy.TableOf | src/main/java/com/cym/service/WafTuningService.java:139-148 | the loop over the rows gives the table of the scope, a later row for a key replacing an earlier one |
| WafPolicy.DefaultsSayNothing | src/main/java/com/cym/service/WafTuningService.java:327-335 | dropping every setting isDefault accepts changes no rule's effective action and no rule's excluded sites |
| WafPolicy.RowOrderIrrelevant | src/main/java/com/cym/service/WafTuningService.java:139-148 | with one row for each scope and key, the table does not depend on the order of the rows |
| WafCompile.SplitNames | src/main/java/com/cym/service/WafTuningService.java:150-172 | the words of a server_name end up as exact names, suffixes or skipped, each once |
| WafCompile.Render | src/main/java/com/cym/service/WafTuningService.java:210-262 | the loops that fill the maps and lists assemble the compiled configuration: rules ordered by kind and key, hooks by filter |
| WafCompile.CompiledIsExact | src/main/java/com/cym/service/WafTuningService.java:101-262 | evaluating the generated hooks, a rule is active for a Host header iff no catalogue rule of that name is off or has an excluded site with a name for that host |
| WafMeaning.ActionMeans | src/main/java/com/cym/service/WafTuningService.java:84-111 | a rule acts as block, count, log or off: the word of its own last row if that is one of its source's three words, else the word of its category's last row if that is, else block or count |
| WafMeaning.TakenOutExactlyIf | src/main/java/com/cym/service/WafTuningService.java:101-262 | for every catalogue and all rows: the configuration removes a virtual patch, by name and in band, or a CRS rule, by id and out of band, for a host iff a rule of that key is off by these words or a row lists a site with a name for the host |
| WafMeaning.ActiveExactlyIf | src/main/java/com/cym/service/WafTuningService.java:101-262 | the same for a Host header, of which what stands before the colon counts, in lower case |
| WafSiteNames.NamesAgreeWithNginx | src/main/java/com/cym/service/WafTuningService.java:150-195 | the generated host test holds iff some name that was not skipped covers the host by nginx's own reading of the name |
| WafTuning.LetThroughIsExact | src/main/java/com/cym/service/WafTuningService.java:232-262 | in band, a request with matches is let through and its event dropped iff every matched rule is log-only |
| WafTuning.CountedIsExact | src/main/java/com/cym/service/WafTuningService.java:232-262 | out of band the alert always goes out; the event is dropped iff some CRS rule is log-only and every scoring rule matched is |
| WafTuning.VpatchActionOf | src/main/java/com/cym/service/WafTuningService.java:265-277 | log iff there is a virtual patch among the names and all of them are log-only |
| WafTuning.ActionsNow | src/main/java/com/cym/service/WafTuningService.java:280-294 | the loop over the catalogue gives every rule's effective action |
| WafTuning.PredictionIsRightExactlyIf | src/main/java/com/cym/service/WafTuningService.java:265-277 | for matched virtual patches: prediction and compiled hooks agree under all settings and sites iff each name starts with the hub's prefix for virtual patches |
| WafTuning.DisagreesOn | src/main/java/com/cym/service/WafTuningService.java:265-277 | for every name without the prefix, settings under which prediction and hooks differ |
| WafSettings.WafTuningService.Apply | src/main/java/com/cym/service/WafTuningService.java:296-423 | changes are accepted iff there is a catalogue and each names a rule of it with a word of the rule's source or inherit, or a category with a word of the category's source, and only sites that exist; otherwise the first unacceptable one is named and nothing is stored; accepted changes are all stored, normalised, and the configuration is compiled from the stored rows |
| WafSettings.StoredMeansSaid | src/main/java/com/cym/service/WafTuningService.java:384-423 | the stored rows compile to what rows followed by changes say, the last word winning; one row per key is kept, and defaults never enter |
| WafSettings.CompiledInAnyOrder | src/main/java/com/cym/service/WafTuningService.java:210-262 | the compiled configuration does not depend on the order of the rows |
| WafSettings.CompiledWithoutDefaults | src/main/java/com/cym/service/WafTuningService.java:327-335 | nor on any row isDefault would drop |
| WafSettings.TidyKeepsIds | src/main/java/com/cym/service/WafTuningService.java:384-400 | normalising a change before it is stored changes neither its ids nor whether it is a default |
| WafSettings.DefaultTextExactlyIf | src/main/java/com/cym/service/WafTuningService.java:210-262 | the printed text is the image's default iff the settings leave every catalogue rule alone |
| HostKeys.KeyOfKey | src/main/java/com/cym/service/HttpServerSelector.java:184-212 | normalising a normalised host again changes nothing iff it has no blank at its ends |
| HostKeys.GroupsAnswerForTheKey | src/main/java/com/cym/service/HttpServerSelector.java:199-212 | the groups answer for the selector's own key, whatever the sites and their patterns, iff that key has no blank at its ends |
| HostKeys.BlankBeforeDot | src/main/java/com/cym/service/HttpServerSelector.java:184-212 | a host with a blank in front of its last dot has a key with a blank, and that key another key |
| ListenPorts.ListenerGroups | src/main/java/com/cym/service/HttpServerSelector.java:99-131 | from the text itself: the loops over pieces and ports give the groups, distinct and never empty, with every trimming, refusal and range in either direction |
| ListenPorts.ProcessPort | src/main/java/com/cym/service/ConfService.java:1118-1147 | from the text itself: the ports in order, by Java's splitting without a limit and without trimming, or the exception |
| ListenPorts.HttpListen | src/main/java/com/cym/service/ConfService.java:1149-1191 | the directives for these ports, with the untrimmed host, and once more for IPv6; none at all if a piece is no number |
| ListenAgreement.GroupsAreDirectives | src/main/java/com/cym/service/HttpServerSelector.java:99-131 | for every listen text: directives are written and open exactly the end points of the groups iff every piece is a port or two ports with one hyphen, nothing else, and blanks in front of the address are characters up to U+0020 |
| ListenAgreement.HyphenTooMany | src/main/java/com/cym/service/ConfService.java:1118-1147 | for any two ports with a hyphen behind each: directives for the whole range, and the text itself as the only group |
| ListenAgreement.BlankBehindComma | src/main/java/com/cym/service/ConfService.java:1118-1147 | for any two ports with a comma and a blank between them: two groups and no directives |
| ListenAgreement.ReadDifferently | src/main/java/com/cym/service/ConfService.java:1118-1147 | both for the texts 80-90- and 80, 81 |
| ServerSelector.LongestOf | src/main/java/com/cym/service/HttpServerSelector.java:241-259 | one pass with resets gives the sites of all wildcards of the greatest matching length |
| ServerSelector.WildcardsAre | src/main/java/com/cym/service/HttpServerSelector.java:140-168 | the wildcard lists answer as the configured names do |
| ServerSelector.ChoiceIsUnbeaten | src/main/java/com/cym/service/HttpServerSelector.java:53-238 | the tiers choose exactly the sites with a covering name that no covering name beats in nginx's order; only if none covers, the enabled sites marked as default, or the first enabled site if none is marked |
| ServerSelector.ListenGroup.Candidates | src/main/java/com/cym/service/HttpServerSelector.java:199-204 | whatever was asked before, a group answers with the choice for the normalised host; the memo table stays right |
| ServerSelector.HttpServerSelector.Candidates | src/main/java/com/cym/service/HttpServerSelector.java:199-212 | for any sequence of calls: the union of the groups' choices in configuration order, nothing for a missing host |
| ServerSelector.HttpServerSelector.constructor | src/main/java/com/cym/service/HttpServerSelector.java:53-97 | groups, server order and indexes are those of the enabled servers, and the state is valid |
| ServerSelector.ChoiceIsEnabled | src/main/java/com/cym/service/HttpServerSelector.java:75-97 | a group chooses only enabled sites, and some site if one is enabled |
| ServerSelector.AnswerNeverEmpty | src/main/java/com/cym/service/HttpServerSelector.java:199-212 | the answer has no duplicates, names enabled sites only, and is empty iff no site is enabled |
| IpPrefix.Contains | src/main/java/com/cym/utils/IpMatch.java:38-65 | the bit loop decides whether the address begins with the prefix's bits; families do not mix |
| IpPrefix.HoldsIsInterval | src/main/java/com/cym/utils/IpMatch.java:38-65 | membership is membership in one interval of integers, base to base plus size |
| IpPrefix.NestedOrDisjoint | src/main/java/com/cym/utils/IpMatch.java:38-65 | two prefixes with an address in common: every address of the longer is one of the shorter |
| IpLookup.Generate | src/main/java/com/cym/service/ConfService.java:808-942 | the builders' loops give the allow list, country maps, access rules and site guards of the stored lists and rules |
| IpLookup.Lookup | src/main/java/com/cym/service/IpLookupService.java:73-113 | the layers, their states, the matched lists and the deciding layer, including that an allow-list match skips the rest |
| IpLookup.GeoLayer | src/main/java/com/cym/service/IpLookupService.java:145-186 | one detail for each enabled site, and blocked, undecided or allowed for all of them together |
| IpLookup.AccessIsPredicted | src/main/java/com/cym/service/ConfService.java:880-926 | evaluating the access rules, an address is rejected iff it is on a deny list and on no allow list; the generated allow list is that of lookup |
| IpLookup.SiteIsPredicted | src/main/java/com/cym/service/IpLookupService.java:145-186 | for every site, effective rule and country: the predicted flag is what the site's test of its map does, and an allowlisted address is never rejected |
| IpLookup.LookupPredicts | src/main/java/com/cym/service/IpLookupService.java:73-186 | lookup predicts the generated configuration for every address and country: no rejection for an allowlisted address, otherwise each site's flag, the layer's state and the deny match are what nginx does |
| IpChoice.SiteDecision | src/main/java/com/cym/service/ConfService.java:928-942 | the first enabled rule of the site speaks, without one the first enabled rule for all sites; it blocks the countries that are not listed in mode 0 and the listed ones in any other mode, none if it names none |
| FenceLines.FenceScan | scripts/fence-code-blocks.js:148-166 | marks every line as outside, marker or inside, and says whether a fence is open at the end |
| FenceLines.ContentFingerprint | scripts/fence-code-blocks.js:177-191 | the joined contents without white space are the fingerprint, line by line |
| FenceBlocks.FenceParts | scripts/fence-code-blocks.js:122-146 | a block becomes a line that opens a fence, lines of which none closes it, and a line that does |
| FenceBlocks.FenceKeeps | scripts/fence-code-blocks.js:122-210 | that fence is closed at its end and has the fingerprint of the quoted lines |
| FenceBlocks.StandsExactlyIf | scripts/fence-code-blocks.js:122-146 | for every converted block: no line before the last closes its fence iff no line of the block is a bare run of four or more backticks |
| FenceText.ReadLine | scripts/fence-code-blocks.js:42-60 | every quote line is in one way an indent, the quote sign, at most one white-space character, and a text that means something once its escapes are read |
| FenceText.ConvertsExactlyIf | scripts/fence-code-blocks.js:74-91 | a block becomes a fence iff something is quoted, a line shows a sign of code or no line is nested or ends as prose does, and all lines with content have one indent |
| FenceText.ConvertedLines | scripts/fence-code-blocks.js:42-60 | line by line: the fence holds what each quoted line means behind the one indent, with its own indentation, blank lines without one, and without the blank lines at the end; it opens and closes with four backticks if a line holds three, with three otherwise |
| FenceTool.SplitBlocks | scripts/fence-code-blocks.js:22-40 | the loop finds the maximal runs of quote lines without notes, with their positions |
| FenceTool.SplicedIsConverted | scripts/fence-code-blocks.js:212-256 | splicing the planned replacements from the back is replacing segment by segment |
| FenceTool.ConvertFile | scripts/fence-code-blocks.js:212-256 | the text, the number of conversions, of blocks already in a fence and of blocks taken for prose, the first line of each block of mixed indent, and each guard problem reported iff what it says holds of the text |
| FenceDocument.RunInDocument | scripts/fence-code-blocks.js:22-256 | in any document a run of quote lines becomes its fence, spelt out line by line, iff it stands in no fence, holds no note, looks like code and has one indent, and stays as it is otherwise; the rest is converted as if it stood alone |
| FenceDocument.PlainInDocument | scripts/fence-code-blocks.js:212-256 | a line that is no quote stays where it is |
| FenceDocument.FenceEndIs | scripts/fence-code-blocks.js:140-166 | a fence is ended by white space, at least as many backticks as opened it, and nothing behind them but white space |
| FenceTool.GuardIsSilent | scripts/fence-code-blocks.js:212-256 | without a bare run of four or more backticks in a converted block, fingerprint and open fence at the end are kept |
| FenceTool.SecondPassIsIdle | scripts/fence-code-blocks.js:212-256 | a second pass converts nothing and returns the text unchanged |
| FenceDamage.ReadAsMeant | scripts/fence-code-blocks.js:212-256 | for every document: each line of the result is read as meant, converted blocks as whole fences and the rest as before, iff no converted block has a bare run |
| FenceDamage.ResultReadAsMeant | scripts/fence-code-blocks.js:212-256 | the same for the text that convertFile returns, split into its lines again |
| FenceDamage.EarlyClose | scripts/fence-code-blocks.js:122-146 | a document with a bare run on which fingerprint and balance both change |
| FenceDamage.SilentDamage | scripts/fence-code-blocks.js:212-256 | a document with a bare run that is read differently afterwards although fingerprint and balance are the same |
| MaskTool.Protect | scripts/translate-docs.js:130-146 | prefix and rest make up the line, and the passes over the rest give the masked text and its slots |
| MaskTool.Restore | scripts/translate-docs.js:154-167 | the loop over placeholders gives the restored text, and ok iff no placeholder sign is left and every slot came back |
| MaskTool.OkMeansRestored | scripts/translate-docs.js:154-167 | for any engine output: ok implies every slot stands in the text verbatim and no sign is left |
| MaskRoundTrip.MaskRoundTrips | scripts/translate-docs.js:130-167 | masked and restored, a line is accepted and unchanged iff it holds no placeholder sign, through all passes |
| MaskRoundTrip.SpeltPlaceholder | scripts/translate-docs.js:154-167 | a family of lines that are accepted and come back changed |
| TranslateFile.TranslateBatch | scripts/translate-docs.js:271-299 | answers stay with their own lines; a batch with the wrong number of answers counts for nothing and moves none |
| TranslateFile.PutBackLines | scripts/translate-docs.js:429-446 | a chosen line is replaced, by its prefix and the restored translation, iff there is an answer that restores and passes the line check, and applied counts those; every other line stays |
| ConfChecker.StripComment | src/main/java/com/cym/utils/NginxConfChecker.java:241-259 | what is kept ends at the first hash sign outside quotes |
| CommentText.CommentIsCut | src/main/java/com/cym/utils/NginxConfChecker.java:241-259 | in a line written out as bare characters and quoted pieces with escapes, everything up to the hash sign is kept and nothing behind it; everything is in a line without one or with an open quote |
| ConfChecker.Check | src/main/java/com/cym/utils/NginxConfChecker.java:59-155 | the loop with its stack reports the problems of the recursive line scan |
| CheckerAgreement.ScannerEqualsTree | src/main/java/com/cym/utils/NginxConfChecker.java:59-231 | a tree printed one directive per line, with any indentation and comments, is scanned into exactly the problems recursion over the tree finds, and the stack ends empty |
| CheckerAgreement.ContextIsPlace | src/main/java/com/cym/utils/NginxConfChecker.java:167-211 | the context check, with its family filter, opaque blocks and if in location, asks whether the name may stand inside the blocks around it |
| CheckerAgreement.CloserMoves | src/main/java/com/cym/utils/NginxConfChecker.java:86-92 | moving a closing brace to the front of the next line changes line numbers and nothing else, in any text |
| EditDistance.Distance | src/main/java/com/cym/service/NginxDocService.java:249-266 | the two swapped rows compute the recursive Levenshtein distance |
| EditDistance.DistanceIsExact | src/main/java/com/cym/service/NginxDocService.java:249-266 | the distance is at most n iff n single-character insertions, removals and replacements lead from one text to the other |
| EditDistance.DistanceBoundsLengths | src/main/java/com/cym/service/NginxDocService.java:219-246 | the distance is at least the difference of the lengths |
| NginxDocs.Suggest | src/main/java/com/cym/service/NginxDocService.java:219-246 | suggest returns what its definition without the length guard returns, nothing for a missing or blank name |
| NginxDocs.Buckets | src/main/java/com/cym/service/NginxDocService.java:224-240 | the loop with its length guard sorts the names into prefix, inside and near exactly as without it |
| NginxDocs.SuggestionsAre | src/main/java/com/cym/service/NginxDocService.java:219-246 | only known names that resemble the query, at most eight, none only if none resembles it, and an exact name first |
| DecisionCleanup.DeleteMatching | src/main/java/com/cym/service/CrowdSecClient.java:660-693 | the requests are the collected ids, each once and in order, or a prefix of them that ends with the reply that aborted; what is returned is the number of requests answered with success |
| DecisionCleanup.PagedIsExact | src/main/java/com/cym/service/CrowdSecClient.java:660-680 | from a server that pages, the matching ids of the first 10,000 rows, each once and in order |
| DecisionCleanup.PagedIsComplete | src/main/java/com/cym/service/CrowdSecClient.java:660-680 | every matching row is collected iff none stands behind the 10,000th |
| DecisionCleanup.RepeatingIsExact | src/main/java/com/cym/service/CrowdSecClient.java:660-680 | from a server that repeats its whole list, all matching ids, each once, however long the list is |
| LatestRequest.Latest.Begin | frontend/src/pages/crowdsecGuard/view.ts:154-157 | the call is the newest of all started, and the counter is that of the run so far |
| LatestRequest.Latest.Settle | frontend/src/pages/crowdsecGuard/view.ts:158-169 | the outcome is applied iff no call was started since; what is applied grows by just that, and once no call waits the last applied is the last started |
| LatestRequest.AppliedIfNewest | frontend/src/pages/crowdsecGuard/view.ts:154-170 | under every interleaving a settling call is applied iff no call was started after it |
| LatestRequest.LastStartedWins | frontend/src/pages/crowdsecGuard/view.ts:154-170 | applied calls come in the order of their start, and when all have settled the last started is the last applied |
| Base64Url.DecodeEncode | cloudflare/challenge-worker/src/tickets.js:10-20 | every non-empty byte string comes back from its text |
| Base64Url.DecodesExactly | cloudflare/challenge-worker/src/tickets.js:13-20 | exactly the canonical unpadded texts (sections 3.5 and 5 of RFC 4648) are accepted, and encoding what was read gives the text again |
| Tickets.VerifiesFields | cloudflare/challenge-worker/src/tickets.js:42-62 | verifying a framed payload judges just its fields |
| Tickets.SignedSplitsBack | cloudflare/challenge-worker/src/tickets.js:64-71 | a signed response splits back into exactly its seven fields, with expiry now + 60 and the request's address, host and nonce, under a valid signature |
| Tickets.ResponseIsNoRequest | cloudflare/challenge-worker/src/tickets.js:42-71 | no response ticket is accepted as a request ticket, under any secret and at any time |
| Tickets.AcceptedIsFramed | cloudflare/challenge-worker/src/tickets.js:42-62 | whatever is accepted is the canonical frame of a payload that is exactly the ticket's seven fields, of kind req, under this secret, with an expiry at most five minutes ahead |
| Tickets.GoodIsAccepted | cloudflare/challenge-worker/src/tickets.js:42-62 | the converse: the framed fields of a well-formed request ticket are accepted up to and including its expiry if that is at most 300 seconds ahead, and reported as expired afterwards |
| Tickets.ReturnIsSafe | cloudflare/challenge-worker/src/tickets.js:37-41 | every return path is local, not protocol-relative, not back into the challenge, and free of line ends; a path that is so, of at most 2048 bytes and without backslashes and control characters, is kept |

## Left out

Stated weaker, or under a condition of the model's own:

- RawBlockRestore.RestoreExact: holds for entries with distinct markers of one length and no marker inside a block, which addRawBlockEntry establishes as RawBlockRestore.AddKeepsClean says.
- StreamFinder.LexersAgree: says nothing about text that NginxBlockCodec cannot scan or that closes a brace it never opened.
- WafSync.NoSilentLoss: each fetch takes at least one second less than the overlap; settings that cannot be parsed, and failures of the writes by which a failed attempt notes its error, are not modelled.
- WafSyncCalls.ServiceLosesNothing: stored alerts are a set here; WafEventStore.WafEventService.Store and WafEvents.RunKeeps say what the tables behind it hold.
- FenceTool.GuardIsSilent: one direction; what the condition is equivalent to is FenceDamage.ReadAsMeant, and when exactly the guard fires is the contract of FenceTool.ConvertFile. Documents with carriage returns are not covered.
- CheckerAgreement.ScannerEqualsTree: one directive per line; other layouts are covered only as far as CheckerAgreement.CloserMoves goes, and the code calls them approximate itself.
- IpLookup.LookupPredicts: needs country data, one enabled rule for each scope, different map names and list texts of which each stands for one prefix; two ids with the same first twelve characters share a map and are outside it.
- WafEventViews.BatchesIrrelevant: all batches are stored under the same settings, and every alert has a rule; an alert without one is not recognised when it comes again.
- WafTuning.PredictionIsRightExactlyIf: for matched names that are virtual patches of a catalogue in which no key occurs twice.
- MaskRoundTrip.MaskRoundTrips: for protection patterns none of whose matches begins with a digit, as none of the script's does.
- TranslateFile.TranslateBatch: one loop for all engines; the engine that sends single lines is a batch size of one.
- DecisionCleanup.PagedIsExact: the list does not change while it is read.
- ListenAgreement.GroupsAreDirectives: numbers are read in ASCII digits; what StrUtil counts as blank is any predicate that leaves digits, signs, commas and colons alone.
- WafPolicy.ReadIds: a piece is blank if trimming leaves nothing, which differs from StrUtil on control characters and on blanks beyond ASCII.
- Tickets.VerifiesFields: for payloads that do not start with a byte order mark, which the decoder drops.
- ServerSelector.HttpServerSelector.constructor: takes the groups of each site as given; ListenPorts.ListenerGroups computes them.

Not modelled:

- HTTP, JSON, SQL, files and processes: answers of CrowdSec are lists of alerts or decisions, the database a sequence of rows, a failing write the end of an attempt.
- Clocks: all times are whole milliseconds given as input; the time CrowdSec reports for an alert is the time it compares.
- Regular expressions: server_name patterns, code signals and prose patterns, protected spans and host validation are arbitrary predicates or splits; only what the code does with their answers is modelled.
- server_name values are taken after splitting into words, addresses after parsing into prefixes.
- Case folding is that of ASCII; characters are units without surrogates, and numbers are exact integers.
- HMAC and the platform's URL parser are uninterpreted functions with the laws the code relies on.
- Positions in errors are offsets instead of line and column; problem texts are structured values instead of sentences.
- Hooks are grouped by what their filter says instead of by the filter's text; event and alert keys are tuples instead of joined strings, and comma-separated columns are lists, so a separator inside a name is not seen.
- Rows and events are values that are replaced, not objects that are shared; a crash between two writes of one store is not modelled.
- The request number, file hand-over and status of the WAF tuning service; effectiveActions without a catalogue.
- The CrowdSec layer of lookup is an input; the special key of a country map and a rule without a mode are not modelled.
- translate-docs: engines, retries, the whole-file check, repair and navigation stripping; fence-code-blocks: choosing files and writing reports.
- Seeding, mail, monitoring, log aggregation and the web interface carry data between the database, the file system and the
  screen; nothing proved here depends on them. Reordering rows swaps two sequence numbers, and the order it sets is an
  input to the compilers modelled here. The DES tables of Crypt have no specification in the repository to compare with.
