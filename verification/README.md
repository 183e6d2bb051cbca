# Verified models of seven parts of the repository

Seven pieces of code, each as a Dafny model with proofs:

- **The bounded network store** of the Playwright reporter (`NetworkPriority`, `NetworkStore`, `BodyCounts`,
  `NetworkReport`, `NetworkBuilder`, `NetworkHistory`, `NetworkTenure`, `NetworkAccount`). It takes any stream of observations and keeps at most 500 instances,
  200 groups and 100 deduplicated bodies, by duplicate sampling, priority eviction and reference counting.
  `NetworkStore` says what one admission does to the store, with no reference counts and no membership
  index; `NetworkBuilder` is the class with all its maps, loops and early returns, and is proved to do
  exactly that. What the builder promises (its books balance, its indexes agree, victims are the least) is
  proved about the store, for every sequence of observations. The last three modules tell the store and its
  report from the observations alone: every retained instance is one of them, with its own shape, redirect
  and bodies, and every group's counts and times are those of the observations since it was made.
- **Chained embedding** of embedex (`DependencyGraph`, `Embed`). A depth-first cycle detector, Kahn's sort
  and a one-pass evaluator. The two graph algorithms are proved to agree, and the pass to compute the one
  solution of the recursive equations: every destination's text is a chain of splices, one for each distinct
  tag, of the final texts of its sources.
- **The ZIP reader and the stored-archive writer** (`ZipArchive`, `ZipLayout`, `JsMembers`), on bytes. The
  reader ends in bounds on every byte string, and the entries it finds in a written archive are the entries
  written. `ZipLayout` tells from the bytes which headers it looks at and which entries it finds, and that it
  reads archives of any writer, with extra fields and comments.
  `JsMembers` says what the object it fills then holds, and when filling it throws.
- **The admin token cache** (`AdminAuthToken`). Any number of calls as state machines over a lock file, a
  cache file and a clock, with crashes, stale locks and unreadable locks.
- **The lifecycle attachment codec** (`LifecycleSanitization`, `LifecycleContract`, `LifecycleSources`).
  Sanitising, stable priority order, greedy packing under two caps, and parsing. `LifecycleSources` says of
  every field what it is of the untrusted value it came from.
- **Chunked triggering** (`Notifications`). Idempotency keys, one call, and any interleaving of any number of
  attempts of any number of jobs against a provider that delivers a key once.
- **Alias-mutation propagation** of a lint rule (`AliasMutations`), a loop over a map until nothing changes.

`Options` and `JsText` hold the shared shapes and JavaScript's text operations.

Five things turned out other than their names or comments suggest; for each the exact condition is proved.

- A ZIP entry named `__proto__` becomes the prototype of the reader's result. The whole map comes back exactly
  when no entry has that name. With one, the reader throws exactly when a later entry has a name that a byte
  array inherits and does not let be set (such as `length`) and that no entry had before; otherwise it loses
  `__proto__` and the numbers that are no index of the prototype (`JsMembers.FillingIsExact`,
  `ZipArchive.ReadIsExact`, `ZipArchive.ReadUndoesWrite`).
- Parsing an encoded lifecycle attachment gives it back exactly when no included record's origin is longer
  than 256 characters. The cap is put on the text an origin is read from, and serialising an origin can
  lengthen it (`LifecycleContract.ParseUndoesEncode`); it can happen (`LifecycleContract.LongOriginIsLost`,
  `LifecycleContract.LongOriginExists`).
- Packing counts the longer of the two flag texts. A record that would bring a truncated attachment to
  exactly 65,536 bytes is therefore dropped though it fits; that is the only exception
  (`LifecycleContract.PassedOverWouldNotFit`). It can happen, because error texts have no cap
  (`LifecycleContract.DroppedThoughItFits`, `LifecycleContract.SomethingIsDropped`).
- Live holders exclude each other when none has reached the stale age of a caller at the moment that caller
  looks at the lock (`AdminAuthToken.AtMostOneInside`). At that age a waiting caller with time left gets in
  beside the holder, and below it it does not (`AdminAuthToken.TakeOverBoundary`,
  `AdminAuthToken.OverrunBreaksExclusion`, `AdminAuthToken.OverrunHappens`).

- A body's digest covers its content and content type but not whether it was cut. An instance that shares a
  stored body is told with the flag of the first one: exactly when two bodies with one digest differ in the
  flag, the second is told wrongly (`NetworkHistory.SharedBodyIsTheFirst`,
  `NetworkHistory.RetainedBodiesAreObserved`).

## Assumptions

- Hashes are injective: a shape is its own fingerprint, and a credential its own fingerprint. Bodies carry
  their fingerprints; that equal ones mean equal content and type is a condition where it is needed.
- New owner ids and newly created tokens are ones nobody has had before.
- Writing a lock file exclusively, the look at a lock with the removal of an unreadable one, and one
  `releaseLock` are single steps, and the processes share a clock.
- Encoding a file name and decoding it, and deflating a content and inflating it, give it back, for the
  entries being written. Which names are numbers in their canonical spelling is a parameter of the reader.
- Case mapping fixes text that is already in its case; an HTTP origin and an ISO date read back as themselves.
- The JSON text of the attachment being parsed parses to that attachment.
- The provider delivers each idempotency key once, and jobs have base keys of their own.

## Model

| member | source | states |
|---|---|---|
| NetworkPriority.LowestScoreIsTheFilter | packages/playwright-reporter-llm/src/lib/internal/networkPriority.ts:17-47 | the lowest score, 1, is given to exactly the shapes the admission filter turns away, except for a status of -1 |
| NetworkPriority.AbortIsExact | packages/playwright-reporter-llm/src/lib/internal/networkPriority.ts:10-15 | an abort text is, between its white space and in whatever case, net::ERR_ABORTED with no word character after it |
| NetworkStore.AdmitKeepsConsistent | packages/playwright-reporter-llm/src/lib/internal/networkBuilder.ts:132-195 | every admission keeps all of: the indexes of groups and bodies are mutual inverses, metadata covers exactly the live shapes, no group is empty, the three caps hold, the totals and every group balance, suppressed counts have their closed form, and no group scores 1 |
| NetworkStore.RunAccountsForEverything | packages/playwright-reporter-llm/src/lib/internal/networkBuilder.ts:576-598 | for every sequence of admissions, their number is the sum of retained, filtered, dropped by either cap, suppressed and evicted |
| NetworkStore.RunCounts | packages/playwright-reporter-llm/src/lib/internal/networkBuilder.ts:132-133 | the observed counter is the number of admissions |
| NetworkStore.ExistingGroupSurvives | packages/playwright-reporter-llm/src/lib/internal/networkBuilder.ts:184-193 | evicting the least instance for a shape never deletes that shape's own group, so a group id looked up before the eviction is still live when the instance is committed to it |
| NetworkStore.GroupEvictionMakesRoom | packages/playwright-reporter-llm/src/lib/internal/networkBuilder.ts:298-316 | evicting a group makes room under both the group cap and the instance cap |
| NetworkStore.SamplingStep | packages/playwright-reporter-llm/src/lib/internal/networkBuilder.ts:160-175 | the suppressed count of n observations, n - min(n,3) - floor(max(n-3,0)/10), grows exactly where the sampling rule suppresses |
| NetworkStore.BodiesAreExactlyTheReferenced | packages/playwright-reporter-llm/src/lib/internal/networkBuilder.ts:476-530 | after every sequence of admissions a body is stored exactly when a retained instance refers to it |
| NetworkStore.AdmitEvictsTheLeast | packages/playwright-reporter-llm/src/lib/internal/networkBuilder.ts:236-296 | every evicted instance scores strictly less than the newcomer and no more than anything else that was retained; survivors are unchanged |
| NetworkStore.NothingEvictedBelowTheCaps | packages/playwright-reporter-llm/src/lib/internal/networkBuilder.ts:176-190 | below both caps nothing is evicted |
| NetworkStore.DropsAreJustified | packages/playwright-reporter-llm/src/lib/internal/networkBuilder.ts:176-190 | a newcomer is dropped by the group cap only when that cap is reached and its shape is new, and by the instance cap only when that one is; either way everything retained scores at least as high and the instances are left alone |
| NetworkStore.EveryFateIsTold | packages/playwright-reporter-llm/src/lib/internal/networkBuilder.ts:132-195 | what becomes of an observation, exactly: filtered, sampled out, dropped by either cap or stored, told from the store it meets; it is counted in that one counter, and the newcomer is stored exactly when no rule turns it away |
| BodyCounts.CountingIsCollection | packages/playwright-reporter-llm/src/lib/internal/networkBuilder.ts:356-372 | decrementing both references of a removed instance leaves exactly the bodies the remaining instances refer to |
| BodyCounts.ReleasedBothIsCollection | packages/playwright-reporter-llm/src/lib/internal/networkBuilder.ts:342-343 | the two decrements of a removal keep counts, bodies and hash index exact, an instance referring twice to one body included |
| BodyCounts.ReleaseIsExact | packages/playwright-reporter-llm/src/lib/internal/networkBuilder.ts:356-372 | one decrement keeps every count equal to the number of references |
| BodyCounts.ClaimIsExact | packages/playwright-reporter-llm/src/lib/internal/networkBuilder.ts:496-530 | one reference more keeps every count equal to the number of references |
| NetworkReport.TimeOrderIsUnique | packages/playwright-reporter-llm/src/lib/internal/networkBuilder.ts:557-574 | offset and then sequence order the instances in one way only |
| NetworkReport.SortInstances | packages/playwright-reporter-llm/src/lib/internal/networkBuilder.ts:557-574 | the sorted list holds exactly the stored instances, in that order |
| NetworkReport.FindRedirectTarget | packages/playwright-reporter-llm/src/lib/internal/networkBuilder.ts:542-549 | the scan finds the first later request to the redirect's URL that no earlier redirect leads to, and None exactly when there is none |
| NetworkReport.AnnotateRedirects | packages/playwright-reporter-llm/src/lib/internal/networkBuilder.ts:532-555 | the links are those of the greedy matching, and nothing else of an instance changes |
| NetworkReport.MatchingIsUnique | packages/playwright-reporter-llm/src/lib/internal/networkBuilder.ts:532-555 | the greedy matching is determined by the order and the URLs |
| NetworkReport.MatchingIsOneToOne | packages/playwright-reporter-llm/src/lib/internal/networkBuilder.ts:545-548 | no two redirects share a target |
| NetworkReport.LinksAreInverse | packages/playwright-reporter-llm/src/lib/internal/networkBuilder.ts:550-553 | redirectToId and redirectFromId are mutual inverses, and every link goes forward in the order to the redirect's URL |
| NetworkReport.ReportLinksAreInverse | packages/playwright-reporter-llm/src/lib/internal/networkBuilder.ts:197-234 | the same of every report: inverse links that go forward in its list, so they form disjoint chains |
| NetworkReport.ReportIsUnique | packages/playwright-reporter-llm/src/lib/internal/networkBuilder.ts:197-234 | what a report says determines it: two reports of one store are equal |
| NetworkReport.CountRetained | packages/playwright-reporter-llm/src/lib/internal/networkBuilder.ts:208-214 | the counts are the sizes of the groups' member sets |
| NetworkReport.AssertInvariants | packages/playwright-reporter-llm/src/lib/internal/networkBuilder.ts:576-609 | the check throws exactly when the totals or a group do not balance |
| NetworkReport.ReadyToReport | packages/playwright-reporter-llm/src/lib/internal/networkBuilder.ts:197-234 | in a consistent store the finalised totals and every finalised group balance |
| NetworkReport.ReportedReferencesAreStored | packages/playwright-reporter-llm/src/lib/internal/networkBuilder.ts:228-233 | no body reference in a report dangles |
| NetworkBuilder.NetworkBuilder.constructor | packages/playwright-reporter-llm/src/lib/internal/networkBuilder.ts:98-130 | a new builder is valid and holds the empty store |
| NetworkBuilder.NetworkBuilder.DecrementBodyRef | packages/playwright-reporter-llm/src/lib/internal/networkBuilder.ts:356-372 | the bodies and counts become those of one released reference |
| NetworkBuilder.NetworkBuilder.RemoveInstance | packages/playwright-reporter-llm/src/lib/internal/networkBuilder.ts:318-354 | detaches the instance and collects what only it used; an emptied group goes too unless that is skipped; an unknown id changes nothing |
| NetworkBuilder.NetworkBuilder.RemoveGroup | packages/playwright-reporter-llm/src/lib/internal/networkBuilder.ts:298-316 | discards all the group's members and with them the group |
| NetworkBuilder.NetworkBuilder.FindLowestPriorityGroup | packages/playwright-reporter-llm/src/lib/internal/networkBuilder.ts:236-257 | the scan finds the least group by score, first offset and age, if it scores strictly below the newcomer |
| NetworkBuilder.NetworkBuilder.EvictLowestPriorityGroup | packages/playwright-reporter-llm/src/lib/internal/networkBuilder.ts:236-261 | the least group's members are discarded exactly when it scores below the newcomer, and nothing changes otherwise |
| NetworkBuilder.NetworkBuilder.FindLowestPriorityInstance | packages/playwright-reporter-llm/src/lib/internal/networkBuilder.ts:263-292 | the scan finds the least instance by its group's score, offset and sequence, if it scores strictly below the newcomer |
| NetworkBuilder.NetworkBuilder.EvictLowestPriorityInstance | packages/playwright-reporter-llm/src/lib/internal/networkBuilder.ts:263-296 | the least instance is discarded exactly when it scores below the newcomer, and nothing changes otherwise |
| NetworkBuilder.NetworkBuilder.CommitGroup | packages/playwright-reporter-llm/src/lib/internal/networkBuilder.ts:374-414 | adds a fresh group with its index entries and metadata |
| NetworkBuilder.NetworkBuilder.CommitInstance | packages/playwright-reporter-llm/src/lib/internal/networkBuilder.ts:416-474 | adds a fresh instance to its group and to every index |
| NetworkBuilder.NetworkBuilder.ResolveOrAdmitBody | packages/playwright-reporter-llm/src/lib/internal/networkBuilder.ts:496-530 | a known body is counted once more, an unknown one stored if the cap allows, and otherwise the omission counted |
| NetworkBuilder.NetworkBuilder.CommitBodies | packages/playwright-reporter-llm/src/lib/internal/networkBuilder.ts:476-494 | both bodies of the observation, request first |
| NetworkBuilder.NetworkBuilder.Admit | packages/playwright-reporter-llm/src/lib/internal/networkBuilder.ts:132-195 | keeps the class invariant and leaves exactly the store the specification of one admission gives |
| NetworkBuilder.NetworkBuilder.Finalize | packages/playwright-reporter-llm/src/lib/internal/networkBuilder.ts:197-234 | never fails, so neither throw is reachable, and returns the one report of the store: final counts, time order, greedy redirect links |
| NetworkHistory.AdmissionIsFaithful | packages/playwright-reporter-llm/src/lib/internal/networkBuilder.ts:132-195 | one admission: a stored newcomer is this very observation, its method, URL, status, offset and context, its group's shape, its redirect URL and bodies of its fingerprints, and every new body holds one of its bodies; what else remains is as it was, and if it is not stored instances and bodies stay |
| NetworkHistory.OriginsIncrease | packages/playwright-reporter-llm/src/lib/internal/networkBuilder.ts:421-423 | instance ids are given in the order of the observations, one observation each |
| NetworkHistory.EveryInstanceWasObserved | packages/playwright-reporter-llm/src/lib/internal/networkBuilder.ts:416-474 | after every run each retained instance is the observation its id was given for: method, URL, status, offset, context, the shape of its group, redirect URL and the fingerprints of its bodies |
| NetworkHistory.EveryBodyWasObserved | packages/playwright-reporter-llm/src/lib/internal/networkBuilder.ts:508-523 | after every run each stored body is an observed body, content, type, flag and fingerprint |
| NetworkHistory.RetainedBodiesAreObserved | packages/playwright-reporter-llm/src/lib/internal/networkBuilder.ts:476-530 | where equal fingerprints mean equal content and type, a retained instance's references lead to its own observation's content and type; where they mean equal flags too, to its flag |
| NetworkHistory.SharedBodyIsTheFirst | packages/playwright-reporter-llm/src/lib/internal/networkBuilder.ts:70-76 | two bodies with one fingerprint, one after the other: the second instance is told with the first body, so truly exactly when the two are equal, flag included |
| NetworkHistory.BodiesAreCounted | packages/playwright-reporter-llm/src/lib/internal/networkBuilder.ts:503-527 | a stored observation adds one omission for each of its bodies left out, which happens only at the cap, and one truncation for each new body that was cut |
| NetworkTenure.MetadataTellsTheTenure | packages/playwright-reporter-llm/src/lib/internal/networkBuilder.ts:144-161 | after every run the metadata of a shape with a group are the number, the earliest and the latest offset of its observations since the group was made |
| NetworkTenure.OccurrencesTellTheTenure | packages/playwright-reporter-llm/src/lib/internal/networkBuilder.ts:163-175 | after every run a group's occurrences are those observations of its tenure that were stored or sampled out |
| NetworkTenure.OldestInstanceGoesFirst | packages/playwright-reporter-llm/src/lib/internal/networkBuilder.ts:263-288 | of instances that score alike the one with the earliest offset is evicted, a missing one being the latest, and among equal offsets the first admitted |
| NetworkTenure.OldestGroupGoesFirst | packages/playwright-reporter-llm/src/lib/internal/networkBuilder.ts:236-253 | of groups that score alike the one first seen is evicted, and among equal times the first made |
| NetworkTenure.WhatGivesWay | packages/playwright-reporter-llm/src/lib/internal/networkPriority.ts:17-47 | a retained server error gives way to nothing, a real failure only to a server error, another error status only to these, and a fetch only to an error or a failure |
| NetworkTenure.ServerErrorsStay | packages/playwright-reporter-llm/src/lib/internal/networkBuilder.ts:236-296 | a server error once retained is retained, unchanged, to the end of every run |
| NetworkAccount.ReportListsTheStored | packages/playwright-reporter-llm/src/lib/internal/networkBuilder.ts:557-574 | a report lists each stored instance once, unchanged but for its links, by offset, a missing one last, and then by admission |
| NetworkAccount.LinksLead | packages/playwright-reporter-llm/src/lib/internal/networkBuilder.ts:532-555 | a reported link leads to a later request to the redirect's URL, which is not empty and is linked back |
| NetworkAccount.LinksAreGreedy | packages/playwright-reporter-llm/src/lib/internal/networkBuilder.ts:543-549 | a later request to a redirect's URL that it neither links to nor passes is the target of an earlier redirect |
| NetworkAccount.ReportTellsTheRun | packages/playwright-reporter-llm/src/lib/internal/networkBuilder.ts:197-234 | in the report of every run each instance is its own observation, its group has that observation's shape, its links lead to that observation's redirect URL and its references to that observation's bodies |
| NetworkAccount.ReportTellsTheGroups | packages/playwright-reporter-llm/src/lib/internal/networkBuilder.ts:208-224 | in the report of every run a group's first and last offsets, suppressed, retained and total occurrences are those of the observations counted since it was made and of the instances listed |
| NetworkAccount.ReportAddsUp | packages/playwright-reporter-llm/src/lib/internal/networkBuilder.ts:204-234 | the retained counts are the sizes of the report's own lists, within 500, 200 and 100, and with the other buckets they add up to the observations |
| DependencyGraph.BuildDependencyGraph | packages/embedex/src/lib/internal/dependencyGraph.ts:28-54 | a destination depends on exactly those of its sources that are destinations; the graph is closed |
| DependencyGraph.CycleDetector.Visit | packages/embedex/src/lib/internal/dependencyGraph.ts:77-111 | either a cycle is found on the path, or the node is finished and everything it depends on came before it |
| DependencyGraph.DetectCircularDependency | packages/embedex/src/lib/internal/dependencyGraph.ts:63-132 | ends on every closed graph; a reported list starts and ends with one node and follows dependencies, and None is returned exactly when there is no cycle |
| DependencyGraph.OrderExcludesCycles | packages/embedex/src/lib/internal/dependencyGraph.ts:134-140 | an order with every dependency first rules out a cycle |
| DependencyGraph.StuckHasCycle | packages/embedex/src/lib/internal/dependencyGraph.ts:193-197 | nodes that each wait for another of them contain a cycle |
| DependencyGraph.DrainedOrStuck | packages/embedex/src/lib/internal/dependencyGraph.ts:195-197 | when the queue runs dry, either every destination is in the result or the graph has a cycle |
| DependencyGraph.LowerDegrees | packages/embedex/src/lib/internal/dependencyGraph.ts:178-190 | in-degrees stay the number of unmet dependencies, and the queue the nodes without any |
| DependencyGraph.TopologicalSort | packages/embedex/src/lib/internal/dependencyGraph.ts:141-200 | returns the destinations, each once, every dependency before its dependents; it throws exactly when the graph has a cycle |
| DependencyGraph.SortAfterDetection | packages/embedex/src/lib/embed.ts:27-50 | after a detection without result the sort cannot throw |
| Embed.WithoutIsEmpty | packages/embedex/src/lib/internal/processDestinations.ts:102-124 | no invalid and no unreferenced source is found exactly when one list is within the other |
| Embed.SourcesForceAMatch | packages/embedex/src/lib/internal/processDestinations.ts:126-133 | a destination with a source never gives NO_MATCH |
| Embed.WithoutIsLeftOver | packages/embedex/src/lib/internal/processDestinations.ts:84-124 | the reported sources are every one that is in one list and not in the other, in order, and no other |
| Embed.UniqueIsDistinct | packages/embedex/src/lib/internal/processDestinations.ts:136 | the tags spliced are the different full matches in order of first occurrence, each as the last tag of its kind |
| Embed.ProcessedIsExplained | packages/embedex/src/lib/internal/processDestinations.ts:59-166 | the outcome told from the text operations alone: invalid, unreferenced, no match, or the chain of texts from the normalised content, each the splice of the next distinct tag with its source's normalised text; UPDATE with the last of them, NO_CHANGE exactly when that is the first |
| Embed.ProcessDestination | packages/embedex/src/lib/internal/processDestinations.ts:59-166 | the outcome is that chain over the destination's own text, where a source that was updated contributes its update without the marker line and any other its own text |
| Embed.EmbedInOrder | packages/embedex/src/lib/embed.ts:48-74 | one pass over an ordered list gives every destination that chain over its text, where each source contributes its final update without the marker line if its own outcome is an update, and its text otherwise |
| Embed.MeaningIsUnique | packages/embedex/src/lib/embed.ts:48-74 | on an ordered graph two solutions of those equations agree on every prefix of the order |
| Embed.OneMeaning | packages/embedex/src/lib/embed.ts:48-74 | the equations have one solution, so every valid order gives the same results |
| Embed.EmbedAll | packages/embedex/src/lib/embed.ts:21-92 | CIRCULAR_DEPENDENCY is reported, with a real cycle, exactly when the entries have one; otherwise every destination has one outcome, the chain over its text and the final texts of its sources |
| ZipArchive.EndOffset | packages/playwright-reporter-llm/src/lib/internal/zipArchive.ts:15-28 | the last record that ends the archive and has nothing between it and its directory, or -1 when there is none |
| ZipArchive.FindEndOfCentralDirectoryOffset | packages/playwright-reporter-llm/src/lib/internal/zipArchive.ts:10-31 | the backward scan finds that record, with every read in bounds on every byte string |
| ZipArchive.ReadEntry | packages/playwright-reporter-llm/src/lib/internal/zipArchive.ts:56-99 | an entry's content is the slice its two headers lead to, stored or inflated, or nothing |
| ZipArchive.ReadZipArchiveEntries | packages/playwright-reporter-llm/src/lib/internal/zipArchive.ts:33-109 | ends on every byte string, in bounds, the cursor growing by at least 46 an entry, with the object filled by the entries found, or its TypeError |
| JsMembers.FillingIsExact | packages/playwright-reporter-llm/src/lib/internal/zipArchive.ts:46-103 | an object filled by assignment throws exactly when an entry has a name that a byte array does not let be set, after an entry named __proto__ and none of that name before it; otherwise it has exactly the names that survive, each with its last content, and the whole map exactly when none is __proto__ |
| ZipArchive.ReadIsExact | packages/playwright-reporter-llm/src/lib/internal/zipArchive.ts:33-109 | the same of the reader on every byte string, for the entries found in it |
| ZipArchive.ReadComesFromTheBuffer | packages/playwright-reporter-llm/src/lib/internal/zipArchive.ts:56-103 | on every byte string each content comes from the last readable central header of its name that the walk reaches: it is exactly the slice its headers lead to if stored, and what that slice inflates to if deflated |
| ZipArchive.WriteUInt16LE | packages/playwright-reporter-llm/src/lib/internal/testHelpers.ts:141-151 | writing a value that does not fit fails; otherwise its two bytes follow what is before them |
| ZipArchive.WriteUInt32LE | packages/playwright-reporter-llm/src/lib/internal/testHelpers.ts:140-149 | the same for four bytes |
| ZipArchive.WriteLocalHeader | packages/playwright-reporter-llm/src/lib/internal/testHelpers.ts:139-151 | the 30 bytes of APPNOTE section 4.3.7, exactly when the sizes fit |
| ZipArchive.WriteCentralHeader | packages/playwright-reporter-llm/src/lib/internal/testHelpers.ts:155-172 | the 46 bytes of APPNOTE section 4.3.12, exactly when the sizes and the offset fit |
| ZipArchive.WriteEndRecord | packages/playwright-reporter-llm/src/lib/internal/testHelpers.ts:180-188 | the 22 bytes of APPNOTE section 4.3.16, exactly when the counts and sizes fit |
| ZipArchive.CreateStoredZipArchive | packages/playwright-reporter-llm/src/lib/internal/testHelpers.ts:126-191 | succeeds exactly when every recorded value fits its field, and then gives the archive |
| ZipArchive.EntryIsRead | packages/playwright-reporter-llm/src/lib/internal/zipArchive.ts:42-106 | a written entry's two parts, standing where they belong, are read as its name and content |
| JsMembers.LastWinsIsTheLast | packages/playwright-reporter-llm/src/lib/internal/zipArchive.ts:101-103 | a repeated name has the content of its last entry |
| ZipArchive.ReadUndoesWrite | packages/playwright-reporter-llm/src/lib/internal/zipArchive.ts:33-109 | reading a written archive gives its name-to-content map, last one winning, exactly when no entry is named __proto__; with one it throws exactly when a later entry cannot be assigned, and otherwise gives exactly the surviving names |
| ZipArchive.FoundIsWritten | packages/playwright-reporter-llm/src/lib/internal/testHelpers.ts:126-192 | the entries found in a written archive are the entries written, in order |
| ZipArchive.WriteThenRead | packages/playwright-reporter-llm/src/lib/internal/testHelpers.ts:126-192 | the same for the two methods, run one after the other, with both kinds of failure |
| ZipArchive.LocalFields | packages/playwright-reporter-llm/src/lib/internal/testHelpers.ts:141-152 | every field of a written local header reads back at its place in APPNOTE section 4.3.7 |
| ZipArchive.CentralFields | packages/playwright-reporter-llm/src/lib/internal/testHelpers.ts:156-173 | the same of a central header and section 4.3.12 |
| ZipArchive.EndFields | packages/playwright-reporter-llm/src/lib/internal/testHelpers.ts:181-189 | the same of the end record and section 4.3.16 |
| ZipLayout.LowByteFirst | packages/playwright-reporter-llm/src/lib/internal/zipArchive.ts:16-21 | numbers are read with their low byte first |
| ZipLayout.SignaturesAreBytes | packages/playwright-reporter-llm/src/lib/internal/zipArchive.ts:4-6 | the three signatures are PK followed by 5 6, 1 2 and 3 4 |
| ZipLayout.EndIsTold | packages/playwright-reporter-llm/src/lib/internal/zipArchive.ts:10-31 | on every byte string the record taken is the last whose comment reaches to the end and whose directory ends where it begins; without one nothing is found |
| ZipLayout.CursorsAreTheChain | packages/playwright-reporter-llm/src/lib/internal/zipArchive.ts:48-105 | on every byte string the headers looked at start at the offset the end record gives, each next one stands 46 bytes and the three lengths at 28, 30 and 32 further, and they stop only at the recorded count or before a header that cannot be read |
| ZipLayout.ChainIsUnique | packages/playwright-reporter-llm/src/lib/internal/zipArchive.ts:48-105 | there is one such chain of headers |
| ZipLayout.FoundIsTold | packages/playwright-reporter-llm/src/lib/internal/zipArchive.ts:56-103 | on every byte string the entries found are those of exactly the headers that lead to a content, in order, each with the name and the content its own headers give |
| ZipLayout.AnyArchiveIsRead | packages/playwright-reporter-llm/src/lib/internal/zipArchive.ts:33-109 | an archive of any writer, with any extra fields, entry comments, gaps and archive comment, is read as its members, exactly when none is named __proto__ |
| ZipLayout.WrittenIsArchive | packages/playwright-reporter-llm/src/lib/internal/testHelpers.ts:126-192 | a written archive is such an archive, without extra fields and comments |
| AdminAuthToken.StepKeepsLock | packages/playwright-toolkit/src/lib/adminAuthToken.ts:760-870 | every step of every caller, crashes and unreadable locks included, keeps the lock's invariant |
| AdminAuthToken.AtMostOneInside | packages/playwright-toolkit/src/lib/adminAuthToken.ts:760-808 | in every state of every run in which live holders are in time whenever a caller looks at the lock, at most one live caller is inside its operation |
| AdminAuthToken.FinishingInTimeIsEnough | packages/playwright-toolkit/src/lib/adminAuthToken.ts:761-770 | that is so when live holders stay below the stale age of every caller that may still look |
| AdminAuthToken.OverrunBreaksExclusion | packages/playwright-toolkit/src/lib/adminAuthToken.ts:835-862 | for every run in time so far, the take-over by a waiting caller with time left puts two live callers inside exactly when the holder has reached its stale age |
| AdminAuthToken.TakeOverBoundary | packages/playwright-toolkit/src/lib/adminAuthToken.ts:781-805 | the same from every state in which holders own their lock: the four steps of a take-over leave the holder inside and bring the caller in exactly at that age |
| AdminAuthToken.OverrunHappens | packages/playwright-toolkit/src/lib/adminAuthToken.ts:835-862 | there is such a run |
| AdminAuthToken.StepKeepsCache | packages/playwright-toolkit/src/lib/adminAuthToken.ts:354-518 | every step keeps: each minted token is in the cache or was dropped for a recorded reason, minted tokens are distinct, and no caller carries the token it wants replaced |
| AdminAuthToken.MintsAreBounded | packages/playwright-toolkit/src/lib/adminAuthToken.ts:366-517 | over every run, mints are at most the distinct tokens that were rejected, lapsed, refused or invalidated, plus one; with only rejections, the distinct rejected tokens plus one |
| AdminAuthToken.RejectedIsNotReturned | packages/playwright-toolkit/src/lib/adminAuthToken.ts:597-612 | no call returns the token it asked to have replaced |
| AdminAuthToken.ReturnedInTime | packages/playwright-toolkit/src/lib/adminAuthToken.ts:962-981 | in every run, the expiry returned with a token leaves the caller's safety skew before the token's own, whoever cached it |
| AdminAuthToken.TakenBeforeExpiry | packages/playwright-toolkit/src/lib/adminAuthToken.ts:407-411 | in every run, every token a call has returned or is about to write was settled on by a step of that call while the clock was before its expiry: the unlocked hit, the re-check after validation, or the judgement of a new token |
| AdminAuthToken.SettlesBeforeExpiry | packages/playwright-toolkit/src/lib/adminAuthToken.ts:172-194 | a caller settles on a token only in one of those three steps, and only before its expiry |
| AdminAuthToken.ReturnedIsVouched | packages/playwright-toolkit/src/lib/adminAuthToken.ts:392-478 | in every run, in time or not, a token returned to a caller with a validation policy had that policy's mark in the cache from the start, or was accepted in the run by a validator under that policy with the token in hand |
| AdminAuthToken.MarkedIsVouched | packages/playwright-toolkit/src/lib/adminAuthToken.ts:399-424 | so was every token that the cache marks as validated under a policy |
| AdminAuthToken.VerdictsDecide | packages/playwright-toolkit/src/lib/adminAuthToken.ts:392-446 | a rejected cached token leaves the cache and a new one is made, a validator that throws leaves the cache alone, and an accepted token is marked and returned unless it has expired |
| AdminAuthToken.StartIsTold | packages/playwright-toolkit/src/lib/adminAuthToken.ts:166-207 | a call returns the cached token at once, with the lesser of its two expiries, exactly when nothing is to be refreshed, it is usable and it needs no verdict |
| AdminAuthToken.CheckIsTold | packages/playwright-toolkit/src/lib/adminAuthToken.ts:366-391 | under the lock the cache is taken away exactly when it holds the token to be replaced, or nothing usable when nothing was; a usable token that stays goes on to validation |
| AdminAuthToken.NewExpiryIsTheLeast | packages/playwright-toolkit/src/lib/adminAuthToken.ts:461-497 | a new token is stored exactly when its validation lets it and it does not expire at once, with the lesser of the configured expiry and its own less the skew |
| AdminAuthToken.LeavingMatchesTheCache | packages/playwright-toolkit/src/lib/adminAuthToken.ts:354-518 | in every run in time what a caller is about to return is the token in the cache, and after an invalidation the cache is empty |
| AdminAuthToken.LeavingFreesTheLock | packages/playwright-toolkit/src/lib/adminAuthToken.ts:780-789 | in every run in time a caller that leaves frees the lock |
| AdminAuthToken.CurrentIsReplaced | packages/playwright-toolkit/src/lib/adminAuthToken.ts:597-612 | a call that refreshes the current token never returns the one it found usable when it started |
| AdminAuthToken.RecoveryIsExact | packages/playwright-toolkit/src/lib/adminAuthToken.ts:775-862 | a waiting caller with time left gets in, in four steps, exactly when there is no lock, or a lock or unreadable file as old as its stale age |
| AdminAuthToken.WaitingEndsInTime | packages/playwright-toolkit/src/lib/adminAuthToken.ts:770-808 | a waiting caller gives up at its next try exactly when its time has run out |
| LifecycleSanitization.PathTemplateIsKept | packages/playwright-reporter-llm/src/lib/internal/clientLifecycleSanitization.ts:45-59 | an accepted path is accepted again unchanged |
| LifecycleSanitization.NetworkErrorIsKept | packages/playwright-reporter-llm/src/lib/internal/clientLifecycleSanitization.ts:95-102 | an accepted error is accepted again unchanged: no colour sequence or space is left in it |
| LifecycleContract.FailureEventIsKept | packages/playwright-reporter-llm/src/lib/clientLifecycleContract.ts:293-315 | a sanitized failure event is kept as it is |
| LifecycleContract.ConnectionIsKept | packages/playwright-reporter-llm/src/lib/clientLifecycleContract.ts:389-424 | a sanitized connection is kept as it is |
| LifecycleContract.RecordIsKept | packages/playwright-reporter-llm/src/lib/clientLifecycleContract.ts:205-249 | a sanitized record is kept as it is when its origin is within the cap, and refused otherwise |
| LifecycleContract.PriorityIsStable | packages/playwright-reporter-llm/src/lib/clientLifecycleContract.ts:251-255 | prioritising puts the classifications in order, keeps the order within each, and loses nothing |
| LifecycleContract.Pack | packages/playwright-reporter-llm/src/lib/clientLifecycleContract.ts:117-138 | the loop with its running byte count gives the greedy packing |
| LifecycleContract.PicksArePacked | packages/playwright-reporter-llm/src/lib/clientLifecycleContract.ts:124-138 | the included records are a subsequence of the prioritised ones |
| LifecycleContract.PassedOverWouldNotFit | packages/playwright-reporter-llm/src/lib/clientLifecycleContract.ts:119-138 | below the record cap a record that was passed over would exceed the byte cap, unless the attachment is truncated and the counted size is exactly one byte over |
| LifecycleContract.DroppedThoughItFits | packages/playwright-reporter-llm/src/lib/clientLifecycleContract.ts:119-135 | a value whose record takes 65,487 bytes is dropped from an attachment that is truncated anyway, though the attachment with it has 65,536 bytes |
| LifecycleContract.ErrorTextIsUncapped | packages/playwright-reporter-llm/src/lib/internal/clientLifecycleSanitization.ts:95-102 | a safe record stays safe with an error text of any length |
| LifecycleContract.SomethingIsDropped | packages/playwright-reporter-llm/src/lib/clientLifecycleContract.ts:119-138 | wherever there is a safe record, and error texts are printed character by character, some value is dropped though it fits |
| LifecycleContract.LongOriginIsLost | packages/playwright-reporter-llm/src/lib/clientLifecycleContract.ts:158-203 | a value whose origin has outgrown the cap is encoded, and then the attachment is not parsed at all |
| LifecycleContract.LongOriginExists | packages/playwright-reporter-llm/src/lib/internal/clientLifecycleSanitization.ts:29-43 | the platform laws leave room for such an origin |
| LifecycleContract.EncodeBrowserLifecycleAttachment | packages/playwright-reporter-llm/src/lib/clientLifecycleContract.ts:109-152 | the body is the text of the attachment, at most 65,536 bytes and 100 records, in priority order, with included + dropped = observed |
| LifecycleContract.ParseBrowserLifecycleAttachment | packages/playwright-reporter-llm/src/lib/clientLifecycleContract.ts:158-203 | the loop keeps exactly the sanitizable among the first 100 records |
| LifecycleContract.SanitizedIsSafe | packages/playwright-reporter-llm/src/lib/clientLifecycleContract.ts:205-249 | every field of a sanitized record is in its safe form: method, origin of a web address, path, ISO dates, identifiers, errors and addresses by their characters and caps, and numbers by their range |
| LifecycleContract.SafeIsSanitized | packages/playwright-reporter-llm/src/lib/clientLifecycleContract.ts:205-249 | the safe records are exactly those that sanitizing gives |
| LifecycleContract.ParsedIsSafe | packages/playwright-reporter-llm/src/lib/clientLifecycleContract.ts:158-203 | whatever content is parsed, at most 100 records come out and every one is safe |
| LifecycleContract.EncodedIsSafe | packages/playwright-reporter-llm/src/lib/clientLifecycleContract.ts:109-152 | whatever is encoded, only safe records go in |
| LifecycleContract.ParseOfText | packages/playwright-reporter-llm/src/lib/clientLifecycleContract.ts:158-203 | parsing an attachment of sanitized records gives those whose origin is within the cap |
| LifecycleContract.ParseUndoesEncode | packages/playwright-reporter-llm/src/lib/clientLifecycleContract.ts:109-203 | parsing an encoded attachment gives the attachment exactly when every included origin is within the cap |
| LifecycleSources.VerbIsExact | packages/playwright-reporter-llm/src/lib/internal/clientLifecycleSanitization.ts:21-27 | the method is the upper case of the text between its white space, of 1 to 16 letters A to Z, and nothing else is accepted |
| LifecycleSources.OriginIsExact | packages/playwright-reporter-llm/src/lib/internal/clientLifecycleSanitization.ts:29-43 | the origin is that of the web address the text parses to, exactly when the text has 1 to 256 characters |
| LifecycleSources.PathIsExact | packages/playwright-reporter-llm/src/lib/internal/clientLifecycleSanitization.ts:45-59 | the path is the text up to its first question mark or hash, exactly when that starts with a slash and has at most 512 characters |
| LifecycleSources.NameIsExact | packages/playwright-reporter-llm/src/lib/internal/clientLifecycleSanitization.ts:71-93 | an identifier or protocol is its own text, exactly when that has 1 to 256 characters, all allowed |
| LifecycleSources.HexIsExact | packages/playwright-reporter-llm/src/lib/internal/clientLifecycleSanitization.ts:132-144 | a trace or span id is the lower case of the text, of its length, of hex digits that are not all zero |
| LifecycleSources.NumberIsExact | packages/playwright-reporter-llm/src/lib/internal/clientLifecycleSanitization.ts:124-130 | a number is kept as it is exactly from 0 to 2^53 - 1 |
| LifecycleSources.StripIsStripped | packages/playwright-reporter-llm/src/lib/internal/textProcessing.ts:3-6 | stripping keeps exactly the characters outside every colour sequence, in order; no two sequences overlap |
| LifecycleSources.ErrorIsExact | packages/playwright-reporter-llm/src/lib/internal/clientLifecycleSanitization.ts:95-102 | the error is the text without colour sequences and then without white space around it, exactly when that is net:: and letters, digits or underscores |
| LifecycleSources.TimestampIsExact | packages/playwright-reporter-llm/src/lib/clientLifecycleContract.ts:331-352 | a timestamp is the ISO form of the date its own text parses to, with its own number if that is safe |
| LifecycleSources.FailureIsExact | packages/playwright-reporter-llm/src/lib/clientLifecycleContract.ts:293-315 | a failure event has each field of its own member, and is there exactly when a field is |
| LifecycleSources.RecordIsExact | packages/playwright-reporter-llm/src/lib/clientLifecycleContract.ts:205-249 | for every value, safe or not, sanitizing gives a record exactly when every field is what its own member tells |
| LifecycleSources.EncodedIsTold | packages/playwright-reporter-llm/src/lib/clientLifecycleContract.ts:109-152 | every encoded record is what one of the values tells |
| LifecycleSources.FlagTellsOmissions | packages/playwright-reporter-llm/src/lib/clientLifecycleContract.ts:139-144 | the encoded flag is set exactly when that was asked for, a value tells no record, or the packing left one out |
| LifecycleSources.ParsedIsTold | packages/playwright-reporter-llm/src/lib/clientLifecycleContract.ts:158-203 | every parsed record is what one of the first 100 items tells |
| LifecycleSources.ParsingIsExact | packages/playwright-reporter-llm/src/lib/clientLifecycleContract.ts:179-203 | an attachment parses exactly when it is empty or one of its first 100 items tells a record; the records are those told, in order, and the flag is set exactly when it was or something is missing |
| LifecycleSources.OnlyAttachmentsParse | packages/playwright-reporter-llm/src/lib/clientLifecycleContract.ts:161-187 | nothing parses but content within the byte cap with version 2, an array of records and a boolean flag |
| LifecycleSources.QueryIsDropped | packages/playwright-reporter-llm/src/lib/internal/clientLifecycleSanitization.ts:50 | the record is the same whatever follows the first question mark or hash of the path |
| LifecycleSources.NoQueryIsEncoded | packages/playwright-reporter-llm/src/lib/clientLifecycleContract.ts:109-152 | so is the encoded attachment |
| LifecycleSources.NoQueryIsParsed | packages/playwright-reporter-llm/src/lib/clientLifecycleContract.ts:158-203 | so is the parsed one |
| Notifications.ChunkSizes | packages/util-ts/src/lib/arrays/chunk.ts:9-21 | every chunk is full but perhaps the last, none is empty, and each is its slice |
| Notifications.ChunksPartition | packages/util-ts/src/lib/arrays/chunk.ts:9-21 | the chunks joined are the elements |
| Notifications.PlannedPositions | packages/notifications/src/lib/internal/chunkRecipients.ts:20-33 | the first k numbered chunks reach the recipients up to there, each position once |
| Notifications.KeysNeverCollide | packages/notifications/src/lib/notificationClient.ts:332 | two chunk keys are equal only for the same base key and number, whatever dashes and digits the base keys contain |
| Notifications.CallKeepsPrefix | packages/notifications/src/lib/notificationClient.ts:330-351 | a call for the next chunk, with or without a fault, delivers in order and nothing twice |
| Notifications.StepKeepsJob | packages/notifications/src/lib/notificationClient.ts:326-385 | every call of every attempt keeps each job's deliveries a prefix of its chunks, at least as long as any of its attempts has come |
| Notifications.DeliveredIsAPrefix | packages/notifications/src/lib/notificationClient.ts:326-385 | over any interleaving of any attempts of any jobs, a job's deliveries are a prefix of its chunks and reach a prefix of its recipients, no position twice |
| Notifications.SuccessIsComplete | packages/notifications/src/lib/notificationClient.ts:376-385 | once an attempt has succeeded its job is delivered completely, each position once, and stays so |
| Notifications.TriggerChunked | packages/notifications/src/lib/notificationClient.ts:298-388 | succeeds or fails exactly as validation and the first fault say, with the failing chunk's number and error code; the provider's deliveries are those of the calls up to it, whatever they were before; where they were a prefix of the plan they still are, and a success that is no dry run leaves everything delivered, each response naming its chunk's run |
| Notifications.SendChunks | packages/notifications/src/lib/notificationClient.ts:326-385 | the sequential loop stops at the first call that fails |
| Notifications.NothingTwice | packages/notifications/src/lib/notificationClient.ts:330-351 | whatever was delivered before, no key is delivered twice and none is forgotten, and without a fault every chunk key is known afterwards |
| Notifications.RunJob | packages/notifications/README.md:88-119 | the job ends at the first call that succeeds, is expired or is a client error, or when the tries run out; done without a dry run means everything is delivered, once |
| Notifications.EndsOnce | packages/notifications/README.md:88-119 | that first call is the only one the tries end at |
| Notifications.StopIsTold | packages/notifications/src/lib/notificationClient.ts:309-372 | what stops a call with recipients, in the order it is looked for: an invalid date, an expiry, and for a call that is no dry run the first chunk to fail, with its number and code; the job tries again exactly after a failed chunk without a status, with 429, or with one outside 400 to 499 |
| Notifications.NobodyStops | packages/notifications/src/lib/notificationClient.ts:693-702 | without recipients the call fails before anything else is looked at, and is not tried again |
| Notifications.DecimalReads | packages/notifications/src/lib/notificationClient.ts:332 | the number in a key is the chunk's number in decimal, with no zero in front |
| AliasMutations.MutationRecords.RecordMutation | packages/oxlint-plugin/src/lib/rules/require-contract-fixture-construction/index.ts:178-190 | the position is added to the root variable's list, and to no other |
| AliasMutations.MutationRecords.WasMutated | packages/oxlint-plugin/src/lib/rules/require-contract-fixture-construction/index.ts:192-194 | some recorded position is before the observation |
| AliasMutations.MutationRecords.PropagateLink | packages/oxlint-plugin/src/lib/rules/require-contract-fixture-construction/index.ts:474-486 | the target gets the alias's positions and nothing else, and changed says whether that was new |
| AliasMutations.MutationRecords.PropagateAliasMutations | packages/oxlint-plugin/src/lib/rules/require-contract-fixture-construction/index.ts:470-488 | ends on all links, cyclic ones too, with each variable's positions exactly those recorded under the variables that reach it |
| AliasMutations.PropagatedIsLeast | packages/oxlint-plugin/src/lib/rules/require-contract-fixture-construction/index.ts:470-488 | that is the least fixed point: closed under the links, and within every closed extension |
| AliasMutations.MutatedThroughAliases | packages/oxlint-plugin/src/lib/rules/require-contract-fixture-construction/index.ts:192-194 | a variable counts as mutated before an observation exactly when one that reaches it was, under its own name |

## Left out

- The builder's maps are held in two record fields, the store and the lookups: which Map object a method updates in place is not modelled, only its contents.
- The members countAsEviction and countCascadedEvictions are true at every call and are not modelled; bodiesCanonicalized stays 0 and is left out.
- NetworkBuilder.NetworkBuilder.Finalize: the instance table itself is not rewritten; the report carries the sorted, annotated instances.
- The scans over groups and instances go in id order, which is insertion order because ids only grow.
- Duration, timings, trace ids and the other fields an instance carries along unread are one value, its context.
- AdminAuthToken.AtMostOneInside: torn lock-file writes appear only as unreadable locks, and interleavings inside one release are not modelled, because exclusion is promised for single steps only.
- AdminAuthToken.MintsAreBounded: a mint is a token written to the cache; a token created by a caller that crashes before the write is not counted. A cache file that is lost or unreadable is not modelled.
- Cache paths, fingerprints, event reporting, token commands and their retries, and parameter validation of the token cache.
- Progress of waiting callers: sleeping, jitter and fairness.
- ZipArchive.CreateStoredZipArchive: a value that does not fit is one error, and memory limits of buffers are not modelled.
- Text is a sequence of characters, not of UTF-16 units, so lengths of text outside the basic plane differ from JavaScript's.
- Negative zero and the rounding of numbers: lifecycle numbers are exact.
- The copy helpers of the lifecycle contract build the record as a value instead of writing to a target; members of an object that the sanitizers never look at are not kept.
- Notifications.TriggerChunked: the other fields of a request, workflow keys, tracing and logging.
- Notifications.RunJob: the job runner's backoff; its attempt limit is the number of tries.
- AliasMutations.MutationRecords.RecordMutation: finding the root variable of an expression is a parameter.
- Tag patterns, code fences, comment escaping and marker lines of embedex, which are parameters of `Embed`; reading and writing files, and paths.
- The other packages: thin wrappers, constant data or one-step laws.
