# Verified models of the raw data collector

maas-collector gathers files from remote catalogues, archives their products, announces what it
indexed, and reads its own configuration from a versioned index. This project models the parts whose
correctness is an argument about many steps, and proves the argument:

- **The window guard of custom recollects.** A person pastes an OData filter; a character scanner checks
  that it keeps the replay window. Modules `Chars`, `Template`, `Mask`, `WindowGuard`, `CollapsedTerms` model
  the guard and `str.format`; `OpenText`, `GuardTerms` and `GuardExact` say of the text alone, both ways, which filters and
  which JQL queries the two guards accept; `ODataQuery` is a lexer, a grammar and an evaluator of OData filters (OData
  Version 4.0 Part 2, section 5.1.1), JSON values and their strings included, written without regard to the guard;
  `FilterTokens`, `FilterText` and `ODataWindow` prove that what the guard accepts entails the window, read as it is
  written and without JSON strings. `ODataServer` adds that the server decodes percent escapes first, and `ODataPlus`
  that it may take a `+` for a blank: the guard is sound of filters without `%` and without `"` outside strings, and of
  those it would accept decoded. `ODataLimits` has, for each of the two conditions, an accepted filter that leaves any
  window.
- **The window guard of JQL queries.** `JqlQuery` is a lexer, a grammar and a meaning of Jira's language. `JqlText`,
  `JqlFill`, `JqlTop`, `JqlOpen`, `JqlGrammar`, `JqlStrings`, `JqlWindow` lead to `JqlGuard`: what the guard accepts
  entails the window of a replay, where Jira reads the template as the guard does, which a caller can check: no lone `|`
  is left in the open before the `order by`; no word goes on into that `order by`; no backslash is outside strings; every
  blank outside strings is one for Jira. `JqlHead` and `JqlLimits` have, for each of the four conditions, an accepted
  query that breaks it alone and leaves any window.
- **The archive transfer stage.** `Duplicates`, `Upload`, `Transfer`, `Mirrors`, `Serving` are the decision, the
  upload loop, one product, one request; `Reporting` says that the reports of a product tell what became of it,
  `Accounts` what a request leaves in the log and among the lost reports; `TransferStage` is the stage as a class with its
  loops, proved against those functions, and keeping over its whole runs that mirrors agree and that no document is lost.
- **The configuration store.** `PublishProtocol` is a state machine of concurrent publishers that may crash
  between two steps; `CurrentDocuments` is what readers see of it. `Integrity`, `StoreRuns`, `StoreIndex` and
  `ConfigStore` are the checks and the store used by one writer at a time, over whole runs.
- **Windowed pagination** (`Pagination`), **message chunking** (`Messages`, `ChunkIndices`, `Messenger`), **transfer requests**
  (`Requester`) and **the mirror of the index in folders** (`ConfigSync`, `MirroredStore`).

Nothing of the outside is executed: search hits, broker refusals, downloads, sinks, stops and clocks are
parameters of the members, and the results hold for all of them.

## Model

| member | source | states |
|---|---|---|
| `Template.StepReads` | src/maas_collector/rawdata/operator/overrides.py:67-82 | One step of the formatter reads one character as it is, or a whole field or doubled brace, in which there is no space. |
| `Template.FormatSplit` | src/maas_collector/rawdata/operator/overrides.py:67-82 | A text whose only fields are placeholders is one on both sides of any place that no field is made of, a space or the end of a field, and what fills it is what fills the two sides: no field reaches across a term. |
| `Mask.MaskText` | src/maas_collector/rawdata/operator/overrides.py:85-121 | The scanner loop computes the mask: refused exactly on an unclosed quote or an unbalanced parenthesis, else one masked character per character. |
| `Mask.MaskedAt` | src/maas_collector/rawdata/operator/overrides.py:85-121 | A character is left in the open exactly when the scanner is outside quotes at depth 0 before it and it is neither a quote nor a parenthesis. |
| `Mask.RunConcat` | src/maas_collector/rawdata/operator/overrides.py:85-121 | The scanner reads a text as it reads its parts one after the other. |
| `GuardTerms.KeywordIsOpen` | src/maas_collector/rawdata/operator/overrides.py:52-56 | A keyword the guard reads in the mask is that word in the open in the text, in any case, with no word character against it, and no other. |
| `GuardTerms.SplitTerms` | src/maas_collector/rawdata/operator/overrides.py:124-131 | The splitting loop yields, of the mask of a text, exactly its collapsed clauses: the stretches between the joints it holds in the open, an `and` in any case or in JQL a pair of `&`, or an end of it. |
| `GuardTerms.TermsAreClauses` | src/maas_collector/rawdata/operator/overrides.py:124-131 | A string is a term of the guard if and only if it is the collapse of such a clause. |
| `CollapsedTerms.TermPlace` | src/maas_collector/rawdata/operator/overrides.py:63-64 | Every term is the collapse of a stretch of the query that lies between two separators in the open, or an end of the query. |
| `CollapsedTerms.ThreeWords` | src/maas_collector/rawdata/operator/overrides.py:134-147 | A stretch that collapses to three words is those words with blanks around and between them, and nothing else. |
| `CollapsedTerms.WordsCollapse` | src/maas_collector/rawdata/operator/overrides.py:63-64 | And back: three words with any blanks around and between them collapse to themselves, one blank between. |
| `GuardExact.BoundExactly` | src/maas_collector/rawdata/operator/overrides.py:164-182 | A clause collapses to a window term if and only if it is the field, the operator in any case and the placeholder, with any blanks around and between them. |
| `GuardExact.ODataGuardExactly` | src/maas_collector/rawdata/operator/overrides.py:150-182 | The guard of a filter, both ways and said of its text: it accepts exactly the filters without delimiter, whose only fields are the bounds, balanced, that hold no `or` in the open and a clause for each bound between the `and`s they hold in the open; a refusal names what is missing. |
| `FilterText.ScanRead` | src/maas_collector/rawdata/operator/overrides.py:85-121 | The scanner and the lexer of the server agree: a text without `"` outside strings is scanned to its end outside quotes exactly when it has tokens, and then the depth is that of its parentheses. |
| `ODataWindow.ScanFormat` | src/maas_collector/rawdata/collector/odata/query_strategy.py:294-297 | Filling the placeholders with dates moves no quote and no parenthesis. |
| `ODataWindow.OrIsSeen` | src/maas_collector/rawdata/operator/overrides.py:158-163 | A filter that has an `or` at depth 0 among its tokens comes from a template in which the guard sees one, when no `"` is outside strings. |
| `ODataWindow.TermInFilter` | src/maas_collector/rawdata/operator/overrides.py:164-182 | A window term found by the guard stands in the filled filter as the three tokens field, operator, date, at depth 0. |
| `FilterTokens.TermIsConjunct` | src/maas_collector/rawdata/operator/overrides.py:7-10 | Among the tokens of a filter without a top-level `or`, such a term is a conjunct: an entity that satisfies the filter satisfies it. |
| `ODataWindow.AcceptedIsFilled` | src/maas_collector/rawdata/operator/overrides.py:150-157 | An accepted filter is filled without error, whatever the bounds. |
| `ODataWindow.TermsKeepWindow` | src/maas_collector/rawdata/operator/overrides.py:158-182 | Whatever fills a template without JSON strings whose terms the guard accepts and however it parses as it is written, an entity that satisfies it is in the window. |
| `ODataServer.DecodeFilled` | src/maas_collector/rawdata/collector/odata/query_strategy.py:294-312 | The server decodes what a template is filled to: that is what the decoded template is filled to, when no escape stands for a brace. |
| `ODataPlus.AcceptedBlanked` | src/maas_collector/rawdata/operator/overrides.py:150-182 | What the guard accepts it accepts with a blank for each `+`, as some servers read it. |
| `ODataServer.AcceptedIsConjunction` | src/maas_collector/rawdata/operator/overrides.py:158-163 | An accepted filter without `%` and without `"` outside strings is no disjunction at top level, however the server parses what it decodes. |
| `ODataServer.ODataWindowKept` | src/maas_collector/rawdata/operator/overrides.py:150-182 | Soundness of the guard for filters without `%` and without `"` outside strings: whatever bounds fill a template it accepts, whether or not the server reads a `+` as a blank, and however it parses what it decodes, an entity that satisfies it has its date field between the bounds. |
| `ODataServer.DecodedWindowKept` | src/maas_collector/rawdata/operator/overrides.py:150-182 | With `%`, the guard is sound when it accepts the terms of the decoded template too, no escape stands for a brace, and decoded it holds no `"` outside strings. |
| `ODataLimits.PercentEscapes` | src/maas_collector/rawdata/operator/overrides.py:150-182 | With `%` alone it fails, whatever the window: a template is accepted, and every entity with a given flag satisfies its filter as the server reads it, whatever its date. |
| `ODataLimits.JsonStringEscapes` | src/maas_collector/rawdata/operator/overrides.py:102-106 | With a quote in a JSON string alone it fails, whatever the window: the scanner takes what lies between two such quotes for a string and misses an `or`, and every entity with a given flag satisfies the filter, whatever its date. |
| `WindowGuard.FirstOrderBy` | src/maas_collector/rawdata/operator/overrides.py:189-190 | The cut is the first `order by` in the open, or the end: there is one there, and none before. |
| `GuardExact.CutExactly` | src/maas_collector/rawdata/operator/overrides.py:189-191 | The cut is the place of the first `order`, blanks and `by` that the text holds in the open, in any case, or its end. |
| `GuardExact.JqlGuardExactly` | src/maas_collector/rawdata/operator/overrides.py:185-212 | The guard of a query, both ways and said of its text: it accepts exactly the queries whose only field is the criteria, balanced, that hold before their first ordering no `or` and no bars in the open, and between the joints they hold there the clause `updated >` the criteria; a refusal names what is missing. |
| `JqlOpen.SameReading` | src/maas_collector/rawdata/operator/overrides.py:85-121 | Where the scanner sees no backslash and no blank foreign to Jira outside strings, Jira reads the tokens the characters suggest. |
| `JqlOpen.ScanRead` | src/maas_collector/rawdata/operator/overrides.py:85-121 | The scanner and the lexer of Jira agree on such a query: it is scanned to its end outside strings, and the depth is that of its parentheses. |
| `JqlOpen.OpenFill` | src/maas_collector/rawdata/collector/jiraxcollector.py:58 | What a template holds outside strings is what its query does, when no placeholder is escaped in double quotes. |
| `JqlText.LexSplit` | src/maas_collector/rawdata/operator/overrides.py:124-131 | Where two texts meet at a delimiter, outside strings, the tokens of both are those of the first, then those of the second. |
| `JqlFill.ScanFill` | src/maas_collector/rawdata/collector/jiraxcollector.py:58 | Filling a template moves no quote and no parenthesis, when no placeholder is escaped in double quotes: the scan of the query is that of the template. |
| `JqlFill.InString` | src/maas_collector/rawdata/collector/jiraxcollector.py:58 | A string of the template is a string of the query, or, where criteria close it, words and strings up to where it ends. |
| `JqlWindow.StartOf` | src/maas_collector/rawdata/collector/jiraxcollector.py:45-48 | A replay resumes at the later of the start of the window and the last date. |
| `JqlWindow.LexBetween` | src/maas_collector/rawdata/collector/jiraxcollector.py:49-52 | The criteria of a replay are five tokens: the start, an `and`, and `updated <=` the end. |
| `JqlWindow.BetweenFills` | src/maas_collector/rawdata/collector/jiraxcollector.py:49-58 | The criteria leave the scanner where they find it, outside strings and in double quotes, and hold no `or`. |
| `JqlOpen.NoTopRead` | src/maas_collector/rawdata/operator/overrides.py:192-201 | Where the guard sees no `or` and no bar in a template that Jira reads as it does, no token of the filled query at depth 0 is an `or`. |
| `JqlWindow.TermParts` | src/maas_collector/rawdata/operator/overrides.py:202-212 | The window term the guard found stands in the template at depth 0, outside strings, after an `and`, a `&&` or nothing, whatever the blanks. |
| `JqlWindow.TokensOfParts` | src/maas_collector/rawdata/collector/jiraxcollector.py:49-58 | Once filled, the term is `updated`, `>`, the start, and the criteria go on as tokens of the query, at depth 0. |
| `JqlGrammar.DisjoinPlace` | src/maas_collector/rawdata/operator/overrides.py:8-10 | A query that is a disjunction has an `or` among its tokens at depth 0. |
| `JqlGrammar.TermIsConjunct` | src/maas_collector/rawdata/operator/overrides.py:7-10 | In a conjunction, a comparison at depth 0 after an `and`, a word or nothing is a conjunct: an issue that satisfies the query satisfies it. |
| `JqlGrammar.SparseQuery` | src/maas_collector/rawdata/operator/overrides.py:8-10 | In a query that parses, no two words or strings stand side by side. |
| `JqlStrings.ReadIsOver` | src/maas_collector/rawdata/collector/jiraxcollector.py:58 | A query with such tokens is read, character by character, to its end outside strings. |
| `JqlStrings.NamesMeet` | src/maas_collector/rawdata/collector/jiraxcollector.py:49-52 | After a word or a string, a date and a string bring two of them side by side: criteria that end a string they stand in do not parse. |
| `JqlStrings.WalkParted` | src/maas_collector/rawdata/collector/jiraxcollector.py:58 | Once a string of the query is none of the template, so it stays whatever follows: the query ends in a string. |
| `JqlStrings.ParsedIsUnescaped` | src/maas_collector/rawdata/operator/overrides.py:98-103 | So a template without backslashes outside strings whose query parses escapes no placeholder in a double-quoted string. |
| `JqlWindow.CutIsOrder` | src/maas_collector/rawdata/operator/overrides.py:189-191 | At the cut the template reads `order` and a blank, outside strings at depth 0. |
| `JqlWindow.OrderFirst` | src/maas_collector/rawdata/operator/overrides.py:189-191 | Filled, what follows the cut starts with the token of an ordering. |
| `JqlGuard.AcceptedIsFilled` | src/maas_collector/rawdata/operator/overrides.py:187 | An accepted query is filled without error, whatever the journal. |
| `JqlGuard.BoundsKept` | src/maas_collector/rawdata/operator/overrides.py:192-212 | However an accepted query that Jira reads as the guard does parses once filled, an issue that satisfies it satisfies `updated >` the start and `updated <=` the end. |
| `JqlGuard.JqlWindowKept` | src/maas_collector/rawdata/operator/overrides.py:185-212 | Soundness of the guard for the templates Jira reads as it does: an issue that satisfies the query of a replay was updated after the date it resumes from, and no later than its end. |
| `JqlLimits.LoneBarEscapes` | src/maas_collector/rawdata/operator/overrides.py:197-201 | With a lone bar alone it fails, whatever the window: the guard looks for two, Jira reads one as an `or`, and every issue with a given value satisfies the query, whatever its date. |
| `JqlLimits.EscapedQuoteEscapes` | src/maas_collector/rawdata/operator/overrides.py:98-106 | With a backslash outside strings alone it fails, whatever the window: Jira reads an escaped quote where the scanner enters a string, and the `or` the scanner masks is one for Jira. |
| `JqlLimits.ForeignBlankEscapes` | src/maas_collector/rawdata/operator/overrides.py:56 | With a blank that is none for Jira alone it fails, whatever the window: the guard reads an ordering inside a word of the query, and no `or` after it. |
| `JqlLimits.GluedOrderEscapes` | src/maas_collector/rawdata/operator/overrides.py:56 | With a word that goes on into `order`, before a `by`, alone it fails, whatever the window: it hides an `or` from the guard, and every issue with a given value satisfies the query, whatever its date. |
| `Duplicates.DecideExactly` | src/maas_collector/rawdata/transfer/duplicates.py:44-97 | With force, of a product nothing holds, and of a changed one where changes replace, every destination is transferred to; it is a conflict if and only if, without force under `skip`, the checksum differs from that of the latest archived report; else exactly the destinations that hold the product are skipped, in order, and the others are to get the bytes of that report. So transfer and skip partition the destinations but for a conflict. |
| `Duplicates.ChecksumFolds` | src/maas_collector/rawdata/transfer/duplicates.py:32-41 | Two checksums compare as unknown exactly when one is blank, else as the same exactly when they are, but for case and blanks around. |
| `Duplicates.ArchivedState` | src/maas_collector/rawdata/transfer/reports.py:168-206 | Keeping the first hit of each destination, latest first, reads its last outcome report; a destination is missed exactly when none of its reports is among the hits read, a hundred in the source. |
| `Duplicates.DecideSame` | src/maas_collector/rawdata/transfer/duplicates.py:44-97 | What a read keeps of other destinations changes no decision. |
| `Duplicates.LastOutcomeAppend` | src/maas_collector/rawdata/transfer/reports.py:180-206 | What a batch says of a product and a destination is what the next read sees, and else nothing changes. |
| `Upload.UploadTo` | src/maas_collector/rawdata/transfer/stage.py:619-664 | The retry loop over the destinations that failed, with its final statuses and the destinations of each attempt. |
| `Upload.UploadCorrect` | src/maas_collector/rawdata/transfer/stage.py:625-664 | For any sink that reports on its own destinations, raises or omits some: a final status for each destination, OK exactly when an attempt wrote it, never written again after that; one never written is handed to the sink at each of the `max` attempts; the first attempt is on all of them and none on others. |
| `Upload.WrittenOnce` | src/maas_collector/rawdata/transfer/stage.py:645-651 | No destination is attempted again after the attempt that wrote it. |
| `TransferStage.Stage.DecideFor` | src/maas_collector/rawdata/transfer/stage.py:496-504 | From the latest hits of a search, however many, when some are of each destination that has any, the stage decides as the whole log says. |
| `TransferStage.WithRetries` | src/maas_collector/rawdata/transfer/download.py:110-138 | The result of the first attempt that is not a transient error, or the transient error of the last allowed attempt. |
| `TransferStage.Stage.TransferOne` | src/maas_collector/rawdata/transfer/stage.py:476-537 | `transfer_product` computes the specified reports and upload attempts, in every branch. |
| `TransferStage.Stage.FetchAndStore` | src/maas_collector/rawdata/transfer/stage.py:559-617 | `download_and_upload` does: a failed download, other bytes than the archived ones, the upload, REPLACED where the product was. |
| `Reporting.UploadIsTold` | src/maas_collector/rawdata/transfer/stage.py:596-617 | The reports of an upload are true: a destination an attempt wrote to is REPLACED where it held the product and OK elsewhere, one that none wrote to after `max` attempts is KO, all with the MD5 downloaded and the checksum announced; it raises if and only if all is written and the conflict cannot be resolved. |
| `Reporting.NotDownloadedIsTold` | src/maas_collector/rawdata/transfer/stage.py:525-588 | Without a usable key or a download, every destination to write is reported KO and nothing is written. |
| `Reporting.TroubleIsTold` | src/maas_collector/rawdata/transfer/stage.py:404-412 | When something raises before any upload, or the product has no usable name, every destination is reported KO and nothing is written. |
| `Reporting.RaisedIsTold` | src/maas_collector/rawdata/transfer/stage.py:406-412 | A transfer that raises leaves a KO on every destination. |
| `Reporting.SkippedIsUntold` | src/maas_collector/rawdata/transfer/stage.py:521-603 | A destination outside the decision, or one the downloaded bytes cannot fill, is attempted by no upload and keeps its last outcome. |
| `Reporting.SkipIsReported` | src/maas_collector/rawdata/transfer/stage.py:464-523 | Of a conflict or a product nothing is to be transferred of, an operation gets a SKIPPED for each destination, and nobody else gets any report. |
| `Reporting.SkipBesideIsReported` | src/maas_collector/rawdata/transfer/stage.py:590-611 | So does it of the destinations skipped beside an upload, or beside bytes that cannot fill a mirror. |
| `Reporting.SilentIsHeld` | src/maas_collector/rawdata/transfer/stage.py:464-523 | A product nothing is reported of is part of no operation, and the archive holds it, or there is no destination. |
| `Mirrors.TransferKeepsAgreement` | src/maas_collector/rawdata/transfer/stage.py:476-617 | Whatever a transfer meets, after its reports are stored all destinations whose last outcome is OK or REPLACED carry one and the same non-empty MD5. |
| `Mirrors.SkipKeepsArchive` | src/maas_collector/rawdata/transfer/stage.py:496-528 | For a `skip` request without force that returns reports, a destination that holds the product is attempted by no upload and keeps its last outcome report. |
| `Mirrors.OtherProducts` | src/maas_collector/rawdata/transfer/stage.py:600-611 | The reports of a product change the last outcome of no other product. |
| `Serving.ReadConserves` | src/maas_collector/rawdata/transfer/reports.py:209-225 | Every document of a request is found or missing, not both, as often as it is asked for. |
| `Serving.ReadKeepsOrder` | src/maas_collector/rawdata/transfer/reports.py:209-225 | The found and the missing documents are those of the request, each list in its order. |
| `Serving.FoundIsRead` | src/maas_collector/rawdata/transfer/reports.py:209-225 | Each product is what was read of a document of the request. |
| `Serving.NoDocumentVanishes` | src/maas_collector/rawdata/transfer/stage.py:340-415 | Every document of a request is exactly one of reported missing or unreadable, handled, folded into a product of the same name, given back, or dropped with a request of another service; `Accounts` ties each of these to the books. |
| `Accounts.WaitingIsGivenBack` | src/maas_collector/rawdata/transfer/stage.py:322-350 | A request that cannot be resolved for now, or whose documents cannot be reached, is given back whole, with nothing reported and nothing written. |
| `Accounts.UnreadableIsReported` | src/maas_collector/rawdata/transfer/stage.py:351-370 | When the index refuses the documents, each of them has one KO of its own name, together in the log or together among the lost reports. |
| `Accounts.ReadableIsServed` | src/maas_collector/rawdata/transfer/stage.py:372-415 | Else each document not found has one such KO, then the products handled are, in order, those of a name not seen before up to the first stop, each with its batch stored, made from what the books hold by then, before the next one. |
| `Accounts.LedgerConserves` | src/maas_collector/rawdata/transfer/stage.py:385-415 | What the log and the lost reports gain is one batch for each product handled, whose reports name it; a batch is empty only of a product of no operation, and only of a resolved request. |
| `Accounts.RefusedIsKo` | src/maas_collector/rawdata/transfer/stage.py:399-401 | Each product of a refused request gets one KO of no destination. |
| `Accounts.ReportedIsSpokenOf` | src/maas_collector/rawdata/transfer/stage.py:351-383 | Every document counted as reported is named by a KO in the log or among the lost reports, and a request takes nothing back from either. |
| `Accounts.ServeStops` | src/maas_collector/rawdata/transfer/stage.py:386-405 | Products are given back only where the stage stops or a download does, and none is served past a stop. |
| `Serving.ServeConserves` | src/maas_collector/rawdata/transfer/stage.py:385-415 | The documents handled, folded and given back are those of the products, and those given back are a suffix in order. |
| `Serving.ServeOncePerName` | src/maas_collector/rawdata/transfer/stage.py:394-397 | Each product name is handled once, and a folded document shares its name with a handled one. |
| `Serving.HandleKeepsSound` | src/maas_collector/rawdata/transfer/stage.py:293-415 | A request, with its conflicts, crashes, stops and lost reports, keeps every product of every backup with agreeing mirrors. |
| `Serving.HandleKeepsTimed` | src/maas_collector/rawdata/transfer/reports.py:192-206 | A request keeps the log such that sorting by start time reads the last outcome of each destination. |
| `TransferStage.Stage.HandleRequest` | src/maas_collector/rawdata/transfer/stage.py:293-415 | `handle_request` leaves the log and returns the documents that the specification says: all of them, with nothing written, when it must wait; each document it reports is named by a KO. |
| `TransferStage.Stage.ReadProducts` | src/maas_collector/rawdata/transfer/reports.py:209-225 | The reading loop yields the found products and the missing documents of the specification. |
| `TransferStage.Stage.ServeProducts` | src/maas_collector/rawdata/transfer/stage.py:385-415 | The loop over the products, its `seen` names, its stops and its catch-all KO compute the specification. |
| `TransferStage.Stage.StoreReports` | src/maas_collector/rawdata/transfer/stage.py:417-443 | A batch of reports is in the log whole or logged as lost whole: the log only grows, no report is dropped or split, and the clock moves on. |
| `TransferStage.Stage.LoopBody` | src/maas_collector/rawdata/transfer/stage.py:177-205 | Over a run of the loop: documents in the queue, reported, settled and critically logged are conserved, those reported are named by a KO, mirrors agree and the log stays readable; requests are taken in order until a stop, a failure or an empty queue, and one comes back only when something interrupted it. |
| `TransferStage.Stage.ServeRequest` | src/maas_collector/rawdata/transfer/stage.py:203-205 | Serving a taken request leaves the books of the specification, and what is left of it is last in the queue again, or logged. |
| `TransferStage.Stage.Republish` | src/maas_collector/rawdata/transfer/stage.py:207-219 | The documents a stop left are one request, last in the queue, or logged as critical. |
| `PublishProtocol.NextInv` | src/maas_collector/rawdata/configstore.py:290-349 | Every step of every publisher, and every crash, keeps: versions contiguous, heads flagged, what each publisher created, and the flags it cleared. |
| `PublishProtocol.VersionsAreContiguous` | src/maas_collector/rawdata/configstore.py:317-342 | In every reachable state the versions of a path are exactly 1..n. |
| `PublishProtocol.HistoryKept` | src/maas_collector/rawdata/configstore.py:320-345 | From any state of a run to a later one, documents are never removed nor changed, but for the flag, which is only ever cleared. |
| `PublishProtocol.PublishIsCompareAndSwap` | src/maas_collector/rawdata/configstore.py:290-349 | A publisher that creates a version creates it on top of the head, which was its base version if it gave one, even if the history it read was stale; what it creates is what it was given. |
| `PublishProtocol.CreatedOnce` | src/maas_collector/rawdata/configstore.py:335-346 | No version is created twice: of two racing publishers one is refused. |
| `PublishProtocol.HeadIsFlagged` | src/maas_collector/rawdata/configstore.py:336-349 | In every reachable state, between create and clear and after crashes, the highest version of a path is flagged. |
| `PublishProtocol.PublishedClears` | src/maas_collector/rawdata/configstore.py:459-473 | Once a publication completes no lower version is flagged, then or later. |
| `PublishProtocol.PublisherSucceeds` | src/maas_collector/rawdata/configstore.py:287-349 | Whatever came before, a publisher whose edit started from the head, or that does not say, ends Published when nobody else moves: its version is on top, as it was given, and alone flagged. |
| `PublishProtocol.StaleConflicts` | src/maas_collector/rawdata/configstore.py:293-296 | One whose edit started from another version conflicts when it reads the head, and when it comes to create; it writes nothing. |
| `CurrentDocuments.ReadCurrent` | src/maas_collector/rawdata/configprovider.py:161-217 | The two-pass chunked read returns, sorted by path, exactly the highest flagged version of each path that passes the filters. |
| `CurrentDocuments.KeepNewest` | src/maas_collector/rawdata/configprovider.py:206-210 | The loop over the hits keeps the highest version of each path, whatever their order. |
| `CurrentDocuments.CurrentIsHead` | src/maas_collector/rawdata/configprovider.py:164-167 | Where heads are flagged, the current document of a path is its highest version. |
| `CurrentDocuments.ReadersSeeHeads` | src/maas_collector/rawdata/configprovider.py:164-167 | In every state of every run of publishers, a read returns exactly the heads that pass the filters. |
| `Integrity.IntegrityProblems` | src/maas_collector/rawdata/configprovider.py:326-403 | Nothing is reported exactly when no backup is defined in two files and every reference is defined, whatever the order of the files; every line reported is a problem of the files. |
| `Integrity.ScanDefinitions` | src/maas_collector/rawdata/configprovider.py:345-357 | The first pass finds whose file each backup is, and reports exactly the backups of two files. |
| `Integrity.DanglingReferences` | src/maas_collector/rawdata/configprovider.py:389-394 | The references reported are exactly those to a backup no file defines. |
| `Integrity.MissingModels` | src/maas_collector/rawdata/configprovider.py:396-401 | The models reported are exactly the non-empty ones no file defines. |
| `StoreRuns.CheckedIsLoaded` | src/maas_collector/rawdata/configstore.py:442-452 | The files the check looks at for a service are those it loads after the write. |
| `StoreRuns.UnaffectedLoadsSame` | src/maas_collector/rawdata/configstore.py:432-439 | A service that is not affected loads the same files after the write. |
| `StoreRuns.IntegrityIsInductive` | src/maas_collector/rawdata/configstore.py:418-457 | From an empty store, after every publication, rollback and deletion, the files of every service are sound. |
| `StoreRuns.DestinationChanges` | src/maas_collector/backup/named.py:236-260 | No change is listed exactly when the scalar keys are the same after defaults and the old buckets are kept. |
| `StoreRuns.PublishedIsAllowed` | src/maas_collector/rawdata/configstore.py:284-319 | An edit is published if and only if its path is good, its base, if any, is the last version, its services are good and not empty, and, unless deleted, its content is good and keeps destinations, and no service it affects is left with a dangling reference; a refusal names a rule that is broken. |
| `StoreRuns.StepIsLawful` | src/maas_collector/rawdata/configstore.py:284-353 | A publication, a rollback or a deletion that changes a path adds one version to it, of an editor who saw the last one or does not say, and follows all these rules. |
| `StoreRuns.EveryVersionIsLawful` | src/maas_collector/rawdata/configstore.py:290-319 | Over a run: every version v of a path was added by an operation that found v versions before it, whose editor saw the last of them or does not say: none was written over one its editor had not seen. |
| `StoreRuns.NextLinked` | src/maas_collector/rawdata/configstore.py:378-416 | An operation appends one version to one path at most, and a live version that defines a backup with reports follows a live version with the same destination. |
| `StoreRuns.DestinationIsFrozen` | src/maas_collector/rawdata/configstore.py:378-416 | Once a backup has reports, every later live version that defines it keeps the destination of the version last live on its path and of every live version since, across tombstones and rollbacks. |
| `StoreRuns.DroppedForGood` | src/maas_collector/rawdata/configstore.py:411-416 | A backup with reports that a path drops, or never defined, is defined by no later live version of the path. |
| `StoreIndex.SortedIsHistory` | src/maas_collector/rawdata/configstore.py:214-218 | Sorting the hits of a path by version gives its history. |
| `StoreIndex.CurrentIsLast` | src/maas_collector/rawdata/configstore.py:237-247 | The current documents of the index of a store are the last versions of its histories. |
| `StoreIndex.AppendedIndex` | src/maas_collector/rawdata/configstore.py:318-349 | Creating the next version and clearing the flag of the one before is appending to the history. |
| `StoreIndex.ReadIsLoaded` | src/maas_collector/rawdata/configstore.py:442-448 | The documents read for a service, tombstones apart, are the files it loads of the store. |
| `ConfigStore.DefinitionsByName` | src/maas_collector/rawdata/configstore.py:391-397 | The definitions of a content by name, a later one replacing an earlier one. |
| `ConfigStore.PreviousDefinitions` | src/maas_collector/rawdata/configstore.py:389-397 | Walking back to the last version that is no tombstone finds the definitions the check compares with. |
| `ConfigStore.CheckDestinations` | src/maas_collector/rawdata/configstore.py:378-416 | The check passes exactly when each definition whose name has reports was there, at the same destination. |
| `ConfigStore.ConfigStore.CheckIntegrity` | src/maas_collector/rawdata/configstore.py:418-457 | The check passes exactly when every affected service would load sound files. |
| `ConfigStore.ConfigStore.FilesAfter` | src/maas_collector/rawdata/configstore.py:442-450 | The sources checked for a service are those the store loads but the path, and the new version. |
| `ConfigStore.ConfigStore.ClearLatest` | src/maas_collector/rawdata/configstore.py:459-473 | The update loop clears the flag of every lower version of the path, and of nothing else. |
| `ConfigStore.ConfigStore.Publish` | src/maas_collector/rawdata/configstore.py:251-353 | A publication succeeds if and only if the edit is allowed, its base version being the last one if it has one; it appends its version, flagged alone, else it changes nothing and the refusal is true. |
| `ConfigStore.ConfigStore.Rollback` | src/maas_collector/rawdata/configstore.py:475-502 | A rollback appends a copy of the older version if and only if that version exists and may be published again on the base given, else it is refused for a true reason. |
| `ConfigStore.ConfigStore.Delete` | src/maas_collector/rawdata/configstore.py:504-524 | A deletion appends a tombstone if and only if the path is live and the tombstone may be published on the base given; then no service loads the path any more. |
| `Pagination.QueryStrategy.constructor` | src/maas_collector/rawdata/collector/odata/query_strategy.py:54-73 | The first window starts at the start date less its offset (but in a replay) and is cut at the end date. |
| `Pagination.QueryStrategy.IterateWindows` | src/maas_collector/rawdata/collector/odata/query_strategy.py:102-235 | Pagination always ends; a completed collect saw every product of its dates; a stop or an error misses nothing dated before the start reached, nor before the date left in a journal that never runs ahead of the pages. Each page asked is the one the pages before it lead to. |
| `Pagination.VisitAt` | src/maas_collector/rawdata/collector/odata/query_strategy.py:178-235 | Every page asked is that of a window between the dates of the collect, no wider than the configured one, started where the page before leads; the journal is moved to the start of the window exactly when nothing is pending, else it is what the consumer made it. |
| `Pagination.QueryStrategy.IterateNames` | src/maas_collector/rawdata/collector/odata/query_strategy.py:109-176 | In list mode, the slices asked are the list in order and without overlap, all of it when the iteration completes, and the pages are, in order, what the server has under each slice that was answered; it raises exactly on a bad status. |
| `Pagination.SliceAt` | src/maas_collector/rawdata/collector/odata/query_strategy.py:261-269 | Each slice is the next `list_of_files_to_retrieve_per_query` names, and no stop or bad status came before it. |
| `Pagination.AllYielded` | src/maas_collector/rawdata/collector/odata/query_strategy.py:158 | When every slice is answered there is one page for each, that of its names. |
| `Pagination.PageContinues` | src/maas_collector/rawdata/collector/odata/query_strategy.py:294-305 | The next page continues what was seen of the window, and a page that is not full is its last. |
| `Pagination.MovedStartLosesNothing` | src/maas_collector/rawdata/collector/odata/query_strategy.py:208-233 | Moving the start of the window to a date up to that of the last product seen loses no product. |
| `Pagination.LastPageCoversWindow` | src/maas_collector/rawdata/collector/odata/query_strategy.py:191-201 | After a page that is not full, the whole window was seen. |
| `Pagination.NextSlice` | src/maas_collector/rawdata/collector/odata/query_strategy.py:261-269 | The next slice continues the slices before it, and is not empty. |
| `Messages.IdsConserved` | src/maas_collector/rawdata/messenger.py:236-329 | What was sent to a destination, then what waits, is what was handled for it, in order, over any messages, flushes and changes of chunk size. |
| `Messages.HandledConserves` | src/maas_collector/rawdata/messenger.py:280-307 | Every chunked message has exactly `chunk_size` identifiers, and fewer than that wait. |
| `ChunkIndices.IndicesExact` | src/maas_collector/rawdata/messenger.py:282-307 | Over a run, every message has exactly the indices of its own documents, and so would a flush at any time, if and only if each document gathered fitted the chunk size with what waited: chunks share no index with what follows, and one followed by an index has as many indices as documents. |
| `ChunkIndices.HarmlessExactly` | src/maas_collector/rawdata/messenger.py:284-307 | Draining what waits with a size gives each message its own indices, and leaves those of the rest, if and only if they fit that size. |
| `ChunkIndices.BacklogFits` | src/maas_collector/rawdata/messenger.py:280-307 | Documents always fit when no chunk size is set at or below what waits. |
| `ChunkIndices.FlushedExact` | src/maas_collector/rawdata/messenger.py:309-329 | After a flush of such a run the messages cover all documents exactly. |
| `Messages.LoweredSizeLosesIndex` | src/maas_collector/rawdata/messenger.py:294-307 | Lowering a chunk size below what waits sends a document without its index: a concrete run. |
| `Messenger.ParseChunkConfig` | src/maas_collector/rawdata/messenger.py:23-63 | Refused exactly when a setting is bad, naming the first one; every size read is positive and the last one given. |
| `Messenger.Messenger.LoadConfig` | src/maas_collector/rawdata/messenger.py:200-225 | The routing keys of the content take their sizes, the others keep theirs; a refused content changes nothing. |
| `Messenger.Messenger.Announce` | src/maas_collector/rawdata/messenger.py:227-307 | A message touches its own destination only, which makes one step of its run; it fails only at a message the broker refuses, the ones before it being sent, and loses no gathered identifier. |
| `Messenger.Messenger.Gather` | src/maas_collector/rawdata/messenger.py:263-307 | The while loop sends the full chunks of the buffer, in order, up to the first one the broker refuses, and keeps the rest. |
| `Messenger.Messenger.FlushGroups` | src/maas_collector/rawdata/messenger.py:309-329 | A flush sends what waits of every destination and forgets it, unless the broker refuses a message; then nothing is forgotten. |
| `Requester.DistinctKeepsOrder` | src/maas_collector/rawdata/transfer/requester.py:68-70 | Each document is requested once, in the order of first mention. |
| `Requester.BatchesAreDocuments` | src/maas_collector/rawdata/transfer/requester.py:72-74 | The batches are the documents in order, ten each but for the last one. |
| `Requester.SentIsSaid` | src/maas_collector/rawdata/transfer/requester.py:75-78 | A request is among those published exactly when the broker took it. |
| `Requester.TransferRequester.DocumentsIndexed` | src/maas_collector/rawdata/transfer/requester.py:51-78 | The requests of a file are built whatever the broker refuses; those it takes are published, in order, and those it refuses are kept after what waited, or their documents counted in a replay; none is lost. |
| `Requester.TransferRequester.Failed` | src/maas_collector/rawdata/transfer/requester.py:109-135 | A refused request is counted in a replay, else kept, the oldest one dropped beyond the cap. |
| `Requester.TransferRequester.RetryPending` | src/maas_collector/rawdata/transfer/requester.py:137-153 | Waiting requests are published oldest first up to the first one the broker refuses, and the others wait in order. |
| `ConfigSync.MirrorWithFrame` | src/maas_collector/rawdata/configsync.py:126-188 | Accepted paths hold their content, previously synced paths that left the index are gone, no other file is touched. |
| `ConfigSync.ManifestIsSynced` | src/maas_collector/rawdata/configsync.py:186-188 | The manifest lists exactly the paths synced. |
| `ConfigSync.SecondSyncIsIdle` | src/maas_collector/rawdata/configsync.py:126-188 | A second sync writes and removes nothing. |
| `ConfigSync.ConfigSync.SyncService` | src/maas_collector/rawdata/configsync.py:126-188 | The sync of a service leaves its folder as specified, tells exactly what it wrote, found in place, removed and refused, and touches no other folder. |
| `ConfigSync.ConfigSync.WriteFiles` | src/maas_collector/rawdata/configsync.py:138-167 | The writing loop leaves accepted paths with their content and tells which were stale. |
| `ConfigSync.ConfigSync.RemoveFiles` | src/maas_collector/rawdata/configsync.py:169-184 | The removing loop removes exactly the listed files that left the index. |
| `ConfigSync.CurrentFiles` | src/maas_collector/rawdata/configsync.py:102-118 | The services to sync, and the files of each. |
| `ConfigSync.ConfigSync.SyncConfigs` | src/maas_collector/rawdata/configsync.py:85-123 | Every service concerned is synced with its files, and tells what was done; every other folder is as it was. |
| `MirroredStore.SyncedIsLoaded` | src/maas_collector/rawdata/configsync.py:105-113 | The files synced for a service are those it loads from the store. |
| `MirroredStore.SyncedFolderIsSound` | src/maas_collector/rawdata/configsync.py:120-121 | After any run of the store from an empty one, then a sync: the manifest of a folder lists exactly the loaded files that may lie in it, each holds its content, and their references are sound when none of the loaded files is refused. |
| `MirroredStore.RefusedIsManifest` | src/maas_collector/rawdata/configsync.py:144-150 | Where sync refuses no published path but that of its manifest, a loaded file is refused exactly when one has that path. |

## Left out

- ODataServer.ODataWindowKept: holds for filters without `%` and without `"` outside strings, because the guard reads escapes as they are written and knows no JSON string, and fails with either alone (`ODataLimits.PercentEscapes`, `ODataLimits.JsonStringEscapes`); `ODataServer.DecodedWindowKept` has the condition for filters with `%`, that the decoded template is accepted too. The converse is not stated: the guard refuses harmless filters as well, and whether an `or` it misses lets the window go depends on what its other side entails, which is no property of the text. The date field is a property path and no keyword. Where a `+` is read as a blank, dates have none. A server that ends the filter at a `;`, or reads it more loosely than the standard, as one that parts `1or` in two, is not modelled.
- ODataServer.AcceptedIsConjunction: for the same filters.
- ODataServer.DecodedWindowKept: as above, of the decoded template.
- ODataWindow.TermsKeepWindow: for templates without `"` outside strings.
- ODataWindow.OrIsSeen: for templates without `"` outside strings.
- FilterText.ScanRead: for texts without `"` outside strings.
- JqlGuard.JqlWindowKept: holds where Jira reads the template as the guard does, four conditions a caller can check (`JqlGuard.Meets`), because the guard fails without each of them alone (`JqlLimits`). The converse is not stated: a template that breaks a condition is harmless when its query does not parse, or when the `or` that is let in asks for the window on both sides, which is no property of the text.
- JqlGuard.BoundsKept: the same conditions.
- JqlFill.ScanFill: for templates without a placeholder escaped in double quotes; the query of another does not parse (`JqlStrings.ParsedIsUnescaped`).
- JqlFill.InString: the same condition.
- JqlOpen.OpenFill: the same condition.
- JqlOpen.SameReading: for texts without backslash and foreign blank outside strings.
- JqlOpen.ScanRead: the same condition.
- JqlOpen.NoTopRead: the conditions of `JqlGuard.JqlWindowKept` but that on the ordering, no bar anywhere in the open, and no placeholder escaped in double quotes.
- JqlStrings.ParsedIsUnescaped: for templates without backslash outside strings.
- GuardExact.ODataGuardExactly: the date field holds no blank.
- GuardExact.BoundExactly: the date field and the placeholder hold no blank.
- Reporting.UploadIsTold: of sinks that report OK or KO on their own destinations; the archive alone writes REPLACED.
- PublishProtocol.PublisherSucceeds: says that such a run exists from any reachable state, not that the other publishers leave it the time.
- Pagination.QueryStrategy.IterateWindows: dates are whole units of the precision they are formatted with; the journal is what the consumer of the pages makes its last date, by the stated contract.
- TransferStage.Stage.DecideFor: when the hundred hits the source reads hold no report of a destination that has some, the destination is missed, as `Duplicates.ArchivedState` says, and the stage decides as if the product were not there; its results are stated where this does not happen.
- What the servers refuse beyond the grammars: reserved characters and unknown escapes of JQL, blanks that are none in OData, the form of numbers, JSON values and lists. The models read such queries on, so that the results cover more.
- How the operators of one condition bind in OData, and what arithmetic, calls, lists and histories mean: values of the model's parameters.
- Dates are compared as numbers; the time zone and the precision of the formats of each server are not modelled.
- What a refused query is told beyond the check that fails: the wording of the messages, and the hint that a term is inside a group or a quote.
- The other custom recollect rules: which keys of an entry may be overridden, the merge of the overrides, the archive override.
- The JSON pages of an OData answer and the extraction of products from them; retries of a query.
- The exclusion between collectors that share a journal: the update of the journal is a foreign call.
- The list and the window modes of one generator are two methods.
- The contents of sinks, downloads, temporary files, file and object layouts, authentication: a download gives an MD5 or fails, a sink reports OK, REPLACED or KO for its destinations, omits some, or raises.
- The delays between attempts of a download or an upload, and the cache of downloaders.
- The resolution of a request against the configuration is a parameter of the stage, and so is what the index says of a document; destinations of a request are distinct.
- The reports of a batch carry one time and are stored whole or not at all; two stages never serve the same queue at once.
- Checksums are compared without regard to the case of ASCII letters only.
- The conflict index holds no state here: opening or resolving a conflict only succeeds or raises.
- The death of the process between an upload and its report.
- Reports of a request that waits: writing them is part of sending it, and fails with it.
- The validation of a path, a service name and the schema of a content are rules given to the store; audit fields are left out; a document is identified by its path and version as a pair.
- A search of the store may be stale when a history is read, but sees every flagged lower version when flags are cleared, as the refresh before it makes sure.
- Integrity and frozen destinations are stated of one writer at a time: nothing locks a path while another one is checked.
- Malformed definitions in a content, which the readers skip leniently.
- Groups of messages are one map by exchange, routing key and model, not nested ones; the broker and the encoding of messages are left out.
- Write errors, a file where a directory must be, and symbolic links in a synced folder: the rule for paths says which ones designate a file of the folder.
- Command line, health checks, logging, extractors, the monitor's threads: plumbing, without an invariant of its own.
