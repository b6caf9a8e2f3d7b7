# LeadVirt: a verified model of its hardest logic

This project models, in Dafny, the parts of LeadVirt whose correctness is not visible from reading one
function, and proves what they promise. Each part follows the code it models: loops are methods with
invariants, mutable stores are classes, and what only computes is a function. `dafny verify dfyconfig.toml`
checks everything.

- **SQL statement splitters** (`SqlSplitter`, `SqlGrammar`, `SqlTheorems`). Both splitters, the capability-snapshot
  smoke's and the migration runner's (which also knows line comments and nested block comments), are
  proved against one recursive lexer, and the lexer against a grammar of scripts with quotations, dollar
  quotations and nested comments. A lexer token never looks past a semicolon or a whitespace
  character, so lexing composes there. From this follow: the segments rejoin to the script, the cuts are
  exactly the semicolons reached in plain mode, splitting is stable, and splitting undoes joining.
- **Query-hash keys** (`QueryHash`, `KeyReadiness`, `KeyRuns`). The keyring, the CHECK constraints in SQL's
  three-valued logic, the readiness transaction as a method on the database, and every run of deploys,
  row writes and row deletes, in which any earlier passing deploy may still be writing.
- **Forwarding verifier and its mutation probe** (`Occurrences`, `NginxServer`, `NginxBlocks`,
  `NginxVerifier`, `NginxRequired`, `NginxProbe`, `NginxLines`, `NginxDelete`, `NginxLineMutants`,
  `NginxNested`). The brace matcher is proved
  equivalent to a grammar of balanced bodies; the verifier's verdict is described line by line in literal directives; the
  verdict on the probe's mutants is given exactly. `NginxLines` says what the scans find in a text put
  together from parts, and `NginxNested` builds one accepted configuration line by line.
- **Operations and their delivery** (`OperationLedger`, `TransactionQueue`, `RequestDelivery`). The
  compare-and-set ledger, the promise chain that serialises transactions under every schedule, and the
  delivery of an integration request's email by any number of dispatchers, sweeps and crashing processes.
- **Publication freeze** (`PublicationFreeze`). The trigger over whole runs of updates and deletes.
- **Quality gates** (`QualityGate`). Check counting, rounding, rates and retrieval metrics.

What the proofs found out about the code:

- The migration runner's statements cannot always be joined with `;` and split again: trimming removes the
  newline that ends a trailing line comment (`SqlTheorems.RunnerSplitJoinSplitFails`). It works exactly when
  no line comment of the script ends in the whitespace before a cut that another statement follows
  (`SqlTheorems.SplitJoinSplitExactly`), which always holds for the smoke's splitter
  (`SqlTheorems.SmokeSplitJoinSplit`).
- The probe's mutants that append to, duplicate or limit something are rejected exactly when the place they
  change is in the apex server block (`NginxProbe.AppendMutants`, `NginxProbe.DuplicateRejectedExactly`,
  `NginxProbe.LimiterRejectedExactly`), and the probe changes the first places of the whole file. Acceptance
  alone does not put those into the block: with a directive in front, any accepted configuration stays
  accepted and so does its first mutant (`NginxProbe.MutantAccepted`).
- The verifier accepts configurations in which its location blocks nest and share one directive, so that
  the four it counts are not one per block (`NginxNested.SharedDirective`). They are one per block exactly
  when no two blocks share one (`NginxVerifier.OneTrustedPerBlock`).
- Deleting a trusted directive of the apex server block can go unnoticed (`NginxNested.DeleteAccepted`): the
  text on its two sides may make a new directive. It is rejected exactly when it makes none, or makes one
  that is first on its line in one of the four blocks (`NginxDelete.DeleteRejectedExactly`). So it is always
  rejected when the deleted directive is first on its line (`NginxDelete.FirstOnLineRejected`), or when no two
  blocks share a directive (`NginxProbe.DeleteAlwaysRejected`).
- The declared totals of the quality gates count one check, or three, that are never made. A score is
  therefore positive up to 20000 declared checks, or 60000 in the real-provider evaluation
  (`QualityGate.ScoreIsPositive`). With one check more a case that breaks every expectation is rounded to 0:
  in the golden gate one with 19993 missing tools (`QualityGate.ScoreCanBeZero`).
- A chunk can be relevant through a term that does not count as matched, because relevance is searched in
  "title content" and the term in "title: content". It cannot happen for a term exactly when every space of
  the term comes after nothing but colons (`QualityGate.RelevantIsFoundExactly`).
- A dispatcher can answer "rejected" and leave the operation UNKNOWN: exactly when it no longer finds it
  STARTED (`RequestDelivery.RejectedLedger`), and only if somebody gave up on the started operation
  (`RequestDelivery.RejectedWithoutSweeps`). Two such runs are given: somebody gives up before the payload is
  read (`RequestDelivery.RejectedWithoutPayload`), or after the provider was called
  (`RequestDelivery.RejectedAfterSending`). The answer is still true, nothing was accepted
  (`RequestDelivery.RejectionMeansNotDelivered`).

## Model

| member | source | states |
|---|---|---|
| SqlSplitter.ScanSmoke | artifacts/scripts/knowledge-v2-capability-snapshot-migration-smoke.ts:81-116 | one pass of the loop body with its index jumps and flags is one token of the lexer, and at most one flag is ever set |
| SqlSplitter.SplitSmoke | artifacts/scripts/knowledge-v2-capability-snapshot-migration-smoke.ts:73-127 | for every text the loop returns the lexer's segments in order, trimmed, empty ones dropped |
| SqlSplitter.ScanRunner | packages/db/prisma/apply-migration.ts:4681-4746 | one pass of the runner's loop body, with comments and nesting depth, is one token of the lexer |
| SqlSplitter.SplitRunner | packages/db/prisma/apply-migration.ts:4671-4762 | for every text the runner's loop returns the lexer's segments in order, trimmed, empty ones dropped |
| SqlSplitter.PiecesAreSegments | artifacts/scripts/knowledge-v2-capability-snapshot-migration-smoke.ts:80-122 | scanning in place with a start and an index cuts the same pieces as the lexer that consumes its input |
| SqlGrammar.ScriptCuts | artifacts/scripts/knowledge-v2-capability-snapshot-migration-smoke.ts:84-121 | a script of bare characters, quotations with doubled marks, dollar quotations with a tag that is empty or an identifier, and in the runner line and nested block comments, is cut exactly at its bare semicolons and ends in plain mode |
| SqlGrammar.OverToken | packages/db/prisma/apply-migration.ts:4689-4746 | each quotation, dollar quotation or comment is read to its end whatever it holds and cuts nothing |
| SqlGrammar.PlainExactly | packages/db/prisma/apply-migration.ts:4680-4755 | a text ends outside quotes and comments if and only if it is such a script |
| SqlTheorems.LexLocal | packages/db/prisma/apply-migration.ts:4690-4746 | no lookahead, quote, dollar tag or comment mark crosses a semicolon or whitespace, in either dialect and in every mode |
| SqlTheorems.Compose | packages/db/prisma/apply-migration.ts:4680-4755 | lexing `a + b` at such a barrier is lexing `a`, then `b` from the mode in which `a` ends |
| SqlTheorems.JoinSegments | artifacts/scripts/knowledge-v2-capability-snapshot-migration-smoke.ts:117-124 | the raw segments joined by `;` are the script |
| SqlTheorems.CutsArePlainSemicolons | artifacts/scripts/knowledge-v2-capability-snapshot-migration-smoke.ts:117-121 | a position is a cut if and only if it holds a semicolon that is reached in plain mode |
| SqlTheorems.SplitGivesStatements | artifacts/scripts/knowledge-v2-capability-snapshot-migration-smoke.ts:117-126 | every returned text is trimmed, not empty, and without a semicolon in plain mode when lexed alone |
| SqlTheorems.SplitIsStable | artifacts/scripts/knowledge-v2-capability-snapshot-migration-smoke.ts:84-126 | for every script, also one that ends inside a quote, each returned statement splits to exactly itself |
| SqlTheorems.RejoinExactly | packages/db/prisma/apply-migration.ts:4671-4762 | a list of statements is returned unchanged by splitting its `;`-join if and only if all but the last end in plain mode |
| SqlTheorems.SplitUndoesJoin | artifacts/scripts/knowledge-v2-capability-snapshot-migration-smoke.ts:80-121 | any list, also the empty one, of closed statements survives joining and splitting |
| SqlTheorems.SplitJoinSplit | packages/db/prisma/apply-migration.ts:4671-4762 | split, join, split equals split if and only if the statements but the last end in plain mode |
| SqlTheorems.SplitJoinSplitExactly | packages/db/prisma/apply-migration.ts:4680-4761 | the same condition on the script: no cut, with another statement behind it, whose preceding whitespace ends a line comment |
| SqlTheorems.SmokeSplitJoinSplit | artifacts/scripts/knowledge-v2-capability-snapshot-migration-smoke.ts:73-127 | without comments that condition always holds |
| SqlTheorems.RunnerSplitJoinSplitFails | packages/db/prisma/apply-migration.ts:4681-4687 | a concrete script for which the runner's statements do not survive joining |
| SqlTheorems.DialectsAgree | packages/db/prisma/apply-migration.ts:4724-4733 | from every mode the two lexers cut alike as long as no comment starts in plain mode |
| SqlTheorems.SplittersAgree | packages/db/prisma/apply-migration.ts:4724-4733 | the two splitters return the same statements for a script without comments |
| QueryHash.CreatedKeyring | packages/knowledge/src/tenant-query-hash.ts:158-221 | a created keyring lists one check per key, verifies what it hashes, and hashes exactly the valid queries |
| QueryHash.CreatedExactly | packages/knowledge/src/tenant-query-hash.ts:158-173 | which inputs make a keyring and which error the others get |
| QueryHash.OneBindingVerifies | packages/knowledge/src/tenant-query-hash.ts:200-216 | for one query and key id at most one binding verifies |
| QueryHash.BindingVerifiesExactly | packages/knowledge/src/tenant-query-hash.ts:190-216 | the binding of a query verifies against exactly the valid queries that hash like it under the active key |
| QueryHash.ForeignBindingsFail | packages/knowledge/src/tenant-query-hash.ts:201-212 | another version, an unknown or malformed key id, a malformed hash or an invalid query never verifies |
| QueryHash.PatternsAre | packages/db/prisma/migrations/20260713130000_knowledge_v2_query_hash_metadata/migration.sql:23-25 | the texts that the two patterns match |
| QueryHash.AcceptedExactly | packages/db/prisma/migrations/20260713130000_knowledge_v2_query_hash_metadata/migration.sql:17-64 | which rows the four CHECK constraints let in when NULL passes |
| QueryHash.NoLegacyMeansComplete | artifacts/scripts/knowledge-query-hmac-retained-keys-ready.ts:18-43 | although only null key ids are counted, no legacy rows means every stored hash has complete, well-formed metadata |
| QueryHash.LegacyExactly | artifacts/scripts/knowledge-query-hmac-retained-keys-ready.ts:18-31 | which accepted rows of which table are legacy, rows without a hash included |
| QueryHash.WrittenRowAccepted | packages/knowledge/src/tenant-query-hash.ts:190-199 | a row written from a keyring's binding makes every table's CHECK true and is not legacy |
| KeyReadiness.Database.CollectRetained | artifacts/scripts/knowledge-query-hmac-retained-keys-ready.ts:45-72 | the nested loops collect exactly the non-empty key ids of all rows of the four tables |
| KeyReadiness.Database.Ready | artifacts/scripts/knowledge-query-hmac-retained-keys-ready.ts:12-124 | passes if and only if the declarative condition on rows, registry and keyring holds; otherwise reports the first of legacy rows, missing verifiers, mismatches and unregistered ids with exactly the offending count or ids, and changes nothing; on success registers every configured key, keeps all others, and counts both |
| KeyReadiness.Decide | artifacts/scripts/knowledge-query-hmac-retained-keys-ready.ts:74-107 | looking only at the registry rows of configured ids decides what the whole registry decides |
| KeyReadiness.ErrorSets | artifacts/scripts/knowledge-query-hmac-retained-keys-ready.ts:74-107 | the ids named by the failures are those that the whole registry gives |
| KeyReadiness.FiltersAgree | artifacts/scripts/knowledge-query-hmac-retained-keys-ready.ts:109-111 | the filter on retained ids is redundant after the earlier checks |
| KeyReadiness.InsertsNeverCollide | artifacts/scripts/knowledge-query-hmac-retained-keys-ready.ts:112-120 | inserting the unregistered checks never meets a taken key and adds exactly them |
| KeyReadiness.CountInserts | artifacts/scripts/knowledge-query-hmac-retained-keys-ready.ts:109-122 | one insertion for each configured id that is not registered |
| KeyReadiness.Insert | artifacts/scripts/knowledge-query-hmac-retained-keys-ready.ts:109-122 | when the deploy passes the insertion succeeds and gives the specified registry |
| KeyRuns.InvAlways | artifacts/scripts/knowledge-query-hmac-retained-keys-ready.ts:67-122 | in every run, every key of every deploy that passed is registered with its own check, and every row that names a key was written with the registered key |
| KeyRuns.RetainedRowsVerify | artifacts/scripts/knowledge-query-hmac-retained-keys-ready.ts:67-122 | in every run, whichever deploy passes verifies every retained row against the query it was written for |
| KeyRuns.RunningDeployVerifies | packages/knowledge/src/tenant-query-hash.ts:200-219 | after its deploy passed, the running deploy verifies every retained row at any later state if and only if it configures the active key of every write since then whose row is still there |
| KeyRuns.RowVerifiesAgainst | packages/knowledge/src/tenant-query-hash.ts:200-216 | in every run a retained row verifies against exactly the valid queries that hash like the one it was written for under the key it was written with |
| KeyRuns.RowVerifiesItsQueryOnly | packages/knowledge/src/tenant-query-hash.ts:200-216 | so against that query only, when it collides with no recorded one |
| KeyRuns.RegistryGrows | packages/db/prisma/migrations/20260713140000_knowledge_v2_query_hash_key_registry/migration.sql:17-30 | along a run registered entries never change or disappear |
| KeyRuns.OneKeyPerId | artifacts/scripts/knowledge-query-hmac-retained-keys-ready.ts:87-107 | two passing deploys of one run never bring different material for one id, even if it was dropped and unused between them |
| KeyRuns.RepeatRegistersNothing | artifacts/scripts/knowledge-query-hmac-retained-keys-ready.ts:109-122 | repeating a passing deploy over the same rows passes and registers nothing |
| Occurrences.CountsAll | deploy/verify-masterbudet-forwarding.py:113-116 | for a pattern that ends in a character found nowhere else in it, counting without overlaps counts every occurrence |
| NginxServer.ServerIs | deploy/verify-masterbudet-forwarding.py:62-68 | the searches find the slice between the openings next to the only marker |
| NginxServer.ServerSlice | deploy/verify-masterbudet-forwarding.py:62-68 | whatever the searches cut is that slice |
| NginxServer.SliceMoves | deploy/verify-masterbudet-forwarding.py:62-68 | the slice moves along with the text when a stretch that touches neither opening nor marker is replaced |
| NginxBlocks.OverBody | deploy/verify-masterbudet-forwarding.py:26-49 | reading a balanced body, with its quotes, escapes and comments, brings any depth back to itself and never to 0 |
| NginxBlocks.Parse | deploy/verify-masterbudet-forwarding.py:26-49 | a scan from depth d that succeeds has read d balanced bodies, each closed by a brace |
| NginxBlocks.CloseExactly | deploy/verify-masterbudet-forwarding.py:26-51 | the scan stops at a brace if and only if the text before it is a balanced body; it fails when there is no such brace |
| NginxBlocks.DepthStaysPositive | deploy/verify-masterbudet-forwarding.py:43-48 | until the scan returns its depth is at least 1 |
| NginxBlocks.BlocksNest | deploy/verify-masterbudet-forwarding.py:26-49 | a brace that a block's scan reaches in plain mode opens a block that closes inside the first |
| NginxBlocks.MatchWordsExactly | deploy/verify-masterbudet-forwarding.py:12-13 | the greedy match of a header finds exactly the texts that the pattern describes |
| NginxBlocks.ExtractsBalancedBody | deploy/verify-masterbudet-forwarding.py:11-52 | with one header, the extractor returns a body if and only if that body is balanced and is followed by a closing brace |
| NginxBlocks.ExtractUniqueBlock | deploy/verify-masterbudet-forwarding.py:11-52 | the loop with its four variables returns the block found by the specification, or its error |
| NginxLines.HeadersExactly | deploy/verify-masterbudet-forwarding.py:12-14 | the matches are all lines that start with blanks and the header, each once and in order |
| NginxLines.BlockExactly | deploy/verify-masterbudet-forwarding.py:11-52 | the extractor finds a block if and only if it has the only header and a balanced body up to its closing brace |
| NginxVerifier.Verify | deploy/verify-masterbudet-forwarding.py:61-121 | the sequence of checks succeeds if and only if the configuration is acceptable |
| NginxRequired.ServerOkExactly | deploy/verify-masterbudet-forwarding.py:70-121 | a server passes if and only if, in literal terms: no appended chain, no line that starts with a limit, in each of the four blocks each of the four directives on exactly one line and one forwarding line, four occurrences of the trusted directive, four proxy lines |
| NginxVerifier.TrustedInBlock | deploy/verify-masterbudet-forwarding.py:86-111 | a block that passes its line-based checks holds the directive as text between its braces, first on its line |
| NginxVerifier.OneTrustedPerBlock | deploy/verify-masterbudet-forwarding.py:86-116 | for every server that passes, the occurrences of the trusted directive and the four blocks correspond one to one, with none elsewhere, if and only if no occurrence lies in two blocks |
| NginxLines.LinesOfLined | deploy/verify-masterbudet-forwarding.py:88-92 | breaking a text into lines undoes joining lines that hold no break |
| NginxDelete.BlockMoves | deploy/verify-masterbudet-forwarding.py:12-52 | replacing a text that no scan reacts to moves every block along: same header, same braces |
| NginxDelete.LinesAround | deploy/verify-masterbudet-forwarding.py:88-92 | the lines around a text without breaks do not depend on that text |
| NginxLines.HeadersAppend | deploy/verify-masterbudet-forwarding.py:12-14 | the headers of two texts with a newline between them are those of the first and, moved, those of the second |
| NginxNested.SharedDirective | deploy/verify-masterbudet-forwarding.py:86-116 | a server whose four blocks nest passes every check, and its directives and blocks do not correspond |
| NginxNested.NestedAccepted | deploy/verify-masterbudet-forwarding.py:61-121 | the configuration around that server is accepted |
| NginxProbe.Changed | deploy/test-masterbudet-forwarding.py:23-27 | the first occurrence, and no other, is replaced; the guard fails exactly when there is none |
| NginxProbe.AcceptedHasFour | deploy/verify-masterbudet-forwarding.py:113-116 | an accepted configuration holds the directive at least four times |
| NginxProbe.FindLoop | deploy/test-masterbudet-forwarding.py:41-43 | with enough occurrences the loop ends at the one that exactly `index` others precede and never wraps through -1 |
| NginxProbe.AppendRejectedExactly | deploy/test-masterbudet-forwarding.py:46-47 | the appending mutant of any occurrence is rejected if and only if the occurrence is in the apex server block |
| NginxProbe.AppendMutants | deploy/test-masterbudet-forwarding.py:36-47 | four mutants at four distinct occurrences, each with its exact verdict |
| NginxProbe.MutantAccepted | deploy/test-masterbudet-forwarding.py:40-47 | for every accepted configuration, one directive in front of it gives an accepted configuration whose first mutant is accepted |
| NginxDelete.DeleteRejectedExactly | deploy/test-masterbudet-forwarding.py:51-54 | for every accepted configuration and every trusted directive, deleting it is rejected if and only if: in the apex block, the cut makes no new directive or one that is first on its line in one of the four blocks; elsewhere, the cut makes a second marker |
| NginxDelete.FirstOnLineRejected | deploy/test-masterbudet-forwarding.py:51-54 | deleting a directive that is first on its line in the apex block is always rejected |
| NginxProbe.DeleteAlwaysRejected | deploy/test-masterbudet-forwarding.py:51-54 | when no two blocks share a directive, deleting any directive of the apex block gives a rejected configuration |
| NginxLineMutants.LineDeletedRejected | deploy/verify-masterbudet-forwarding.py:93-102 | deleting the line of any of the four directives of any of the four blocks of an accepted configuration is rejected |
| NginxLineMutants.LineDuplicatedRejected | deploy/verify-masterbudet-forwarding.py:93-102 | so is duplicating it |
| NginxLineMutants.RequiredIsThere | deploy/verify-masterbudet-forwarding.py:86-102 | every accepted configuration has such a line for each directive of each block |
| NginxNested.DeleteAccepted | deploy/test-masterbudet-forwarding.py:51-54 | an accepted configuration from which a directive of the apex block can be deleted without rejection |
| NginxProbe.DuplicateRejectedExactly | deploy/test-masterbudet-forwarding.py:55-63 | duplicating a trusted directive is rejected if and only if it is in the apex block |
| NginxProbe.LimiterRejectedExactly | deploy/test-masterbudet-forwarding.py:82-90 | adding a limiter to an API location is rejected if and only if that is in the apex block |
| OperationLedger.Ledger.Create | artifacts/scripts/integration-crm-truthful-state-smoke.ts:238-269 | stores the given columns with no attempts, times, reference or error under the id and touches no other record |
| OperationLedger.Ledger.UpdateMany | artifacts/scripts/integration-crm-truthful-state-smoke.ts:270-304 | a compare-and-set on kind and status: what happens to each column, that no other record changes, and that a simulated failure changes none and happens once |
| OperationLedger.Ledger.FindFirst | artifacts/scripts/integration-crm-truthful-state-smoke.ts:305-328 | finds the record if and only if every given condition holds, and counts tenant-scoped reads |
| OperationLedger.ClaimsAlternate | artifacts/scripts/integration-crm-truthful-state-smoke.ts:270-304 | in every run, between two updates of one operation out of the same status some call set that status again |
| OperationLedger.AtMostOneClaim | artifacts/scripts/integration-crm-truthful-state-smoke.ts:270-304 | if nothing restores the status, at most one claim succeeds |
| OperationLedger.AttemptsAreClaims | artifacts/scripts/integration-crm-truthful-state-smoke.ts:295-296 | if only claims count attempts, the attempt count is the number of successful claims |
| OperationLedger.LastWriteWins | artifacts/scripts/integration-crm-truthful-state-smoke.ts:238-304 | in every run each column of an operation holds what the last successful call that wrote it wrote |
| TransactionQueue.InvAlways | artifacts/scripts/integration-crm-truthful-state-smoke.ts:377-387 | under every schedule, jobs before the current one are settled, later ones untouched, and the current one runs on the store they left |
| TransactionQueue.NeverOverlap | artifacts/scripts/integration-crm-truthful-state-smoke.ts:379-385 | a body that has started finds every earlier one started and settled |
| TransactionQueue.JobsAreSubmissions | artifacts/scripts/integration-crm-truthful-state-smoke.ts:377-387 | the queue holds the submitted bodies in submission order |
| TransactionQueue.EveryScheduleIsSerial | artifacts/scripts/integration-crm-truthful-state-smoke.ts:377-387 | every interleaving, with any bodies throwing, ends with the store and the results of running the bodies one after another in submission order |
| TransactionQueue.SomethingIsEnabled | artifacts/scripts/integration-crm-truthful-state-smoke.ts:382-385 | while a result is pending something can happen: a rejected body never blocks the next |
| TransactionQueue.EventsFinish | artifacts/scripts/integration-crm-truthful-state-smoke.ts:379-385 | each event other than a submission leaves less to do |
| TransactionQueue.EverythingSettles | artifacts/scripts/integration-crm-truthful-state-smoke.ts:379-386 | from every reachable queue every run without submissions is bounded by the work left, and can be continued within that bound until every result is settled |
| RequestDelivery.InvAlways | apps/api/src/modules/integrations/integration-requests.service.ts:464-642 | what ties ledger, dispatchers and provider calls together in every state of every run |
| RequestDelivery.SentAtMostOnce | apps/api/src/modules/integrations/integration-requests.service.ts:464-514 | however many dispatchers, sweeps, crashes and reconciliations there are, the provider is called at most once |
| RequestDelivery.SuccessMeansDelivered | apps/api/src/modules/integrations/integration-requests.service.ts:516-574 | a finalised operation, and every answer "sent", stand for one accepted email whose id is recorded |
| RequestDelivery.RejectionMeansNotDelivered | apps/api/src/modules/integrations/integration-requests.service.ts:482-513 | a failed operation, and every answer "rejected", mean that no email was or ever will be accepted |
| RequestDelivery.RejectedLedger | apps/api/src/modules/integrations/integration-requests.service.ts:482-513 | in every unreconciled run, a dispatcher that answers "rejected" leaves FAILED if and only if it still finds STARTED, and UNKNOWN otherwise; one without a payload always finds UNKNOWN |
| RequestDelivery.RejectedWithoutSweeps | apps/api/src/modules/integrations/integration-requests.service.ts:588-613 | if nobody gives up on a started operation, every "rejected" follows a refusal and leaves FAILED |
| RequestDelivery.RejectedWithoutPayload | apps/api/src/modules/integrations/integration-requests.service.ts:482-490 | from every stored request, a run that answers "rejected" with nothing sent and leaves UNKNOWN |
| RequestDelivery.RejectedAfterSending | apps/api/src/modules/integrations/integration-requests.service.ts:503-513 | from every stored request, a run that answers "rejected" after a refusal and leaves UNKNOWN |
| RequestDelivery.NothingMoreIsSent | apps/api/src/modules/integrations/integration-requests.service.ts:466-476 | once nobody holds a claimed operation nothing more is sent for it |
| RequestDelivery.RecordsAlways | apps/api/src/modules/integrations/integration-requests.service.ts:464-642 | in every run times, evidence and error of the operation agree with its status |
| RequestDelivery.OrderlyLedger | apps/api/src/modules/integrations/integration-requests.service.ts:464-642 | when no dispatcher stops half-way, a started operation is held; once nobody holds it, it is UNKNOWN after an ambiguous delivery, and an accepted email is on record |
| RequestDelivery.StartedExactlyWhileHeld | apps/api/src/modules/integrations/integration-requests.service.ts:464-531 | if moreover nobody gives up and finalisations commit when they answer, the operation is STARTED if and only if a dispatcher holds it |
| RequestDelivery.AmbiguousLedger | apps/api/src/modules/integrations/integration-requests.service.ts:503-513 | after an ambiguous delivery the answer is "unknown" and the operation UNKNOWN |
| RequestDelivery.FinalizedLedger | apps/api/src/modules/integrations/integration-requests.service.ts:533-555 | a finalisation that commits ends in SUCCEEDED with the evidence, and the answer is "sent" exactly when it also answers |
| RequestDelivery.ThrewLedger | apps/api/src/modules/integrations/integration-requests.service.ts:519-530 | after a finalisation that threw the answer is "unknown" and the reference is recorded on a started or unknown operation |
| RequestDelivery.OutsideLedger | apps/api/src/modules/integrations/integration-requests.service.ts:712-733 | giving up moves a started operation to UNKNOWN and no other |
| RequestDelivery.ReadAnswer | apps/api/src/modules/integrations/integration-requests.service.ts:698-710 | a dispatcher that lost its claim answers in progress exactly while the operation is started |
| PublicationFreeze.FrozenForever | artifacts/scripts/knowledge-v2-capability-snapshot-migration-smoke.ts:369-398 | over every run of changes a frozen publication stays, keeps its thirteen manifest columns and never returns to validation, unless a cascade deletes it |
| PublicationFreeze.OnlyCascadesRemove | artifacts/scripts/knowledge-v2-capability-snapshot-migration-smoke.ts:370-377 | a frozen publication that is gone or changed was deleted from within another trigger |
| PublicationFreeze.UpdateExactly | artifacts/scripts/knowledge-v2-capability-snapshot-migration-smoke.ts:378-398 | which updates are accepted, and that they are stored as they are |
| PublicationFreeze.DeleteExactly | artifacts/scripts/knowledge-v2-capability-snapshot-migration-smoke.ts:370-377 | which deletes are accepted |
| QualityGate.Fixed4IsClosest | artifacts/scripts/ai-quality-gate.ts:345 | rounding gives the closest four-digit number and of two equally close ones the larger |
| QualityGate.RoundedBounds | artifacts/scripts/ai-quality-gate.ts:345 | rounding keeps [0, 1], and gives 1 exactly from 0.99995 on |
| QualityGate.CheckTools | artifacts/scripts/ai-quality-gate.ts:330-335 | the two loops add one failure per missing and per forbidden tool, with multiplicity and in order |
| QualityGate.RunChecks | artifacts/scripts/ai-quality-gate.ts:319-341 | the pushed failures are those of the specification, for both gates |
| QualityGate.FailuresExactly | artifacts/scripts/ai-real-provider-eval.ts:306-345 | the failures are exactly the broken expectations; none if and only if all are met; at most the declared total less 1, or less 3 for the real-provider evaluation |
| QualityGate.ScoreIsOneExactly | artifacts/scripts/ai-quality-gate.ts:343-345 | scores lie in [0, 1] and are 1 if and only if at most one check in 20000 failed |
| QualityGate.ScoreIsZeroExactly | artifacts/scripts/ai-quality-gate.ts:343-345 | a score is 0 if and only if fewer than one in 20000 checks did not fail |
| QualityGate.ScoreTellsPassed | artifacts/scripts/ai-quality-gate.ts:345-348 | below 20000 checks a score of 1 means passed; with 20000 it need not |
| QualityGate.ResultsAreSound | artifacts/scripts/ai-quality-gate.ts:343-353 | for every case a pass forces score 1 and a retrieval hit |
| QualityGate.ResultIs | artifacts/scripts/ai-quality-gate.ts:343-353 | a result has passed exactly when all expectations are met, hits exactly when every term is found, and its score is the share of checks that did not fail to four digits |
| QualityGate.BoundIsReached | artifacts/scripts/ai-quality-gate.ts:343-344 | all but one, or three, of the declared checks can fail at once |
| QualityGate.ScoreIsPositive | artifacts/scripts/ai-quality-gate.ts:343-345 | up to 20000 declared checks, or 60000 in the real-provider evaluation, no case scores 0 |
| QualityGate.ScoreCanBeZero | artifacts/scripts/ai-real-provider-eval.ts:562-564 | with one check more, for either gate, a case that scores 0 |
| QualityGate.PassRateIsSmallest | artifacts/scripts/ai-quality-gate.ts:380-383 | the pass rate is at most the average score and the hit rate, and these are at most 1 |
| QualityGate.PassRateDecides | artifacts/scripts/ai-quality-gate.ts:380-390 | a pass rate that reaches all three thresholds makes the gate pass |
| QualityGate.GateExactly | artifacts/scripts/ai-quality-gate.ts:380-390 | the gate is open if and only if there are results and passes, scores and hits reach their share of them |
| QualityGate.MatchedAllIsHit | artifacts/scripts/ai-quality-gate.ts:170-172 | all required terms, with multiplicity, are matched if and only if the retrieval hits |
| QualityGate.MetricsAreConsistent | artifacts/scripts/ai-quality-gate.ts:158-186 | matched at most required, relevant at most retrieved, rates in [0, 1] and exactly when they are 1, for empty and non-empty terms and chunks |
| QualityGate.MetricsAre | artifacts/scripts/ai-quality-gate.ts:170-185 | matched and relevant count terms and chunks, and the rates are their shares to four digits, 0 without chunks |
| QualityGate.ChunkTermIsFound | artifacts/scripts/ai-quality-gate.ts:148-155 | a term inside a chunk's title or content is found in the joined context text |
| QualityGate.ReferenceTermIsFound | artifacts/scripts/ai-quality-gate.ts:149-155 | a term inside a reference is found in the joined context text |
| QualityGate.RelevantIsFoundExactly | artifacts/scripts/ai-quality-gate.ts:173-176 | for which terms relevance of a chunk implies that the term is found in the context text |
| QualityGate.RelevantMeansMatched | artifacts/scripts/ai-quality-gate.ts:172-176 | for such terms a relevant chunk means a matched term, for any references and chunks |

## Left out

- HMAC-SHA-256 and base64: key checks and query hashes are functions of their inputs; hashes are assumed to have 64 hex digits and key checks to differ for different keys under one id; keys are already decoded.
- QueryHash.CreateKeyring: a bad key id and bad key material are one error, and the sorted order of the ids is a parameter.
- KeyReadiness.Database.Ready: the advisory lock and the serializable transaction make it one atomic step; the sorting of the ids in error messages is dropped (they are sets), and an empty key id is skipped by the loop as in the code.
- KeyRuns.InvAlways: starts from rows without key ids, as the migration leaves them.
- SqlTheorems.SplittersAgree: one direction only, since a comment without quotes or semicolons in it changes nothing.
- SQL rules that neither splitter implements, such as a dollar sign inside an identifier or backslash escapes; executing the statements and the runner's BEGIN/COMMIT filter.
- Text is a sequence of Unicode scalar values; JavaScript's unpaired surrogates cannot be expressed.
- NginxVerifier.Verify: word characters are the ASCII ones, and a carriage return followed by a newline is two line breaks, which only adds an empty line that is dropped.
- The mutants "health route is widened" and "backend proxy is redirected", the probe's checks of the workflow file, and reading the files.
- TransactionQueue.EveryScheduleIsSerial: the store is touched by transaction bodies only, and a body is a list of atomic steps.
- RequestDelivery.InvAlways: creating the request, the account projection, audit records and the wording of error codes; a failed database call outside finalisation is a crash of that dispatcher; the operator's reconciliation is one step.
- Every other table, trigger and migration of the knowledge base, and all services behind HTTP, queues and providers.
- QualityGate.RunChecks: numbers are exact rationals, failures are values and not messages, and lower-casing maps each character to one character.
- QualityGate.PassRateDecides: the golden gate only; the judge's parsing, scores and case selection in the real-provider evaluation are not modelled.
