# Verified models of the knowledge base service

A Dafny model of the parts of the service where a wrong branch costs data: the
article tree and its histories, the indexing queue, the model registry, the
outbox relay, the body converter and the ordering of provider answers. Each
model follows the branches, guards and constants of the source files it cites;
`dafny verify dfyconfig.toml` checks everything.

## The knowledge base

`Forest` holds the rows of `kb.article` as a map from id to row and the
recursive walks of the SQL statements: the live subtree, the deleted rows
buried below it, and the branch of every descendant. Its invariant says that a
live row has a live parent of the same space one level up, that a top row has
depth 1, that no depth passes 5, that every row, deleted ones included, is in
the space of its parent, and that no parent chain closes on itself.

`Kb` is the state machine over it: article rows, version histories, spaces with
their home page and models, vectors, and the log of issued reindex events, each
carrying as a history variable the model its space searched with at that
moment. A service call is one committed transaction: it yields a new state or
refuses with the source's error and leaves the old state. `KnowledgeBase`
writes the same calls as transaction bodies, statement by statement over
mutable tables with rollback, and every body is proved to do what `Kb` says.
`KbInvariants` proves what every run keeps, `KbHistory` what a call may change,
`KbLaws` what each call stores and which refusal answers which input, without naming
the functions the calls are made of, and `ArticleQueries` that the loops computing
the walks compute them and that the move check of the service and the guard of the
SQL agree. `TreeView` builds the tree of a space by mutating nodes, as the source
does.

Two protocols read before they lock. `TreeLocks` splits moves and deletes into
their statements, and each write into the walk over the rows it finds and the
change of the rows it leaves, and lets any number of them interleave with
inserts, rewrites and purges; `ModelRegistry` does the same for model updates,
deletes and validations against spaces that take models. `TreeLaws` and `ModelLaws` say what these
transactions write in the end: in a run, what was asked for; by themselves, exactly
when they write at all.

## The body converter

`Body` is the editor tree, `PlainText` and `Markdown` are the two renderings,
and `CodeMarkup`, `Escapes`, `Headings`, `Paragraphs`, `Containers` and `Links`
hold the pieces of markdown together with readers written from CommonMark 0.31.2
(sections 2.1, 2.2, 2.4, 2.5, 4.1 to 4.6, 4.8, 5.1, 5.2, 6.1, 6.3 and 6.4;
`Lines` and `References` hold what they share). The named character references
are a parameter, a table of which only two things are assumed that hold of the one
of HTML: no reference is shorter than the text it stands for, and one that stands
for an ampersand stands for nothing else. The names of the tags that start an HTML
block are a parameter too.

`PlainLayout` says how the flat rendering keeps texts apart, `MarkdownReads` what a
reader makes of each rendered node, and `MarkdownDocument` what it makes of a document.

Proved: what either rendering keeps of a document's text, that the readers undo
code blocks, escapes and block quotes for every input, and exactly when they
undo the other pieces. Each of these theorems is an equivalence about one piece
read on its own; for these pieces the following are all the cases in which the
converter's markdown is read back as something else:

- A code span: the empty text, text with a line ending, and a whitespace-only
  text that starts and ends with a space and holds some other whitespace, such
  as a space, a tab and a space.
- The language of a code block: one with a backtick or a line ending, with a
  blank at either end, or with a backslash escape or a character reference in it.
  The code itself always comes back.
- The inline content of a heading: one with a line ending, with a blank at either
  end, or ending in hashes that start it or stand behind a blank, as in "C #".
- A link destination: an empty one with a title behind it, which is then taken for
  the destination; in brackets, one with a line ending, a tab or a character
  reference; bare, one with a control character, an escape or a reference, or a
  backslash at its end, which takes the closing parenthesis of the link along.
- A title in inline content: one with a blank line or a character reference. The
  description of an image always comes back.
- An image that stands as a block of its own: one whose destination or title does
  not come back, and one with a later line, in its description or its title, that is
  blank, indented, or starts a block, for the line starts of such an image are not
  escaped.
- A paragraph of ordinary text without carriage returns: one with a blank at either
  end, or with a later line that is blank or indented. No other line of it is taken for
  another block.
- A list item: a body whose first line is indented by one to three columns (the
  reader then takes the item to be wider than the writer indents it, and a second
  paragraph falls out of the list); one whose first line makes a thematic break
  behind its dash, as a horizontal rule does; and one that starts with two blank
  lines. Also an ordered list once its numbers reach ten digits.

What the pieces do to each other is proved only of one neighbourhood: a link right
behind an exclamation mark is written as an image is.

## The relay and the providers

`Outbox` is the table with its acknowledged offset and the batched cleanup;
`Relay` is one message behind its retries and its poison queue, and the state
machine of commits, reads, publications, failures, crashes and cleanups.
`Indexing` puts the knowledge base in front of it: a call commits its events as
outbox rows in its own transaction, and the end-to-end theorem says that no live
article is ever forgotten by the indexing.
`Rerank` puts provider answers back in request order and orders hits.
`NulEscape` compares the backward backslash count with a forward lexer of JSON
strings (section 7 of RFC 8259).

## Assumptions

- One transaction body, or one statement in `TreeLocks` and `ModelRegistry`, is
  atomic when it commits. The writes of `TreeLocks` are not: other transactions
  may write between the walk and the change, except that no insert puts a row into
  the branch in between. That exception is needed: an insert holds no tree lock, and
  `TreeLocks.StragglerBreaksForest` and `TreeLocks.StragglerOutlivesBranch` say exactly
  when one would break the forest.
- One relay leads at a time and the subscriber reads rows in (transaction, offset)
  order, only of transactions older than every open one; the broker may have
  taken a message it reported as failed.
- A probe of a provider answers yes or no, either way at any time.
- The indexing pipeline, which is another program, sets the index state of an
  article and stores vectors made by the model its space has at that moment.
- Scores are real numbers.

## Model

| member | source | states |
|---|---|---|
| Forest.LevelIsDepthDifference | internal/store/postgres/article_store.go:82-93 | in a well-formed forest the level the subtree walk gives a row is the difference of the stored depths, and the walk stays among live rows of one space |
| Forest.WalksCoverBranch | internal/store/postgres/article_store.go:82-91 | the live subtree and the buried rows are disjoint and together exactly all descendants, all in the space of the root |
| Forest.InsertKeepsForest | internal/store/postgres/article_store.go:27-43 | an insert its guard lets through keeps the forest well-formed |
| Forest.DeleteKeepsForest | internal/store/postgres/article_store.go:50-71 | deleting the walked subtree keeps the forest well-formed: no live row is left under a deleted one |
| Forest.DeleteEmptiesBranch | internal/store/postgres/article_store.go:45-64 | after a delete nothing of the branch is live and no other row has changed |
| Forest.MoveKeepsForest | internal/store/postgres/article_store.go:73-131 | a move its guard lets through keeps depths, spaces and acyclicity, for live and deleted rows alike |
| Forest.MoveCarriesBranch | internal/store/postgres/article_store.go:95-103 | a move takes the whole branch, deleted rows included, into the target space and leaves every other row, and every parent but that of the root, as it was |
| Forest.TopAlwaysFits | internal/store/postgres/article_store.go:123-131 | a move to the top level never fails on depth |
| Forest.NoCycle | internal/store/postgres/article_store.go:82-103 | no row is reached from itself by one or more parent links |
| Forest.EveryRowHasTop | internal/store/postgres/article_store.go:73-81 | every row, deleted or not, hangs below a top-level row of its own space |
| ArticleQueries.SubtreeQuery | internal/store/postgres/article_store.go:82-87 | the level-by-level walk finds exactly the live subtree with the level of each row |
| ArticleQueries.BuriedQuery | internal/store/postgres/article_store.go:87-91 | the second walk finds exactly the deleted rows below the subtree, and terminates |
| ArticleQueries.BranchQuery | internal/store/store.go:222-225 | the branch walk of the vectors finds exactly all descendants |
| ArticleQueries.ListSubtree | internal/store/postgres/article_store.go:146-154 | the listing holds each live descendant once with its stored depth |
| ArticleQueries.CheckMoveTarget | internal/service/article.go:773-802 | the loop over the listed subtree gives the verdict of the specification, with the same error first |
| ArticleQueries.HeightFits | internal/service/article.go:777-795 | the height the loop finds exists, and the depth check with it is the check of the SQL over every row of the subtree |
| ArticleQueries.CheckMatchesGuard | internal/service/article.go:770-802 | for a live parent of the target space that is no home page, the service's check passes exactly when the guard of the SQL matches at an unchanged version |
| ArticleQueries.MoveNeverRejectedBlindly | internal/service/article.go:453-462 | run as one transaction a move is never refused by the guard without the service having named the reason |
| KbInvariants.MaxNumberIsLength | internal/store/postgres/article_version_store.go:31 | the largest number of a history is its length, so the next version continues it without a gap |
| KbInvariants.VersionedKeepsInv | internal/service/article.go:306-325 | the rewritten row, its next version and its event together keep the invariant |
| KbInvariants.CreateKeepsInv | internal/service/article.go:163-238 | creating an article, with or without a body or the home flag, keeps the invariant |
| KbInvariants.UpdateKeepsInv | internal/service/article.go:244-332 | updating an article keeps the invariant; a new subject alone is versioned with the latest body |
| KbInvariants.RestoreKeepsInv | internal/service/article.go:632-681 | restoring a version keeps the invariant |
| KbInvariants.ReindexKeepsInv | internal/service/article.go:684-730 | queueing a failed article keeps the invariant |
| KbInvariants.DeleteKeepsInv | internal/store/postgres/article_store.go:50-71 | deleting a subtree keeps the invariant: a deleted home page is no space's home |
| KbInvariants.MoveKeepsInv | internal/service/article.go:396-475 | a move within a space or into another keeps the invariant, the vectors and the queue included |
| KbInvariants.IndexMovedKeepsPlace | internal/service/article.go:564-583 | carrying the index over changes no space, history or row of another space, and of a row only its content |
| KbInvariants.CreateSpaceKeepsInv | internal/service/space.go:79-132 | creating a space keeps the invariant |
| KbInvariants.SpaceRewrittenKeepsInv | internal/service/space.go:193-232 | rewriting a space keeps the invariant: a change of the search model queues every article with a version, a change of the model drops the vectors of any other |
| KbInvariants.UpdateSpaceKeepsInv | internal/service/space.go:144-245 | updating a space keeps the invariant |
| KbInvariants.PurgeStaysInSpace | internal/store/store.go:204-206 | a row is purged exactly when its parent is, so a purge leaves no dangling parent |
| KbInvariants.DeleteSpaceKeepsInv | internal/service/space.go:249-300 | deleting a space with all its rows keeps the invariant for the rest |
| KbInvariants.CallKeepsInv | internal/service/article.go:163-741 | every call, refused or not, keeps the invariant |
| KbInvariants.EveryRunKeepsInv | internal/service/article.go:163-741 | from the empty knowledge base every run of calls of any domains keeps the forest, histories numbered 1 to n whose copies name earlier versions, the home pages, the queueing of every latest version under the current search model, and the scope and model of every vector |
| KbHistory.Origin | internal/store/postgres/article_version_store.go:28-37 | following restored_from from any version ends at an authored version no later, with the same subject and body |
| KbHistory.NumbersAreOneToN | internal/store/postgres/article_version_store.go:28-37 | looking a number up finds version number-1 of the history, and nothing outside 1 to n |
| KbHistory.RestoreRepeats | internal/service/article.go:629-681 | restoring an existing number of a visible article always succeeds, appends exactly one version and brings subject and body of the named one back |
| KbHistory.RestoreUndoesRestore | internal/service/article.go:629-681 | restoring the formerly latest version undoes a restore, at the cost of two more versions |
| KbHistory.CallEffects | internal/service/article.go:163-741 | a call only appends to histories, never lowers a version, never revives a row or changes a type, keeps a home page where it is until it is deleted, and changes nothing of another domain |
| KbHistory.PipelineEffects | internal/store/store.go:212-220 | the pipeline's writes only append too |
| KbHistory.RunKeepsGone | internal/store/store.go:204-206 | a purged id never comes back |
| KbHistory.RunGrowsArticle | internal/service/article.go:163-741 | over a whole run the old history is a prefix of the new one and the version never falls |
| KbHistory.NoLostUpdate | internal/store/postgres/article_store.go:421-522 | after a successful write of an article, every later call carrying the version read before it is refused, whatever ran in between |
| KbHistory.StaleIsRefused | internal/store/postgres/article_store.go:50-131 | a call guarded by a version that has been passed is refused |
| KbLaws.CreateStores | internal/service/article.go:163-238 | a create that succeeds adds exactly one row, with the trimmed subject, the type and state given or an article in draft, one level below its parent, and with a body one first version and one event; a home page is set only when asked for |
| KbLaws.CreateAnswers | internal/service/article.go:166-238 | which input gets which refusal, each if and only if, and a create succeeds exactly when none applies |
| KbLaws.UpdateStores | internal/service/article.go:244-332 | an update that succeeds stores the given body, under the subject the article then has, as exactly one new version; a new subject alone goes on with the latest body, if there is one; state given or kept, pending exactly with a new version, and nothing else changes |
| KbLaws.UpdateAnswers | internal/service/article.go:244-332 | each refusal of an update, if and only if |
| KbLaws.RestoreStores | internal/service/article.go:629-681 | a restore succeeds exactly for a found article and a number of its history, and appends that version's subject and body marked as its copy |
| KbLaws.ReindexQueues | internal/service/article.go:683-730 | exactly a failed article with a version is queued, and it is the latest version |
| KbLaws.DeleteEnds | internal/store/postgres/article_store.go:45-71 | a delete ends exactly the live rows of the branch, clears exactly the home pages among them, and is refused for a missing article or a stale version only |
| KbLaws.MoveAnswers | internal/service/article.go:396-502 | which move gets which refusal, each if and only if, told of parent, space named, right, home page, languages, branch, depths and version |
| KbLaws.MoveStores | internal/service/article.go:385-475 | a move carries the whole branch under the parent asked for and into the space of the parent, else the one named, else its own; live rows keep their distance to the root, vectors follow or go, and exactly the live rows with a version are queued when the search models differ; nothing else changes |
| KbLaws.CreateSpaceStores | internal/service/space.go:77-132 | a space is stored as given, for the domain, unless it reranks without a model or a model was refused |
| KbLaws.UpdateSpaceStores | internal/model/space.go:97-126 | each field named, or every one without a mask, is taken from the input and no other; then the articles queued and the vectors dropped are exactly those the change of model asks for |
| KbLaws.UpdateSpaceAnswers | internal/service/space.go:144-245 | each refusal of a space update, if and only if |
| KbLaws.DeleteSpacePurges | internal/service/space.go:247-300 | a space goes with exactly its rows, their histories and vectors, unless a live article in it is active |
| KnowledgeBaseService.KnowledgeBase.CreateVersion | internal/store/postgres/article_version_store.go:28-37 | appends the version with the number after the largest |
| KnowledgeBaseService.KnowledgeBase.MarkArticlesPending | internal/store/store.go:212-215 | marks exactly the live articles of the space with a version, narrowed to the given ids |
| KnowledgeBaseService.KnowledgeBase.PublishLatest | internal/service/space.go:308-318 | the loop queues the latest version of every target once |
| KnowledgeBaseService.KnowledgeBase.RequestSpaceReindex | internal/service/space.go:305-319 | marks and queues as the specification says |
| KnowledgeBaseService.KnowledgeBase.Rescope | internal/store/store.go:222-225 | scopes the vectors of the branch, deleted rows included, to the space each article is in |
| KnowledgeBaseService.KnowledgeBase.DeleteSubtree | internal/store/postgres/article_store.go:50-71 | deletes the subtree and clears home pages in it, or nothing when the version guard misses |
| KnowledgeBaseService.KnowledgeBase.MoveSubtree | internal/store/postgres/article_store.go:82-131 | moves exactly when the guard matches, and then rebases live rows and carries buried ones |
| KnowledgeBaseService.KnowledgeBase.RetitleLatest | internal/service/article.go:336-354 | the latest body, none for an article without versions |
| KnowledgeBaseService.KnowledgeBase.WriteRevision | internal/service/article.go:306-325 | writes row, version and event together, or nothing on a version conflict |
| KnowledgeBaseService.KnowledgeBase.CreateArticle | internal/service/article.go:163-238 | the transaction does exactly what the specified call does, and a refusal after writes rolls back |
| KnowledgeBaseService.KnowledgeBase.UpdateArticle | internal/service/article.go:244-332 | the transaction does exactly what the specified call does |
| KnowledgeBaseService.KnowledgeBase.RestoreVersion | internal/service/article.go:632-681 | the transaction does exactly what the specified call does |
| KnowledgeBaseService.KnowledgeBase.Reindex | internal/service/article.go:684-730 | the transaction does exactly what the specified call does |
| KnowledgeBaseService.KnowledgeBase.DeleteArticle | internal/service/article.go:356-388 | the transaction does exactly what the specified call does |
| KnowledgeBaseService.KnowledgeBase.MoveArticle | internal/service/article.go:396-475 | the transaction does exactly what the specified call does |
| KnowledgeBaseService.KnowledgeBase.MoveIndex | internal/service/article.go:564-583 | rescopes, drops foreign vectors and queues the branch unless both spaces search with the same model |
| KnowledgeBaseService.KnowledgeBase.CreateSpace | internal/service/space.go:79-132 | the transaction does exactly what the specified call does |
| KnowledgeBaseService.KnowledgeBase.UpdateSpace | internal/service/space.go:144-245 | the transaction does exactly what the specified call does |
| KnowledgeBaseService.KnowledgeBase.DeleteSpace | internal/service/space.go:249-300 | the transaction does exactly what the specified call does |
| TreeView.IndexById | internal/model/article.go:135-157 | the index maps each id to its last node and every node starts without children |
| TreeView.BuildTree | internal/model/article.go:135-157 | the mutated links are the specified ones: roots and children filtered from the input in its order |
| TreeView.KidsKeepOrder | internal/model/article.go:132-157 | siblings stand in the order of the input |
| TreeView.LinkedOnce | internal/model/article.go:132-157 | no node is linked under two parents, nor under one and as a root |
| TreeView.TreeIsExact | internal/model/article.go:132-157 | the finished tree holds at level k exactly the nodes whose parent chain inside the input reaches the top after k parents; orphan branches are dropped |
| TreeView.LevelIsUnique | internal/model/article.go:132-157 | no node appears at two levels |
| TreeView.SpaceTreeIsWhole | internal/store/postgres/article_store.go:156-164 | over the live rows of a space but its home page nothing is dropped and the nesting level is the stored depth less one |
| TreeLocks.LockOrder | internal/service/article.go:521-535 | the locks of a move are its two spaces, each once, in increasing order |
| TreeLocks.NoWeaveBreaksForest | internal/service/article.go:390-475 | no interleaving of moves, deletes, inserts, rewrites, purges and aborts breaks the forest, though every move and delete walks the rows at one moment and changes them, by that walk, at a later one; it excludes inserts under a row of a branch between those two moments, which the source does not prevent and the next two rows make exact |
| TreeLocks.StragglerBreaksForest | internal/store/postgres/article_store.go:638-656 | an insert between walk and change of a move leaves a well-formed forest if and only if its parent is outside the branch, or the move keeps the branch in its space at its depth |
| TreeLocks.StragglerOutlivesBranch | internal/store/postgres/article_store.go:50-71 | an insert between walk and change of a delete leaves a well-formed forest if and only if its parent is outside the branch |
| TreeLocks.WritesUnderLock | internal/service/article.go:420-437 | from its last check to its last write a move holds the lock of the space the article is in and of the space the new parent is in, and a delete that of its article |
| TreeLocks.CheckHoldsAtWrite | internal/service/article.go:448-462 | the cycle and space checks made on the listing and the re-read parent still hold when the write starts; only a changed version or a deepened subtree can make its guard miss |
| TreeLocks.StaleWalkIsFresh | internal/store/postgres/article_store.go:82-131 | when a move changes the rows, its walks, depths and guard from before are those of the rows there are, so the change is the one a fresh walk would make; only the version is read again |
| TreeLocks.MovesAreSerialized | internal/service/article.go:390-395 | two moves between their last check and their last write share no space |
| TreeLocks.NoWaitCycle | internal/service/article.go:521-535 | the waits-for graph never has a cycle |
| TreeLocks.NeverStuck | internal/service/article.go:521-535 | while some transaction is unfinished, one of them can take its next step |
| TreeLocks.AdvanceMakesProgress | internal/service/article.go:396-475 | each statement brings its own transaction closer to the end and touches no other |
| TreeLaws.MoveWritesWhatWasAsked | internal/service/article.go:396-520 | in every interleaving the write of a move carries the branch of the article the transaction began with under the parent it began with, into that parent's space, else the one it named, else the article's own, unless the version is gone |
| TreeLaws.DeleteWritesWhatWasAsked | internal/service/article.go:356-388 | in every interleaving the write of a delete ends the live branch of the article the transaction began with, unless the version is gone |
| TreeLaws.MoveRunsAlone | internal/service/article.go:396-475 | a move with nobody in between ends after at most ten statements, holds no lock, and has written exactly when article and parent are live, the space is the parent's, the branch fits there and the version is the one asked for |
| TreeLaws.DeleteRunsAlone | internal/service/article.go:356-388 | a delete with nobody in between ends after at most five statements and has written exactly for a live article at the version asked for |
| ModelRegistry.TxnSurvives | internal/service/embedding_model.go:145-235 | what a transaction knows about a row it has locked survives the steps of the others |
| ModelRegistry.UpdateWriteKeepsInv | internal/store/postgres/embedding_model_store.go:192-227 | the write of an update, after its re-checks, keeps every reference good |
| ModelRegistry.DeleteKeepsInv | internal/service/embedding_model.go:311-348 | a delete, after its check under the lock, removes no model a space uses |
| ModelRegistry.SpaceWriteKeepsInv | internal/service/space.go:350-396 | the references a gated space transaction writes are good, and its locks kept them so |
| ModelRegistry.ReferencesAreGood | internal/service/space.go:348-396 | in every interleaving each model a space refers to is a row of the registry, of the domain of the space or of all, with the type of its role and its stamp set |
| ModelRegistry.UsedModelIsStable | internal/service/embedding_model.go:258-302 | a step leaves provider, reference, hosting flag, dimensions and stamp of a model some space uses, and never deletes it |
| ModelRegistry.UsedModelIsStableInRun | internal/service/embedding_model.go:128-139 | the same for every step of every run |
| ModelRegistry.CredentialsStayHome | internal/service/embedding_model.go:237-255 | in every run each registration is within the provider matrix, told field by field, an embedded model holds no key, and a key of an azure model was given for the address it is at |
| ModelLaws.StampsAreEarned | internal/service/embedding_model.go:350-390 | in every run a model carries a stamp only if it was seeded with it or a probe answered for it |
| ModelLaws.RegisterAdds | internal/service/embedding_model.go:99-112 | a model is registered exactly within the matrix, with a key exactly for a provider that needs one, and unstamped |
| ModelLaws.UpdateRewritesModel | internal/service/embedding_model.go:145-302 | an update with nobody in between rewrites exactly the one row with the fields it names, or nothing: not of another type, not outside the matrix, no azure key for another address, no identity of a used model, no connection of one without a probe; the stamp is kept, earned anew or lost accordingly |
| ModelLaws.DeleteUnusedOnly | internal/service/embedding_model.go:311-348 | a delete removes exactly a model of the domain that no space of it uses |
| ModelLaws.ValidateStamps | internal/service/embedding_model.go:350-390 | a validation stamps exactly a model of the domain whose probe succeeds |
| ModelLaws.SpaceTakesModels | internal/service/space.go:79-245 | a space takes exactly the references asked for, if each it did not have is none or a stamped model of its role that it can see, and otherwise nothing happens |
| NulEscape.ContainsNulEscape | internal/service/article.go:926-943 | reports exactly whether some NUL escape has an even number of backslashes before it |
| NulEscape.BackwardCountIsForwardLexing | internal/service/article.go:920-943 | for every byte sequence the backward count finds an escape exactly when a left-to-right lexer of JSON strings does |
| Outbox.Table.DeleteBatch | internal/store/postgres/outbox.go:84-108 | one statement removes at most a batch of acknowledged rows past retention, and all of them when it removes fewer |
| Outbox.Table.CleanupOutbox | internal/store/postgres/outbox.go:83-119 | terminates, returns the exact number removed, removes every acknowledged row past retention at its start unless cancelled and none past the acknowledged offset, and leaves the backlog as it was; it stops at the first batch that is short or after which the caller has given up, and reports itself cancelled only in the second case, after full batches only |
| Relay.Broker.PublishAll | internal/relay/publisher.go:28-51 | publishes in order and stops at the first failure, of which one more message may have arrived |
| Relay.Broker.Forward | internal/relay/forwarder.go:228-239 | a message without a routing key is undeliverable and never published; any other goes to the reindex exchange |
| Relay.Broker.Handle | internal/relay/forwarder.go:199-226 | however the tries go, the copies at the broker are one for each failed try that arrived and one for the success, all to the row's one destination; a row is given back only after all retries failed, one without a key after a single try |
| Relay.HandlingIsRun | internal/relay/forwarder.go:160-239 | every outcome of the handler is a run of the relay's steps with the same copies and the same verdict, so what holds of every run holds of the handler |
| Relay.DeliveredAtLeastOnce | internal/relay/forwarder.go:160-239 | in every run each committed row at or below the acknowledged offset has reached the reindex exchange, or the dead-letter exchange when it carries no key |
| Relay.NothingMisrouted | internal/relay/forwarder.go:218-239 | only committed rows are published, and to the dead-letter exchange exactly those without a key |
| Relay.FirstDeliveriesInOrder | internal/relay/forwarder.go:160-164 | first deliveries follow the order of (transaction, offset), whatever is retried or repeated after a crash |
| Relay.UnackedStays | internal/store/postgres/outbox.go:80-82 | no cleanup takes a row that is not acknowledged |
| Relay.NextRowGetsThrough | internal/relay/forwarder.go:212-216 | from an idle relay the next row can always be published and acknowledged |
| Relay.CommitStores | internal/store/postgres/outbox.go:60-78 | a commit stores its rows in their order, in the table and in what is remembered, and nothing else |
| Relay.TriesBeforeGivingBack | internal/relay/forwarder.go:28-38 | a row with a key is given back after exactly six failed tries, one without after one |
| Relay.SomeRowIsNext | internal/relay/forwarder.go:160-164 | while a settled row is pending some row is next, and none behind it |
| Relay.EveryRowGetsThrough | internal/relay/forwarder.go:160-216 | from every state of the invariant with an idle relay each settled row is delivered and acknowledged, once the broker answers, within three steps for every row pending |
| Indexing.KeyNamesArticle | internal/event/topology.go:41-45 | the routing key of a row reads as the number of its article |
| Indexing.CommitAddsRows | internal/store/postgres/outbox.go:31-78 | the rows of a committing transaction displace none, each under the key of its article, and every event it issued or that was there before is carried by a row |
| Indexing.NoArticleIsForgotten | internal/service/article.go:561-741 | in every run of calls, refusals, broker failures, crashes and cleanups the latest version of each live article has an event under the search model its space has now, which has reached the reindex exchange or still stands in the outbox ahead of the relay |
| Rerank.DistinctAnswersCover | infra/embedding/transport.go:33-58 | n answers with distinct indices below n answer every input |
| Rerank.ByIndex | infra/embedding/transport.go:35-58 | succeeds exactly when the indices are a permutation, puts item i in slot i, and names the offending input otherwise |
| Rerank.OrderOfAnswersIsLost | infra/embedding/transport.go:33-34 | two listings of the same answers in any order give the same result |
| Rerank.ScoresInOrder | infra/embedding/rerank.go:60-73 | the score of document i stands at i, for exactly the complete answers |
| Rerank.SortKeepsHits | internal/service/suggest.go:220-234 | the order is descending and a permutation of the hits |
| Rerank.SortIsStable | internal/service/suggest.go:220-234 | hits of equal score keep their order |
| Rerank.StableSortIsUnique | internal/service/suggest.go:220-234 | a stable descending order of the hits is unique, so any stable sort gives it |
| Rerank.OrderByScore | internal/service/suggest.go:221-234 | scores every hit and leaves them in that order |
| Rerank.LeadsAreDistinct | internal/service/suggest.go:236-255 | no article is kept twice, and those kept stand in the order of the hits |
| Rerank.LeadIsBest | internal/service/suggest.go:236-255 | the hit kept for an article is the best of its hits |
| Rerank.EveryArticleLeads | internal/service/suggest.go:236-255 | every article of the pool has a leading hit |
| Rerank.LeadingHits | internal/service/suggest.go:236-255 | keeps the first hit of each article, in order, up to n |
| Rerank.PickReranker | internal/service/suggest.go:188-209 | picks the one model of the spaces that rerank, none when no space does, and refuses when they disagree |
| PlainText.CollapseBlankLines | pkg/bodyconv/plain.go:86-92 | the rewriting loop terminates without three newlines in a row left |
| PlainText.PlainTextAccounts | pkg/bodyconv/plain.go:7-84 | for every document the non-whitespace characters kept and those in dropped places add up to all of them, and when none is dropped they are the same in the same order |
| PlainText.LosslessExactly | pkg/bodyconv/plain.go:23-84 | the plain text has all the letters exactly when no letter stands in a dropped place: text of a container, an image as list item or in code, anything below a leaf |
| PlainText.PlainTextIsTidy | pkg/bodyconv/plain.go:7-9 | no three newlines in a row and no whitespace at either end |
| PlainText.EditorDocumentsLoseNothing | pkg/bodyconv/plain.go:7-84 | a document as the editor makes them loses nothing on the way to full-text search |
| PlainLayout.WordsStayApart | pkg/bodyconv/plain.go:5-62 | for every document the words of the plain text are exactly the words of its texts in order: none run together, none torn |
| PlainLayout.BlocksStandApart | pkg/bodyconv/plain.go:5-62 | a reader who takes lines standing together for one text gets the texts of the document back line by line: blocks are apart by blank lines and items of a list by line breaks, when no text inside a list leaves a line of its own empty |
| PlainLayout.InlinePieceByPiece | pkg/bodyconv/plain.go:64-84 | inline content is its pieces in order: a run as it is, a hard break as a newline, an image as its description, anything else as its text and content |
| PlainLayout.TwoParagraphs | pkg/bodyconv/plain.go:11-21 | the paragraphs "foo" and "bar" are the text "foo", a blank line, "bar" |
| CodeMarkup.RunsThatOccur | pkg/bodyconv/markdown.go:164-181 | n backticks in a row occur in a text exactly when n is at most its longest run |
| CodeMarkup.CodeFence | pkg/bodyconv/markdown.go:166-181 | the loop gives a fence of at least three backticks, one more than the longest run, that does not occur in the code |
| CodeMarkup.MdCodeBlock | pkg/bodyconv/markdown.go:134-162 | writes fence, language when it can stand there, code ended by a newline, fence |
| CodeMarkup.CodeBlockComesBack | pkg/bodyconv/markdown.go:134-162 | for every code, language and following block, a reader after section 4.5 of CommonMark 0.31.2, which trims and decodes the info string, gets back exactly the code, ended by a newline, and goes on after the fence; it gets back the language if and only if it has no backtick and no line ending, no blank at either end, and no escape or reference in it |
| CodeMarkup.EscapedLanguageIsLost | pkg/bodyconv/markdown.go:138-150 | a code block in the language "c\#" is read back as one in "c#", with its code |
| CodeMarkup.CodeSpan | pkg/bodyconv/markdown.go:347-360 | the delimiter-growing loop terminates with one backtick more than the longest run, padded when the text touches it or is space-edged |
| CodeMarkup.SpanComesBackExactly | pkg/bodyconv/markdown.go:344-360 | a reader after section 6.1 gets back exactly the text and goes on after the span if and only if the text is not empty, has no line ending, and is no space-edged whitespace with something other than spaces in it |
| CodeMarkup.EdgedTabIsLost | pkg/bodyconv/markdown.go:353-359 | the code run of a space, a tab and a space is read back as the tab alone |
| Escapes.EscapeLineStarts | pkg/bodyconv/markdown.go:391-402 | the loop escapes each line on its own |
| Escapes.EscapeTextComesBack | pkg/bodyconv/markdown.go:362-375 | undoing escapes after section 2.4 gives the text back, and every special character in it is escaped |
| Escapes.LineStartsReadSame | pkg/bodyconv/markdown.go:387-417 | for every text, escaping line starts changes nothing a reader undoing escapes sees |
| Escapes.LineStartsEscapedOnce | pkg/bodyconv/markdown.go:377-417 | no line matches any of the five patterns afterwards, so escaping again changes nothing |
| Escapes.OrdinaryTextStaysOrdinary | pkg/bodyconv/markdown.go:362-417 | escaped text reads back as itself, keeps every inline delimiter escaped, and no line of it starts a thematic break, heading, underline, fence, HTML block, quote or list item by the definitions of CommonMark |
| References.OrdinaryTextReadsBack | pkg/bodyconv/markdown.go:362-417 | escaped text reads back as itself also for a reader that decodes character references, whatever their names |
| References.ReadShrinks | pkg/bodyconv/markdown.go:134-144 | decoding never lengthens a text, and leaves it as it is exactly when no escape and no reference starts in it: a text the converter writes as it is, a language or a bare destination, comes back only then |
| Containers.MdItem | pkg/bodyconv/markdown.go:116-132 | marks the first line and indents the others to the marker's width |
| Containers.MdQuote | pkg/bodyconv/markdown.go:183-198 | marks every line |
| Containers.QuoteComesBack | pkg/bodyconv/markdown.go:183-198 | every line carries the marker and taking the markers off gives back exactly the body |
| Containers.ItemComesBackExactly | pkg/bodyconv/markdown.go:113-132 | a reader after section 5.2, which finds the marker and works out from the first line how wide the item is, wherever the item stands and with tabs at their columns, gets back the body, but for spaces at the end of its first line, and leaves no line out if and only if the first line makes no thematic break behind its marker, is not indented by one to three columns, and is not the first of two blank lines |
| Containers.SecondParagraphFallsOut | pkg/bodyconv/markdown.go:120-128 | behind a first line indented by one to three columns, what follows a blank line is no longer part of the item |
| Containers.FooFallsApart | pkg/bodyconv/markdown.go:120-128 | of an item of the paragraphs "  foo" and "bar" the second is left outside |
| Containers.RuleSwallowsItem | pkg/bodyconv/markdown.go:64-65 | a bullet item that starts with a horizontal rule reads as a thematic break, not as an item |
| Containers.LongNumberIsNoMarker | pkg/bodyconv/markdown.go:10-11 | a marker of ten digits or more starts no item |
| Markdown.MarkerIsRead | pkg/bodyconv/markdown.go:47-59 | a marker of a list is one a reader knows exactly while start and index together stay within nine digits |
| Links.DestinationComesBackExactly | pkg/bodyconv/markdown.go:211-227 | a reader after section 6.3, which skips space and decodes escapes and references, gets the destination back and goes on where it ends if and only if: an empty one stands right before the closing parenthesis; in brackets, it has no line ending, tab or reference; bare, it has no control character, escape or reference, and no backslash at its end that escapes what comes next |
| Links.TrailingBackslashRunsOn | pkg/bodyconv/markdown.go:213-219 | the bare destination of one backslash takes the closing parenthesis along, so there is no link |
| Links.SpelledReferenceIsDecoded | pkg/bodyconv/markdown.go:221-231 | a destination or title that spells the reference of an ampersand is read as an ampersand |
| Links.TitleComesBackExactly | pkg/bodyconv/markdown.go:204-206 | a quoted title in inline content always ends at its closing quote, and reads as it was if and only if it has no blank line and spells no reference |
| Links.BlankLineEndsTitle | pkg/bodyconv/markdown.go:204-206 | a title with an empty line in it is read as no title |
| Links.TargetComesBackExactly | pkg/bodyconv/markdown.go:200-219 | a reader of the whole target gets destination and title back and goes on behind its parenthesis if and only if each comes back and an empty destination has no title |
| Links.TitleBecomesSource | pkg/bodyconv/markdown.go:204-206 | the title of an image without a source, a word without escapes, is read as the source, quotes and all |
| Links.ImageComesBackExactly | pkg/bodyconv/markdown.go:200-209 | a reader after section 6.4 gets an image back, description, source and title, if and only if it can take the target; whatever image it gets, it has the description |
| Headings.HeadingComesBackExactly | pkg/bodyconv/markdown.go:38-46 | a reader after section 4.2 gets level and inline content of a heading back, and goes on at the end of its line, if and only if the content has no line ending, no blank at either end, and no hashes at its end that start it or stand behind a blank |
| Headings.ClosingHashIsLost | pkg/bodyconv/markdown.go:38-46 | a heading such as "C #" is read as one of "C" |
| Paragraphs.ParagraphComesBackExactly | pkg/bodyconv/markdown.go:36-37 | a reader after section 4.8, which stops at a blank line or one that starts a block and takes the indentation off the others, gets exactly the text of a paragraph if and only if it has no blank at either end and each later line is neither blank nor indented nor starts a block |
| Paragraphs.OrdinaryParagraphComesBackExactly | pkg/bodyconv/markdown.go:362-417 | ordinary text as a paragraph: with its line starts escaped no line starts a block, and the paragraph comes back exactly, and decodes to the text, if and only if the text has no blank at either end and no later line of it is blank or indented |
| Paragraphs.BlockImageComesBackExactly | pkg/bodyconv/markdown.go:66-67 | an image that stands as a block comes back, description, source and title, as a paragraph of its own if and only if a reader can take its target and no later line of it is blank, indented or starts a block |
| Paragraphs.ListInTitleCuts | pkg/bodyconv/markdown.go:66-67 | an image as a block whose title has a second line "- b" does not come back |
| Markdown.BangMakesImage | pkg/bodyconv/markdown.go:292-342 | a plain run that ends in an exclamation mark and a linked run behind it are written exactly as the text and an image are |
| Markdown.MergeTextRuns | pkg/bodyconv/markdown.go:271-288 | the loop joins each run to the one before when the marks are the same |
| Markdown.MergedRuns | pkg/bodyconv/markdown.go:268-288 | no character, mark of a character or other node changes, and no two runs with the same marks stand next to each other |
| Markdown.CoreSplits | pkg/bodyconv/markdown.go:301-314 | what goes between emphasis delimiters touches no space or tab, and the whitespace around it is kept outside |
| MarkdownKeeps.MdTextKeeps | pkg/bodyconv/markdown.go:293-342 | delimiters, escapes, code spans and links take nothing out of a run |
| MarkdownKeeps.InlineKeeps | pkg/bodyconv/markdown.go:233-266 | every letter of inline content is in its rendering, in order, for either form of break |
| MarkdownKeeps.BlockKeeps | pkg/bodyconv/markdown.go:34-86 | every letter of a block is in its rendering, in order |
| MarkdownKeeps.MarkdownLosesNothing | pkg/bodyconv/markdown.go:13-86 | every letter of the texts and image descriptions of an editor document is in its markdown, in document order |
| MarkdownReads.ParagraphReadsBack | pkg/bodyconv/markdown.go:34-37 | the block of a paragraph of plain runs, or of a plain run by itself, starts no other block, decodes to the text, and is read as one paragraph if and only if the text has no blank at its ends and no later line that is blank or indented |
| MarkdownReads.HeadingReadsBack | pkg/bodyconv/markdown.go:38-99 | the block of a heading of plain runs is read with its level, brought between one and six, and its text if and only if the text is on one line, has no blank at its ends and no closing hashes |
| MarkdownReads.CodeReadsBack | pkg/bodyconv/markdown.go:60-61 | the block of a code block is read with its code, and with its language if and only if a fence can carry it |
| MarkdownReads.QuoteReadsBack | pkg/bodyconv/markdown.go:62-63 | the block of a quote is read as the blocks it holds |
| MarkdownReads.ImageReadsBack | pkg/bodyconv/markdown.go:66-67 | the block of an image is read with its attributes if and only if its target fits and no later line ends the paragraph |
| MarkdownReads.RuleReadsBack | pkg/bodyconv/markdown.go:64-65 | a horizontal rule is read as a thematic break |
| MarkdownReads.ListReadsBack | pkg/bodyconv/markdown.go:47-59 | a list is read item by item, each with the number start and index give it and with its own blocks, when every item fits |
| MarkdownReads.StyledRun | pkg/bodyconv/markdown.go:290-342 | a styled run is its blanks, its delimiters, strike outside italic outside bold, and its text inside, as code or escaped; without a style there are none, nor around blanks alone |
| MarkdownReads.LinkedRun | pkg/bodyconv/markdown.go:337-339 | a linked run is its text in brackets with its target behind |
| MarkdownReads.BreakBetween | pkg/bodyconv/markdown.go:233-266 | a hard break between two texts is a backslash and a newline in a paragraph, a space in a heading |
| MarkdownReads.TrailingBreakIsNothing | pkg/bodyconv/markdown.go:241-244 | a hard break with nothing after it is written as nothing |
| MarkdownReads.InlinePieceByPiece | pkg/bodyconv/markdown.go:246-265 | inline content whose runs do not go together is written piece by piece; an unknown node as its own text, escaped, and its content |
| MarkdownDocument.BlocksStandApart | pkg/bodyconv/markdown.go:20-32 | the blocks of a document stand one behind the other, apart by exactly one blank line, the empty ones left out |
| MarkdownDocument.DocumentReadsBack | pkg/bodyconv/markdown.go:13-86 | a document of paragraphs, headings, code blocks, images, rules and nodes of unknown kinds that fit is read back as exactly these blocks in order, with their texts, levels, languages and targets |

## Left out

- The three renderings of a body are one value in `Kb`; tags, names, teams, notes, attachments, chunks, the state of a space and the published version are not in its state.
- The language of a space is its base language; parsing BCP 47 tags is left out.
- `Kb` takes the verdict of the model gate as a parameter; what the gate protects is proved in `ModelRegistry`.
- The pending target model of a space is left out: nothing in the service writes it.
- Vectors stand at the granularity of article and model, not of chunk.
- TreeLocks.NoWeaveBreaksForest: excludes inserts that fall between the walk and the change of a move or delete into its branch; the source does not prevent them, and TreeLocks.StragglerBreaksForest says exactly which do harm.
- Row locks other than those on the space in `TreeLocks` and on model and space in `ModelRegistry`.
- KbHistory.PipelineEffects: what the pipeline does is an assumption about another program, stated here only as far as these tables go.
- ModelRegistry.ReferencesAreGood: the stamp says that a probe once succeeded; a validation stamps without re-reading, so it does not say that the present registration was probed.
- An event carries a version, a space and, as a history variable, a model; its time and schema are left out.
- Relay.EveryRowGetsThrough: that the relay gets there depends on the broker; fairness, the election of the leader, AMQP and watermill are left out.
- Outbox.Table.CleanupOutbox: a statement that fails with an error is left out; cancellation between batches is in.
- URLs of endpoints are opaque values; encryption of keys and the HTTP clients are left out.
- Rerank.OrderByScore: the sorting algorithm of the Go library is replaced by the stable order, which is proved unique.
- JSON parsing, the spelling aliases of node types, the sorting of marks and the list of unknown types are left out: a tree comes with its types normalized and its marks sorted.
- Markdown.MergedRuns: marks are their types and link targets; other attributes, and the difference between absent and empty marks, are left out.
- Escapes.OrdinaryTextStaysOrdinary: lines are what newlines separate, as in the source, so a lone carriage return starts no line; an indent of four spaces or a tab (indented code) and two trailing spaces (a hard break) are not escaped by the source and not claimed.
- Containers.ItemComesBackExactly: lines are what newlines separate; a carriage return inside the body is not treated as a line ending. Lazy continuation lines are not read as part of an item; no line the writer puts into a body that fits needs it.
- Containers.QuoteComesBack: the same.
- References.ReadShrinks: the list of named references is a parameter, not the list of HTML.
- CodeMarkup.SpanComesBackExactly: what stands before the span is left out; runs next to each other that differ only by underline join.
- Links.TitleComesBackExactly: the title as it stands in the markdown; that a paragraph takes the indentation off its later lines is in Paragraphs.ParagraphComesBackExactly.
- Paragraphs.OrdinaryParagraphComesBackExactly: two spaces before a line ending make a hard break, which the source does not escape; text with a carriage return is left out, for the source escapes line starts behind newlines only.
- Paragraphs.BlockImageComesBackExactly: tabs are counted from column 0, and HTML blocks of the seventh kind, which cannot interrupt a paragraph, are left out.
- Markdown.BangMakesImage: what else a piece of inline content does to its neighbours is left out, above all the flanking rules that decide whether emphasis delimiters open and close.
- Headings.HeadingComesBackExactly: the inline content as it stands in the markdown, marks and all.
- MarkdownDocument.DocumentReadsBack: documents without lists and quotes, which MarkdownReads.ListReadsBack and MarkdownReads.QuoteReadsBack read one by one; adjacent lists merge. Paragraphs and headings are of runs without marks that have a form in markdown.
- MarkdownReads.ListReadsBack: one way only; exactly when a single item comes back is in Containers.ItemComesBackExactly.
- PlainLayout.BlocksStandApart: a text inside a list item that leaves a line empty, by two hard breaks in a row, is left out, for its item is then no longer one text.
- MarkdownKeeps.MarkdownLosesNothing: says that the letters are there in order, not where the markup around them stands.
- Listings, paging, full-text and vector ranking, access checks, configuration and transport are left out.
