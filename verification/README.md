# The migration connectors: what they promise, proved

A Dafny model of the connector layer of a migration engine, with proofs of what the code
and its comments promise again and again: no duplicate, no lost item, no wrong removal, and
no partial answer passed off as a whole one. `dafny verify dfyconfig.toml` checks
everything.

## How it is built

**The mail server** (`ImapServer`) is a value: mailboxes with UIDVALIDITY, UIDNEXT and
messages by UID, and beside it the history the theorems speak of: which message every
handle (mailbox, UIDVALIDITY, UID) was ever given to, who took it away, and what this
connection flagged. An oracle says for every call what other clients did before it (append,
flag, expunge, recreate) and what becomes of it: it works, fails before or after taking
effect, is refused, answers falsely, is done by half, or finds the connection lost. Every
theorem is for all oracles. The target keeps one connection: a mailbox that is open on it is
not selected again, and what SELECT told stays the answer, until the connection is lost and
made anew or another mailbox is opened; the source makes a connection per operation.

**Code that changes state** is a class or a method with the loops of the source
(`MailTarget`, `MailSource`, `DriveSource`, `KnockLimit`, `TokenProvider`,
`GraphMailFolders`, `ICalMerge` and others). Each method is proved equal to a function of the
world it starts in; the theorems are about those functions, because lemmas cannot call
methods. What each function answers is also proved from outside, in terms of the server, the
pages or the tree alone and without the function's own parts: `RemovalExactly`,
`UpsertWrites`, `ListingAnswers`, `PollExactly`, `ListsEveryShare`, `RowsExactly` and others.

**Interleavings** of token requests (`DriveTransport`) are runs of a state machine whose
steps are the synchronous stretches of the source between two awaits.

**Remote trees** (`DriveTree`, `PermissionScan`) are served in pages; **change logs**
(`GraphMailDelta`) report each id at most once per poll.

## What the code does not do

Where a promise fails, the model keeps the code as it is, states a concrete input, and
proves when the promise holds.

- An adopted message's UIDVALIDITY is read by the call after the scan that found its UID.
  If the connection is lost between the two, and the mailbox recreated, the pair names
  another message, and a removal deletes it (`AdoptedHandleExactly`, `AdoptionRace`).
- The writer looks for `Message-ID:` anywhere in the bytes, so an earlier header such as
  `X-Message-ID:` gives it another id than the server reports. Such a message is written
  again by every retry, or taken for the one that has the other id and not written at all
  (`RetryDoublesExactly`, `UnfaithfulPilesUp`, `UnfaithfulIsTakenForAnother`).
- White space between brackets is taken for an id, and its key is empty, so that all
  messages with such an id count as one (`ExtractNormalises`, `BlankIdIsExtracted`).
- Fetching a listed message does not check UIDVALIDITY, so it brings another message when
  the source mailbox has been recreated since the listing (`FetchExactly`), and a pass then
  loses the listed one and reports success (`DividedPassLosesTheListed`).
- A message that arrives with the very UID the cursor holds does not move it, so it is listed
  again by every pass until a later one arrives (`ListingAnswers`).
- A message that loses its Message-ID between two delta polls stays in the folded listing
  (`DeltaRefinesListing`).
- A OneDrive poll whose last page has no deltaLink is answered, and its cursor makes the
  next poll ask for the empty address (`LinkForgotten`).
- A server that goes on refusing with a Retry-After of zero, or again and again with one
  below zero, never exhausts the retry budget, and no other one (`GivesUpExactly`,
  `SecondThenNothingNeverEnds`).
- In a calendar a colon inside parameters, quoted or not, ends the name
  (`ValueReadExactly`); empty values in front of a repeated property are dropped
  (`HeldExactly`); a value with parameters behind exactly one without, dropped ones aside,
  throws (`Reads`); and the recurrence rules of a later event end up in the first event too
  (`EventKeepsExactly`, `TwoEventsAlter`).
- The vCard decoder reads an escaped backslash before an `n` as a line break
  (`DecodesExactly`) and drops white space after a fold (`UnfoldsExactly`); the category
  reader also splits at escaped commas and trims (`CategoriesReadExactly`).
- `normalizePath` is not idempotent with some options no caller passes
  (`IdempotentExactly`).

## Model

| member | source | states |
|---|---|---|
| `MailTarget.ImapFlowDavMailTarget.FindByNaturalKey` | packages/connectors/src/imapflow-dav-target.ts:259-316 | The scan with its loop answers and leaves the server exactly as the function `Find` says, for every failure the server can make of either call. |
| `HandleSafety.FindAnswers` | packages/connectors/src/imapflow-dav-target.ts:259-316 | A completed lookup is right both ways: a UID it answers is the lowest whose message has that normalised id, and "absent" means no message of the mailbox has it. |
| `MailTarget.ImapFlowDavMailTarget.UpsertEmail` | packages/connectors/src/imapflow-dav-target.ts:322-393 | The writing method, flags loop and re-scan included, makes exactly the calls and has exactly the outcomes of `Upsert`; what that writes, and with which flags, is `UpsertWrites`. |
| `KeywordsCarried.UpsertWrites` | packages/connectors/src/imapflow-dav-target.ts:322-393 | Everything an upsert does to the server, with UIDPLUS or without and whatever fails: at most one message is added, those bytes, with flags that stand for exactly the keywords given, or for `Seen` if none was; one if the answer says it was created, none if it says it was there. Everything else that changes is the other clients' doing. |
| `MailTarget.UpsertKeeps` | packages/connectors/src/imapflow-dav-target.ts:322-393 | An upsert removes and flags nothing, whatever fails on the way. |
| `RetrySafety.UpsertBounded` | packages/connectors/src/imapflow-dav-target.ts:322-393 | One attempt, failing at any call or after the APPEND took effect, leaves a mailbox with no more copies of an id than it had, or one, as long as no other client delivers that id meanwhile and the scan of the bytes finds the id the server reports. |
| `RetrySafety.RetrySafe` | packages/connectors/src/imapflow-dav-target.ts:322-393 | Any number of attempts at any messages, each failing anywhere: the copies of a normalised Message-ID never exceed max(copies before, 1), as long as no other client adds one and the scan finds that id in the messages that have it. |
| `RetrySafety.RetryDoublesExactly` | packages/connectors/src/imap-conventions.ts:194-201 | For every message: two attempts at it can leave it twice in an empty mailbox that nobody else touches exactly if the scan finds an id in it that the server does not report. |
| `RetrySafety.UnfaithfulPilesUp` | packages/connectors/src/imapflow-dav-target.ts:334-386 | Such a message is appended once more by every attempt, although every call works. |
| `RetrySafety.UnfaithfulIsTakenForAnother` | packages/connectors/src/imapflow-dav-target.ts:334-344 | And where the id the scan finds is on the target, it is answered as already there and not written. |
| `RetrySafety.AnsweredWasDelivered` | packages/connectors/src/imapflow-dav-target.ts:322-393 | With other clients doing anything at any call: an answered upsert has the message or one with the id found in it to show, under the answered UID, that was there before or has come since, and that only another client can have taken by now, or lost with its mailbox. |
| `RetrySafety.AnsweredIsThere` | packages/connectors/src/imapflow-dav-target.ts:322-393 | What an answered upsert leaves: the message answered is there, or another client took it or recreated its mailbox; where the scan finds the right id, nobody else delivers it and there was at most one copy, it is the only one; with nobody else at work it is there under the version answered, and an adopted message changed nothing on the server. |
| `HandleSafety.CreatedHandleIsGood` | packages/connectors/src/imapflow-dav-target.ts:346-386 | The version of a created message is read before the APPEND, with other clients at work in between: either UID and version name the message or one with its id, or the version check will refuse the pair for ever. |
| `HandleSafety.AdoptedHandleExactly` | packages/connectors/src/imapflow-dav-target.ts:334-344 | For an adopted message the version is read by the call after the scan. It is that of the mailbox scanned, and the pair names the message found, exactly unless the connection was lost between the two and the mailbox recreated in the same gap; on a connection that lasts the open mailbox is not selected again (lines 286-288). |
| `HandleSafety.AdoptionRace` | packages/connectors/src/imapflow-dav-target.ts:334-344 | A concrete run in which both happen, and a later removal with the recorded pair deletes another message. |
| `MailTarget.ImapFlowDavMailTarget.Remove` | packages/connectors/src/imapflow-dav-target.ts:561-665 | The removing method, with its refusals, the bin, the UIDPLUS test and the read-back, is `RemoveItem`; what that does with a message that is there is `RemovalExactly` and `BinnedExactly`. |
| `RemovalKind.BinnedExactly` | packages/connectors/src/imapflow-dav-target.ts:524-663 | For every oracle: a removal that answers "binned" found, when the mailboxes were listed, a bin other than the mailbox itself, and one that answers "deleted" found none and had UIDPLUS. The bin is the first mailbox listed of whose attributes the first that names a role names the trash. |
| `RemovalKind.RemovalExactly` | packages/connectors/src/imapflow-dav-target.ts:561-665 | With every call working and nobody else at work, the whole answer and the whole effect: a bad id or version is refused; a message not there is nothing to remove; one that is there is afterwards in the bin, the same bytes and flags, if the account has a bin elsewhere; without one it is expunged with UIDPLUS, and without UIDPLUS refused. Nothing else changes in any mailbox. |
| `HandleSafety.RemovalTouchesOnlyItsUid` | packages/connectors/src/imapflow-dav-target.ts:561-684 | Whatever happens before, during and between its calls, lost connections and recreations included, a removal touches at most one message: the one with the given UID under the version it checked, which is the expected one if one was given, and none if the mailbox had been recreated before. An answer that there was nothing to remove touched nothing; any answer but a refusal means the UID is gone; it answers "deleted" only with UIDPLUS, so the bare EXPUNGE is never reached. |
| `HandleSafety.BareExpungeTakesEverythingFlagged` | packages/connectors/src/imapflow-dav-target.ts:20-31 | Why that matters: the fallback inside `messageDelete` takes any message that anyone flagged, not only the one asked for. |
| `HandleSafety.RunKeeps` | packages/connectors/src/imapflow-dav-target.ts:322-684 | Over any run of lookups, writes, index reads, removals with or without an expected version and lost connections, with other clients at work between any two calls, the UID rules hold and no version or UID ever comes back. |
| `HandleSafety.HandleSafety` | packages/connectors/src/imapflow-dav-target.ts:322-684 | Handle safety over whole runs: take a handle from an upsert, let anything happen, remove with it while anything happens. At most that very message, the one written or one with its id, is touched, and nothing if its mailbox has been renumbered; every other message, also one somebody flagged `\Deleted`, is still there, or was taken by somebody else or renumbered; unless the removal is refused, the message is gone. The one exception is the adopted pair that `AdoptedHandleExactly` singles out. |
| `Reindex.EntriesOfExactly` | packages/connectors/src/imapflow-dav-target.ts:472-509 | One mailbox's index fails exactly when some message has no Message-ID, and otherwise lists each message once, with its key, UID and mailbox. |
| `MailTarget.ImapFlowDavMailTarget.ListAllEntries` | packages/connectors/src/imapflow-dav-target.ts:434-469 | The reindex loop over mailboxes is `ListEntries`: one mailbox that cannot be read ends it. |
| `Reindex.ReindexIsFaithful` | packages/connectors/src/imapflow-dav-target.ts:434-509 | A completed reindex is one part per enumerated mailbox, one after another and nothing else; each part indexes exactly the messages that mailbox held when it was read, each once; no message occurs twice in the whole answer; and without a given mailbox the parts are those of all mailboxes of the server. |
| `Reindex.Enumerated` | packages/connectors/src/imapflow-dav-target.ts:441-455 | The mailboxes enumerated are all the server has, each once, or the one asked for. |
| `Reindex.IndexedIsFound` | packages/connectors/src/imapflow-dav-target.ts:259-509 | Looking up the key of any yielded entry finds a message with that key, and the same UID when the key is unique in its mailbox. |
| `ImapServer.StepsInv` | packages/connectors/src/imapflow-dav-target.ts:561-598 | The rules the version check relies on (section 2.3.1.1 of RFC 3501): over any steps of other clients UIDs ascend, are never reused under one UIDVALIDITY, and a recreated mailbox gets a UIDVALIDITY never used before. |
| `ImapServer.ValidityKept` | packages/connectors/src/imapflow-dav-target.ts:584-598 | A mailbox keeps its UIDVALIDITY over steps of other clients exactly when none of them recreates it. |
| `MailSource.ImapFlowSource.ListSinceInternal` | packages/connectors/src/imapflow-source.ts:249-333 | The listing loop, with its `continue`, its counter and its running maximum, answers what `ListSince` says; what that is, told from the mailbox, is `ListingAnswers`. |
| `ListedItems.ListingAnswers` | packages/connectors/src/imapflow-source.ts:255-329 | What a completed listing answers, told from the mailbox: every message not below the cursor and no other, once each, in UID order; each item with folder and UID, the ENVELOPE id verbatim if it is in brackets and bracketed if not, the empty string exactly without one, and the keywords of its flags; `unkeyable` is the number of items without an id; and the cursor has the UIDVALIDITY and a UID that moves exactly when some UID past it was listed. |
| `MailSource.ImapFlowSource.FetchRepeatedly` | packages/connectors/src/imapflow-source.ts:366-371 | The three attempts at one message are the recursive `FetchTries`. |
| `MailSource.ImapFlowSource.FetchInternal` | packages/connectors/src/imapflow-source.ts:361-387 | A fetch selects the folder on a connection of its own and then goes by UID: it is `Fetch`. |
| `MailSource.FetchedExactly` | packages/connectors/src/imapflow-source.ts:361-387 | A fetch brings bytes exactly if one of three requests in a row for that UID brings them, every one before it answering that there is nothing. |
| `IncrementalListing.MessageIsListed` | packages/connectors/src/imapflow-source.ts:294-318 | Every fetched message that the cursor does not exclude becomes an item. |
| `IncrementalListing.MaxUidNextBounds` | packages/connectors/src/imapflow-source.ts:284-327 | The next cursor is no lower than where the listing started or than any UID listed, and is either that start or one past a UID listed, never past a skipped one. |
| `IncrementalListing.PassCompletes` | packages/connectors/src/imapflow-source.ts:261-329 | One pass: every message present at its fetch is listed by it or was listed before under this UIDVALIDITY; at most one message is listed again; the cursor never passes UIDNEXT and never goes down under one UIDVALIDITY. |
| `IncrementalListing.PassLosesNothing` | packages/connectors/src/imapflow-source.ts:249-333 | The same for a pass with other clients at work and failures anywhere; a failed pass changes neither cursor nor what has been seen. |
| `IncrementalListing.RunLosesNothing` | packages/connectors/src/imapflow-source.ts:249-333 | The same for any number of passes from an empty cursor: incremental listing loses nothing. |
| `MailConventions.CursorRoundTrip` | packages/connectors/src/imap-conventions.ts:76-94 | A cursor reads back as the UIDVALIDITY and UID that were written. |
| `MailConventions.SourceRefRoundTrip` | packages/connectors/src/imap-conventions.ts:210-214 | The UID in a source reference comes back whatever the folder path looks like, colons included. |
| `MailConventions.MapImapFlagsToKeywords` | packages/connectors/src/imap-conventions.ts:104-114 | The flag loop is the map over the flags, case ignored. |
| `MailConventions.KeywordsExactly` | packages/connectors/src/imap-conventions.ts:104-114 | Keyword by keyword: those of the flags that are `\Seen`, `\Flagged`, `\Draft` or `\Answered` in any case, in their order, and no others. |
| `MailConventions.TrashExactly` | packages/connectors/src/imap-conventions.ts:138-149 | A mailbox is a bin exactly if the first of its attributes that names a role is `\Trash` or `\Deleted`. |
| `MailConventions.FlagRoundTrip` | packages/connectors/src/imap-conventions.ts:104-126 | Keywords written as flags and read again are the same keywords in the same order. |
| `MailConventions.ExtractNormalises` | packages/connectors/src/imap-conventions.ts:194-201 | An id extracted from the bytes normalises as the header value does; none is extracted exactly when the trimmed value is brackets only; and the ids that normalise to the empty key are those of white space only. |
| `MailConventions.BlankIdIsExtracted` | packages/connectors/src/imap-conventions.ts:194-201 | A space between brackets is such an id. |
| `MailConventions.EnvelopeNormalises` | packages/connectors/src/imap-conventions.ts:171-178 | The bracketed form the listing gives an envelope id normalises as the id itself: the two conventions name one key. |
| `MailConventions.NormaliseIdempotent` | packages/connectors/src/imapflow-dav-target.ts:755-757 | Normalising a key twice changes nothing more. |
| `MailConventions.OwnKeyExactly` | packages/connectors/src/imapflow-dav-target.ts:755-757 | A text is its own key exactly when it has no angle brackets in it and no white space around it. |
| `Convergence.UpsertKeepsCopies` | packages/connectors/src/imapflow-dav-target.ts:322-393 | An upsert of a message of the source, failing anywhere, with other clients at work: no message is lost except to them, and no id that only we deliver and that the scan finds gets a second copy. |
| `Convergence.PresentIsNotAppended` | packages/connectors/src/imapflow-dav-target.ts:334-344 | An upsert of a message already there, failing or not, leaves the server to what the other clients do to it. |
| `Convergence.FetchExactly` | packages/connectors/src/imapflow-source.ts:361-387 | For every listed item, an answered fetch brings the message the listed handle names exactly if the source mailbox had not been recreated when the fetch selected it, or the same UID there holds equal bytes; in any case it brings what that UID names under the version selected. |
| `Convergence.PassConverges` | packages/connectors/src/imapflow-source.ts:249-387 | A pass of list, fetch and upsert, crashing anywhere or completing, with other clients at work on both servers, keeps what earlier passes achieved; if it completes and the source mailbox was not recreated within it, every keyed message it listed or had listed before, its id found by the scan, is on the target unless another client took it away, and where the target began with at most one copy it is there exactly once unless another client took it or delivered it too. |
| `Convergence.PassesConverge` | packages/connectors/src/imapflow-source.ts:249-387 | Any number of passes from an empty cursor, crashes included, other clients at work throughout: every message a completed pass listed has been copied unless its mailbox was recreated since, and every keyed message copied, its id found by the scan, is on the target unless another client took it away; where the target began with at most one copy it is there exactly once unless another client took it or delivered it too. |
| `KeywordsCarried.PassWrites` | packages/connectors/src/imapflow-dav-target.ts:346-361 | Everything a pass does to the target, failing or not and whoever else is at work: each message it adds is written for one message of the source mailbox as listed, with an id, no message twice and in UID order; the flags stand for exactly that message's keywords, or for `Seen` if it has none; and the bytes are that message's if the source mailbox was not recreated meanwhile. |
| `KeywordsCarried.LandedAsMarked` | packages/connectors/src/imapflow-dav-target.ts:346-361 | What is on the target after a pass under an id nobody else delivers there was there before, unchanged, or is new and carries the keywords of the listed message it is. |
| `KeywordsCarried.PassesCarryKeywords` | packages/connectors/src/imapflow-dav-target.ts:346-361 | The same over any number of passes, crashing anywhere. |
| `Convergence.SettledPassAppendsNothing` | packages/connectors/src/imapflow-source.ts:261-327 | A pass over a source without unseen messages, not recreated within it, failing or not, does nothing to the target: it ends as the other clients alone would have left it. |
| `Convergence.DividedPassLosesTheListed` | packages/connectors/src/imapflow-source.ts:361-387 | The concrete case behind the condition: the source mailbox is recreated between listing and fetch, the pass copies another message and never the listed one, and reports success. |
| `PermissionScan.GetAllPages` | packages/connectors/src/graph-permission-scan.ts:296-342 | The paging loop is `GetAll`: all pages, or nothing when a page fails or the hundredth does not end the list. |
| `SharedTrails.GetAllExactly` | packages/connectors/src/graph-permission-scan.ts:296-342 | A listing is answered exactly if its next links come to an end within a hundred pages that can all be read, and then with the items of every one of those pages, in order. |
| `PermissionScan.ScanDrivePermissions` | packages/connectors/src/graph-permission-scan.ts:198-290 | The queue loop with its two caps is `Scan`; what that lists, told from the drive alone, is `ListsEveryShare` and `ScanListsExactly`. |
| `PermissionScan.BfsIsWalk` | packages/connectors/src/graph-permission-scan.ts:218-270 | Whatever the breadth-first search collects is a reordering of what the recursive walk collects, within the same counts. |
| `PermissionScan.WalkIsBfs` | packages/connectors/src/graph-permission-scan.ts:218-270 | The search completes on everything the recursive walk completes on within the caps. |
| `PermissionScan.SameGrants` | packages/connectors/src/graph-permission-scan.ts:272-284 | The grants do not depend on the order of the shared items. |
| `PermissionScan.CompleteOrRefused` | packages/connectors/src/graph-permission-scan.ts:198-290 | The scan answers `listed` exactly when a plain recursive walk completes with every read, its folders and its shared items within the caps, and then its grants are exactly that walk's. |
| `SharedTrails.ListsEveryShare` | packages/connectors/src/graph-permission-scan.ts:218-290 | The grants listed are, each as often as it is found, the permissions at the end of every trail of folders from the root to an item marked as shared, on whatever page of a listing it is, under the names along the trail. |
| `SharedTrails.ListedExactly` | packages/connectors/src/graph-permission-scan.ts:250-290 | One pair of label and permission is listed exactly if some such trail has that label and its item that permission. |
| `SharedTrails.ScanListsExactly` | packages/connectors/src/graph-permission-scan.ts:198-290 | And the scan lists exactly if there is an end to the folders and to the shared items, no more of either than the caps allow, every folder's listing ends within a hundred readable pages and every shared item's permissions can be read; otherwise it refuses. |
| `PermissionScan.CycleIsRefused` | packages/connectors/src/graph-permission-scan.ts:224-235 | A folder graph from which every listing leads on to another folder, a cycle for one, is refused and not walked for ever. |
| `DriveSource.GoogleDriveSource.ListFolders` | packages/connectors/src/google-drive-source.ts:157-169 | The folder walk over paged listings is the depth-first enumeration of the tree. |
| `DriveTree.EnumeratesOnce` | packages/connectors/src/google-drive-source.ts:157-169 | Entries and folders are in one-to-one correspondence: each folder once, under its own path, and no path twice. |
| `DriveSource.ResolveDescends` | packages/connectors/src/google-drive-source.ts:674-686 | Resolving segments by name goes where the tree goes and fails where it has no such folder. |
| `DriveSource.ResolveInverts` | packages/connectors/src/google-drive-source.ts:674-686 | Resolving the path of any enumerated folder gives that folder back. |
| `DriveSource.OnlyFoldersResolve` | packages/connectors/src/google-drive-source.ts:674-686 | A path that resolves is one the enumeration lists. |
| `DriveSource.EveryFileOnce` | packages/connectors/src/google-drive-source.ts:180-242 | The listings of all enumerated folders hold every file, and no key comes twice among them. |
| `DriveSource.ItemsAreTheFiles` | packages/connectors/src/google-drive-source.ts:180-195 | Listing an enumerated folder answers one item for each of its files: the names that lead to it joined by slashes, and the file's own id to fetch it by. |
| `Sequences.EveryPageIsThere` | packages/connectors/src/google-drive-source.ts:647-671 | A listing of several pages holds every page in full, each behind the one before it, and nothing else. |
| `DriveTree.FileKeysDiffer` | packages/connectors/src/google-drive-source.ts:240-242 | Two files with one key are one file. |
| `DriveSource.GoogleDriveSource.ListSince` | packages/connectors/src/google-drive-source.ts:180-202 | What the listing answers and what it leaves in the memo. |
| `DriveSource.GoogleDriveSource.ListKeys` | packages/connectors/src/google-drive-source.ts:225-237 | The memo is answered only for its own path and always consumed, also when it is not used. |
| `DriveSource.GoogleDriveSource.ListSinceThenKeys` | packages/connectors/src/google-drive-source.ts:180-237 | Asked right after the listing of the same folder, the keys are those of the items listed, one for one. |
| `TrashPaths.OriginalPathOf` | packages/connectors/src/google-drive-source.ts:546-582 | The climb with the shared cache answers what the climb without one does, and keeps the cache true. |
| `TrashPaths.UpEqualsDown` | packages/connectors/src/google-drive-source.ts:546-582 | For a file in a folder at most 63 levels down the climb rebuilds exactly the key the folder walk composed; deeper, it answers unnameable. |
| `TrashPaths.OutOfScopeExactly` | packages/connectors/src/google-drive-source.ts:557-580 | Out of scope is answered exactly for chains that top out elsewhere within the depth limit. |
| `TrashPaths.BrokenChain` | packages/connectors/src/google-drive-source.ts:563-576 | A chain that reaches an id the service does not know is lost, wherever the break is, at the very parent of the file too. |
| `TrashPaths.UnnameableExactly` | packages/connectors/src/google-drive-source.ts:546-582 | Unnameable is answered exactly when Drive names no parent, or the chain breaks off at a folder that is gone, or 64 known folders do not bring it to an end. |
| `TrashPaths.ListTrashedPaths` | packages/connectors/src/google-drive-source.ts:492-535 | The bin report holds exactly the paths that can be named, each once, and the number of files for which there is none to name, those out of scope not counted. |
| `TrashPaths.BoxUpEqualsDown` | packages/connectors/src/box-file-source.ts:237-251 | Box's version, from the ancestor chain and without a limit, gives the key its own folder walk composes. |
| `TrashPaths.BoxNothingExactly` | packages/connectors/src/box-file-source.ts:237-251 | When Box has no path to give, which of the two reasons it gives, exactly. |
| `GraphMailFolders.GraphMailSource.ListFolders` | packages/connectors/src/graph-mail-source.ts:100-156 | The queue loop answers the breadth-first walk, each folder with its path, its name and the role looked up by id, and stores the map from path to id; a failed read throws and leaves the stored map alone. |
| `GraphMailFolders.BfsIsDown` | packages/connectors/src/graph-mail-source.ts:123-152 | A completed walk lists exactly the folders of a depth-first one, each as often. |
| `GraphMailFolders.CompletesExactly` | packages/connectors/src/graph-mail-source.ts:126-135 | It completes exactly when the listing of the root and of every folder with children can be read. |
| `GraphMailFolders.ListingIsTheTree` | packages/connectors/src/graph-mail-source.ts:116-155 | With distinct, slash-free sibling names every folder is listed once and the stored map leads from its path to its id, and from nothing else. |
| `GraphMailFolders.ListedByName` | packages/connectors/src/graph-mail-source.ts:136-152 | There each folder is listed under the name its path ends in. |
| `GraphMailFolders.RoleById` | packages/connectors/src/graph-mail-source.ts:101-114 | A folder a well-known name resolved to has that role whatever it is called. |
| `GraphMailDelta.ListSince` | packages/connectors/src/graph-mail-source.ts:164-250 | The page loop is `Poll`; what that answers, told from the pages, is `PollExactly`. |
| `GraphMailDelta.EveryEntryCounted` | packages/connectors/src/graph-mail-source.ts:206-225 | Every delta entry is an item, a removal, an unkeyable message or a removal without an id, and only one of them. |
| `GraphMailDelta.PollExactly` | packages/connectors/src/graph-mail-source.ts:192-241 | What a poll answers, told from the pages by position: it is answered exactly if the pages come to one without a nextLink and some page up to there has a deltaLink, the last of which is the cursor; of everything on those pages, in order, each message with a Message-ID is an item with its id, each removal with an id is reported, and the messages without a Message-ID are counted. |
| `GraphMailDelta.DeltaRefinesListing` | packages/connectors/src/graph-mail-source.ts:193-249 | If the pages of a poll together report each id changed since as it now stands, folding the answer into the keyed contents at the last deltaLink gives the keyed contents at the new one exactly when no message that was there lost its Message-ID in between. |
| `GraphMailDelta.DeltasRebuildTheFolder` | packages/connectors/src/graph-mail-source.ts:193-249 | The same for any history of polls: the folded answers are the folder. |
| `GraphPath.Normalize` | packages/connectors/src/graph-drive-source.ts:466-519 | The method with its segment stack is `NormalizePath`, for all eight settings of the options. |
| `GraphPath.NothingLeftToResolve` | packages/connectors/src/graph-drive-source.ts:487-507 | A normalised path is the root, or a slash and names none of which is empty, `.` or `..`. |
| `GraphPath.SameNormalExactly` | packages/connectors/src/graph-drive-source.ts:466-519 | Two paths normalise alike exactly when they lead through the same names. |
| `GraphPath.DotsAreMeant` | packages/connectors/src/graph-drive-source.ts:486-503 | `..` takes back the name before it, `.` and an empty segment change nothing, and above the root is the root. |
| `GraphPath.Idempotent` | packages/connectors/src/graph-drive-source.ts:466-519 | Normalising twice is normalising once. |
| `GraphPath.IdempotentExactly` | packages/connectors/src/graph-drive-source.ts:466-519 | With which options that holds: not when a trailing slash is to go while slashes are neither collapsed nor resolved. |
| `GraphPath.DirectoryFirst` | packages/connectors/src/graph-drive-source.ts:150-158 | Normalising the directory first makes no difference to anything appended to it. |
| `GraphPath.KeyIsDirectoryAndName` | packages/connectors/src/graph-drive-source.ts:150-158 | The key of a file with an ordinary name is its normalised directory with the name behind it. |
| `GraphPath.SameKeyExactly` | packages/connectors/src/graph-drive-source.ts:150-158 | Two files with ordinary names share a key exactly when they share the normalised directory and the name. |
| `GraphPath.PlaceExactly` | packages/connectors/src/graph-drive-source.ts:150-158 | An item has a place exactly if it has a name and a parent path with `root:` in it, and the place is the name in the directory behind the first such marker. |
| `GraphDriveDelta.ListSince` | packages/connectors/src/graph-drive-source.ts:165-320 | The page loop and the second loop that derives keys are `Poll`. |
| `GraphDriveDelta.EveryEntryCounted` | packages/connectors/src/graph-drive-source.ts:240-303 | Every delta entry is an item, a removal or one of those left out. |
| `GraphDriveDelta.SkippedExactly` | packages/connectors/src/graph-drive-source.ts:240-275 | Left out are exactly folders, removals without an id and files whose place cannot be named. |
| `GraphDriveDelta.PollExactly` | packages/connectors/src/graph-drive-source.ts:225-311 | What a poll answers, told from the pages by position: it is answered exactly if the pages come to one without a nextLink; of everything on them, in order, each file with a derivable place is an item with its key and its id, each deleted entry with an id is a removal with that id; and the cursor is made of the folder's path and the last page's delta link. |
| `GraphDriveDelta.LinkComesBackExactly` | packages/connectors/src/graph-drive-source.ts:557-582 | A cursor gives its delta link back, colons and all, exactly when the folder's path has no colon. |
| `GraphDriveDelta.ResumesAtTheLink` | packages/connectors/src/graph-drive-source.ts:259-311 | The next poll asks for the delta link of the last page read, or for the empty address when that page had none. |
| `GraphDriveDelta.LinkForgotten` | packages/connectors/src/graph-drive-source.ts:259-311 | So a link on an earlier page is forgotten, and the poll is answered all the same: unlike the mail listing, which keeps it and refuses to answer without one. |
| `GraphDriveDelta.RenameExactly` | packages/connectors/src/graph-drive-source.ts:594-600 | A rename is seen exactly when the name or the normalised directory of one item changed. |
| `ICalendar.ParseIcalComponent` | packages/connectors/src/graph-calendar-source.ts:364-457 | The loop with its index and its recursive call is the recursive reader `Body`, arrays shared between a calendar and its events included; the index always advances. |
| `ICalRoundTrip.LinesComeBack` | packages/connectors/src/graph-calendar-source.ts:355-359 | However lines were folded and broken, splitting gives them back. |
| `ICalRoundTrip.BodyReads` | packages/connectors/src/graph-calendar-source.ts:364-457 | Reading past printed components adds them one by one, and each ends at its own END. |
| `ICalRoundTrip.LinesRoundTrip` | packages/connectors/src/graph-calendar-source.ts:364-457 | Parsing the printed lines of one component gives it back with the index of its END line. |
| `ICalRoundTrip.ValueReadExactly` | packages/connectors/src/graph-calendar-source.ts:412-419 | The value of a line is found exactly when its parameters hold no colon, quoted or not. |
| `ICalRoundTrip.TextRoundTrip` | packages/connectors/src/graph-calendar-source.ts:340-457 | For every printed calendar, its names and types in upper or lower case, and every legal folding (section 3.1 of RFC 5545) parsing the text gives what adding its parts in turn gives, and throws exactly when that does. |
| `ICalRoundTrip.RaisedAlikeExactly` | packages/connectors/src/graph-calendar-source.ts:368-378 | Two names or types are read as the same exactly when they differ in upper and lower case only. |
| `ICalRoundTrip.OnlyCalendars` | packages/connectors/src/graph-calendar-source.ts:340-378 | Nothing is answered but for a text whose first line that is not empty begins a calendar, in upper or lower case. |
| `ICalRoundTrip.SaysNothing` | packages/connectors/src/graph-calendar-source.ts:411-425 | A line without a colon, or without a name before its parameters or its colon, changes nothing. |
| `ICalFaithful.Reads` | packages/connectors/src/graph-calendar-source.ts:427-449 | For every tree: adding its parts throws exactly where some component has a line with parameters whose name so far, dropped empty values aside, holds exactly one value that came without; for a calendar the names handed up by its events count with its own. |
| `ICalFaithful.HeldExactly` | packages/connectors/src/graph-calendar-source.ts:427-449 | Otherwise a name holds the values printed in their order, without the empty ones that came before the first value kept. |
| `ICalFaithful.ValuesComeBackExactly` | packages/connectors/src/graph-calendar-source.ts:427-449 | All the printed values of a name are held exactly when no empty value was dropped. |
| `ICalFaithful.Sharing` | packages/connectors/src/graph-calendar-source.ts:479-498 | When a calendar's RRULE, EXDATE or RDATE is the very array of one of its events, and of which: the first that handed one up, if what it handed up is an array. |
| `ICalFaithful.EventKeepsExactly` | packages/connectors/src/graph-calendar-source.ts:396-401 | For all events of all calendars: what an event holds under a name in the parsed calendar is what it held when it had been read, exactly unless its array is the one the calendar took over and a later event or line adds to it. |
| `ICalFaithful.TwoEventsAlter` | packages/connectors/src/graph-calendar-source.ts:396-401 | The smallest such calendar: the first of two events ends up with the exception date of the second. |
| `ICalFaithful.GathersExactly` | packages/connectors/src/graph-calendar-source.ts:479-498 | What a calendar itself holds under RRULE, EXDATE and RDATE: the strings of its own lines and of its events, all of them in order, but for the empty ones in front that an event or the calendar dropped. |
| `ICalFaithful.CalendarHoldsAll` | packages/connectors/src/graph-calendar-source.ts:479-498 | In particular all of them when none is empty. |
| `ICalFaithful.CalendarRoundTrip` | packages/connectors/src/graph-calendar-source.ts:340-457 | The round trip for every printed calendar, its names and types in upper or lower case and in every legal folding, in terms of the tree alone: it throws exactly where the tree says, and otherwise gives the same types, the same components nested the same way, and under every name the same values in the same order, exactly where none was dropped and none added through the calendar. |
| `ICalMerge.MergeProperty` | packages/connectors/src/graph-calendar-source.ts:479-498 | One name of the merge, with the arrays as shared objects: nothing, the event's own value, or one more value. |
| `ICalMerge.MergeOne` | packages/connectors/src/graph-calendar-source.ts:483-496 | That step on the objects is the reader's `MergeName` on the values: afterwards the properties, the arrays and who shares them still say the same, and the other names of the event are as they were. |
| `ICalMerge.MergeEventProperties` | packages/connectors/src/graph-calendar-source.ts:479-498 | The loop over the three names is `MergeEvent`: the merge with arrays as objects does what the theorems about parsed calendars say of it. |
| `VCard.EscapeIsMap` | packages/connectors/src/graph-contacts-source.ts:908-919 | The chain of five replacements is one character-by-character map. |
| `VCard.NoRawBreak` | packages/connectors/src/graph-contacts-source.ts:908-919 | An escaped value holds no line break. |
| `VCard.EscapedAlikeExactly` | packages/connectors/src/graph-contacts-source.ts:908-919 | Two values are escaped alike exactly when they differ in carriage returns only. |
| `VCard.FirstPassCount` | packages/connectors/src/carddav-source.ts:883-884 | The decoder's first replacement makes a line feed of every escaped one and of every backslash before an `n`. |
| `VCard.DecodesExactly` | packages/connectors/src/carddav-source.ts:879-888 | The decoder inverts the escaping exactly on values without a carriage return and without a backslash directly before an `n` or `N`. |
| `VCard.UnfoldsExactly` | packages/connectors/src/carddav-source.ts:880-882 | A line folded any number of times, at either line break and with a space or a tab, loses the white space behind every fold, and so unfolds to what it was exactly when no part behind a fold begins with white space. |
| `VCard.PartsComeBack` | packages/connectors/src/graph-contacts-source.ts:460-494 | Names and addresses, escaped part by part and joined, come apart at the unescaped separators (section 3.4 of RFC 6350). |
| `VCard.CategoriesReadExactly` | packages/connectors/src/carddav-source.ts:836-842 | The CardDAV reader, which splits at every comma, trims and decodes, reads written categories back exactly when they are not a single empty one and each has no comma, no carriage return, no backslash before an `n` and no white space but line feeds at its ends. |
| `RateLimit.FetchWithRateLimitRetry` | packages/connectors/src/http-rate-limit.ts:105-203 | The retry loop, whenever it ends, ends with the answer, the number of requests and the waiting time of `Rounds`, for any server and any jitter; when it ends is `GivesUpExactly`. |
| `RateLimit.RoundExactly` | packages/connectors/src/http-rate-limit.ts:116-202 | What follows any response: it is the answer exactly if its status is neither 429 nor 503, or nothing is left of 120000 ms, or the server asks for more than is left; otherwise the wait is what the server asked, or 250 ms doubled per round plus the jitter, cut to 5000 ms and to what is left. |
| `RateLimit.OnlyRefusalsAreRetried` | packages/connectors/src/http-rate-limit.ts:116-122 | Only a 429 or a 503 is ever asked again, and the answer is what the server said last. |
| `RateLimit.WithinBudget` | packages/connectors/src/http-rate-limit.ts:116-202 | Total waiting never exceeds 120000 ms and no wait 5000 ms. |
| `RateLimit.AtMost29Requests` | packages/connectors/src/http-rate-limit.ts:181-186 | Without Retry-After headers at most 29 requests are made, whatever the jitter. |
| `RateLimit.Reaches29` | packages/connectors/src/http-rate-limit.ts:181-186 | And 29 is reached. |
| `RateLimit.ExactCountdown` | packages/connectors/src/http-rate-limit.ts:140-202 | Against a Retry-After that counts down to recovery after T ms: T in all and ceil(T/5000)+1 requests for T up to 120000, else one request and no wait. |
| `RateLimit.NoticedWithinTheCap` | packages/connectors/src/http-rate-limit.ts:179-202 | A success always comes less than 5000 ms after recovery. |
| `RateLimit.GivesUpExactly` | packages/connectors/src/http-rate-limit.ts:116-186 | For every server and every jitter the call ends, by success or by giving up, if and only if the server neither comes to refuse and ask for a Retry-After of zero for ever while budget is left, nor goes on asking for less than zero without end. |
| `RateLimit.AskedForTimeEnds` | packages/connectors/src/http-rate-limit.ts:116-186 | In particular it ends against every server whose asks are all positive. |
| `RateLimit.ConstantAskExactly` | packages/connectors/src/http-rate-limit.ts:116-186 | And against one that always refuses with the same ask exactly when that is positive. |
| `RateLimit.SecondThenNothingNeverEnds` | packages/connectors/src/http-rate-limit.ts:170-202 | Asking for a second once and for nothing ever after is enough for it never to end. |
| `KnockLimit.KnockLimiter.Take` | apps/api/src/knock-limit.ts:106-120 | The limiter that deletes and sweeps answers as one that never forgets a window. |
| `KnockLimit.KnockLimiter.RetryAfterSeconds` | apps/api/src/knock-limit.ts:121-125 | The same for the waiting time. |
| `KnockLimit.RefusedExactly` | apps/api/src/knock-limit.ts:93-120 | Over any trace: a take is refused exactly when a window of its key is running and at least max takes of the key have been accepted since that window began, a window beginning with a take when none begun before is still running. |
| `KnockLimit.SecondsExactly` | apps/api/src/knock-limit.ts:121-125 | The seconds to wait are zero exactly when no window of the key is running, and otherwise the time to its end rounded up. |
| `KnockLimit.OwnCounter` | apps/api/src/knock-limit.ts:93-120 | A key's window depends on its own calls only. |
| `KnockLimit.OwnAnswers` | apps/api/src/knock-limit.ts:105-126 | And so does every answer it gets. |
| `KnockLimit.AtMostTwiceTheAllowance` | apps/api/src/knock-limit.ts:95-120 | In any half-open interval as long as the window at most 2*max takes of a key are accepted. |
| `KnockLimit.RetryAfterIsEnough` | apps/api/src/knock-limit.ts:106-125 | A take made the announced number of seconds after a refusal is accepted, and one made a second or more earlier is not, whatever other keys do. |
| `TokenProvider.GoogleTokenProvider.TokenNow` | packages/connectors/src/google-token-provider.ts:114-122 | Answers the cached token exactly if it has more than 300000 ms left; otherwise joins the mint in flight, or starts one only if there is none. |
| `TokenProvider.GoogleTokenProvider.Renew` | packages/connectors/src/google-token-provider.ts:125-132 | A refresh empties the cache and joins the mint in flight, or starts one only if there is none. |
| `TokenProvider.GoogleTokenProvider.MintSettles` | packages/connectors/src/google-token-provider.ts:149-160 | A settled mint is cached when it succeeded and never when it failed, and is no longer in flight. |
| `DriveTransport.AlwaysGood` | packages/connectors/src/google-drive-transport.ts:47-58 | In every interleaving of any number of requests at most one mint is outstanding, and the one retry after a 401 carries a token minted after the rejected one. |
| `DriveTransport.SentAtMostTwice` | packages/connectors/src/google-drive-transport.ts:47-58 | In every interleaving each request is sent once, and once more exactly when its first answer is a 401; the answer to the second is returned whatever it is. |
| `DriveTransport.MintsExactly` | packages/connectors/src/google-token-provider.ts:114-160 | In every interleaving a mint is started exactly when somebody needs a token that is not at hand and none is in flight; a new request is sent with the cached token while that is good for more than 300000 ms; and no answer but a first 401 changes anything at the provider. |
| `DriveTransport.JoinersShareTheResult` | packages/connectors/src/google-token-provider.ts:149-160 | When a mint settles, every request waiting for it gets its token, or its failure, and none is left waiting. |
| `DriveTransport.RejectionEmptiesTheCache` | packages/connectors/src/google-drive-transport.ts:50-57 | A 401 empties the cache and joins a mint in flight instead of starting a second one. |
| `Digest.CollectAttention` | apps/selfhost/src/digest-collect.ts:61-122 | The loop over mappings, with its set of tenants and its guarded reads, makes the rows of `Rows`. |
| `Digest.RowsExactly` | apps/selfhost/src/digest-collect.ts:61-122 | The rows told from the reads: one for each mapping whose status reports, in the order configured, each field what its own read answered or empty if that failed, the decisions on the tenant's first, and every failed read one blind spot. |
| `Digest.CountedOncePerTenant` | apps/selfhost/src/digest-collect.ts:98-104 | The decision counts in the rows add up to one count for each distinct tenant that has a reporting mapping. |
| `Digest.TotalIgnoresOrder` | apps/selfhost/src/digest-collect.ts:65-122 | That total is the same in whatever order the mappings come. |
| `Digest.CarriedByTheFirst` | apps/selfhost/src/digest-collect.ts:98-104 | The count stands in the row of the tenant's first reporting mapping and in no other. |
| `Digest.BlindSpotsExactly` | apps/selfhost/src/digest-collect.ts:66-104 | Every read of a reporting mapping that failed is exactly one blind spot in its row, and nothing else is. |
| `Digest.BlindToDecisionsOncePerTenant` | apps/selfhost/src/digest-collect.ts:100-104 | A decision queue that cannot be read is reported once for each tenant. |
| `Digest.CollectTenantAttention` | apps/selfhost/src/digest-collect.ts:140-162 | The tenant-level total is the same sum over all distinct tenants, a queue that cannot be read one blind spot. |
| `Digest.RowsCarryTheTotalExactly` | apps/selfhost/src/digest-collect.ts:61-162 | The rows carry that whole total exactly when the tenants without a reporting mapping have no decisions that can be read. |

## Left out

- AdoptedHandleExactly: says exactly when the answered pair is that of the mailbox scanned; that a pair which is not always misleads a later removal is not claimed, only shown possible by AdoptionRace.
- HandleSafety: leaves out the adopted pair that AdoptedHandleExactly singles out.
- RetrySafe: other clients may do anything to the mailbox except put the same Message-ID into it, and the scan must find it, which RetryDoublesExactly shows to be needed.
- AnsweredIsThere: that there is one copy, or that the message is under the version answered, is promised only where other clients do not interfere, as stated in it.
- PassesConverge: the driver that keeps a cursor only when a pass completes is an assumption about the reconcile loop of packages/core, which is not part of this model; what a pass divided by a recreation listed is promised to be copied only by FetchExactly, message by message.
- SettledPassAppendsNothing: other clients may do anything but expunge or recreate the target's mailbox during the pass, and must not have taken its messages before; the scan must find their ids.
- FetchWithRateLimitRetry: says nothing of a call that never ends, which has no result; GivesUpExactly says which those are.
- GraphMailFolders.GraphMailSource.ListFolders: `childFolderCount` is taken to be true; a folder that reports no children and has some is not walked into.
- CalendarRoundTrip: where a name has lost an empty value and gained one through the calendar, nothing is claimed about its list as a whole; the RRULE, EXDATE and RDATE of a calendar itself are its events' and are described by GathersExactly and Sharing.
- ListingAnswers: where a listing without a usable cursor starts is only bounded, by the UIDNEXT of the mailbox.
- UpEqualsDown: the root id is no folder's id below it, as ids are in Drive.
- The scan and the server's parser themselves: a message comes with the id each of them finds in it, and the theorems say what follows from their agreeing or not.
- A mailbox recreated under its selection makes the later calls on that selection fail. Whatever is said of what a lookup, a listing, a fetch or a removal finds needs this: RetrySafe, AnsweredWasDelivered, AdoptedHandleExactly, RemovalTouchesOnlyItsUid, HandleSafety, ReindexIsFaithful, RunLosesNothing, FetchExactly, PassesConverge and what they are built from. A server that went on serving the old mailbox to the open session would answer each lookup from there, and every retry would append again. `messageMove` moves only the UID named.
- `connect` and `ensureConnected`: making a connection succeeds; while none can be made every call fails, as failing calls do.
- `withConnection` of the source: the retry after a refreshed token; every operation here is one connection's.
- `ensureMailbox`, `contentHashFor`, sizes and dates of messages.
- `listFolders` of the IMAP source and special-use roles other than trash.
- Keyless mail: a message without a Message-ID is counted and listed; what the sync path makes of it is elsewhere.
- Drive listings that fail: an unknown id is an error, a failing network is not modelled there; the 1000-page cap of Box.
- Native editor files, shared drives and items, and bytes of Drive and Box files.
- `listDriveItemPermissions` and `scanCalendarPermissions`: the first is a map from item to grants or a failure, the second the same shape without folders.
- HTTP, OAuth bodies, JSON, throttling, logging and error texts: a request answers or fails.
- `parseRetryAfterMs`, `reportsToDigest`, `summariseQueues`: parameters, or the arguments handed to them.
- Digest messages: a blind spot is the name of the read that failed, without the server's words.
- `raw`, the text a parsed component keeps, and the extractors that read summary, dates and recurrence ids from a parsed calendar.
- `mapToVCard4` apart from its escaped values: which lines are written is one condition after another; the regular expressions that find fields in a vCard.
- `parsePath`, the change hash, and the throttled request loop of OneDrive.
- The folder walk of OneDrive, which is the Drive walk with a depth cap.
- Case folding beyond ASCII, and UTF-16: a `char` here is a Unicode scalar value.
- The Box, Dropbox and JWT token providers, which repeat the Google one.
- Nothing was executed.
