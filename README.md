# NeuroLibre full-stack server: a verified model of its core

NeuroLibre's server admits BinderHub builds of a submitted repository, relays
the build's event stream to the review issue on GitHub, keeps an inventory of
the Jupyter Books it has built, and prepares the Zenodo archives of an accepted
preprint. This project models that core in Dafny and proves what it promises.
The core covers the build lock, the build relay, the book lookup API, bucket
creation, uploads, status confirmation, publishing, the fork configuration and
the book transfer.

Modules:

- `Results`, `Strings` and `Dicts` are shared vocabulary. `Results` holds
  `Option` and `Result`, with exceptions as `Raised(name)` and Flask aborts as
  `Abort(code, message)`. `Strings` holds Python's `split`, `join`, `strip`,
  `in` and `os.path.join` over `seq<char>`. `Dicts` holds an insertion-ordered
  dictionary as a list of pairs.
- `Common` models `api/common.py`:
  - repository URL parsing and `HEAD` resolution over `git ls-remote` output;
  - the Binder build URL and the lock file name;
  - the lock directory, as the class `LockStore` whose `locks` map holds each
    lock file's modification time in seconds;
  - build admission (`run_binder_build_preflight_checks`);
  - the path-to-record step of `load_all`, `book_get_by_params` and
    `parse_front_matter`;
  - the assembly of the build-log message.
- `Preprint` models `api/preprint.py`:
  - the record names and the upload file names;
  - the Zenodo bucket metadata;
  - the receipts of the deposit directory, as the class `DepositDirectory`,
    which holds the deposit record and the set of receipt file names;
  - `zenodo_confirm_status` and `zenodo_publish`;
  - the TSV resource lookup;
  - the rows of `zenodo_get_status`.
- `Relay` models `binder_stream` and `preview_build_book_task`.
- `Deposit` models `zenodo_create_buckets_task`, including the normalisation
  of authors.
- `Upload` models `zenodo_upload_book_task`.
- `Fork` models the configuration and table-of-contents edits and the polling
  loop of `fork_configure_repository_task`. It also models the owner gate and
  the DOI symlinks of `rsync_book_task`.
- `CommonApi` models `api_get_books` and `api_get_book`.

Everything outside the process becomes a parameter:

- the clock (`now`, frame timestamps);
- `git ls-remote` listings (`lsRemote`);
- BinderHub's event lines and their JSON decoding (`parse`);
- Zenodo's replies (`calls`, `deletes`, `reply`, `accepted`);
- GitHub's answers (`forkExists`, `available`, loaded YAML, `configSaved`);
- directory listings.

Notifications to the review issue become appended sequences of notices.

## Model

| member | source | states |
|---|---|---|
| Common.GetOwnerRepoProvider | api/common.py:79-95 | a parsed project's owner and repo hold no `/`; the provider is a known host, or `gh`/`gl` when abbreviated; the only failures are an IndexError or the 400 abort for an unknown provider |
| Common.ParseRepoUrl | api/common.py:79-95 | the last three `/`-segments of a URL are host, owner and repo; github.com/gitlab.com are accepted (abbreviated unless the full name is asked for) and every other host aborts with 400 |
| Common.FormatCommitHash | api/common.py:97-107 | a ref other than `HEAD` is returned verbatim; `HEAD` is resolved over the ls-remote lines |
| Common.ResolveHead | api/common.py:102-107 | resolving `HEAD` raises nothing but IndexError, and succeeds whenever every listing line has a tab |
| Common.CommitOf | api/common.py:97-107 | a commit other than `HEAD` is kept as given; the only failure is the IndexError of a malformed listing |
| Common.GetBinderBuildUrl | api/common.py:109-113 | the build URL is an `https://` URL that ends in `/` followed by the commit |
| Common.ResolveHeadIsLastHead | api/common.py:102-107 | on tab-separated listings, `HEAD` resolves to the hash of the last line whose ref is `HEAD`, or stays `HEAD` when no line names it |
| Common.ResolveHeadRaises | api/common.py:104-105 | a listing line without a tab makes the resolution raise IndexError |
| Common.BuildUrlPieces | api/common.py:109-113 | the build URL splits into `https:`, the empty string, `binder.domain`, `build`, provider, owner, `repo.git`, commit |
| Common.GetLockFilename | api/common.py:115-121 | a lock name exists exactly when the URL parses, and it ends in `.lock` |
| Common.LockFilenameOfUrl | api/common.py:115-121 | the lock file is `build_locks/{gh\|gl}_{owner}_{repo}.lock` under the working directory |
| Common.GithubLockFilename | api/common.py:115-121 | a github.com repository locks `/srv/build_locks/gh_{owner}_{repo}.lock` |
| Common.LockNamesCollide | api/common.py:115-121 | two different gitlab projects (`x_y/r` and `x/y_r`) share one lock file, so one build rate-limits the other |
| Common.LockStatusOf | api/common.py:123-142 | not locked exactly when no lock file exists; unlocked exactly when the lock is older than the limit; otherwise busy, with remaining time within the limit |
| Common.LockStore.constructor | api/common.py:123-142 | the store starts from the given lock files |
| Common.LockStore.CheckLockStatus | api/common.py:123-142 | returns the lock status and deletes the lock file exactly when it has expired; nothing else changes |
| Common.LockStore.Remove | api/neurolibre_celery_tasks.py:358 | `os.remove`: deletes the lock and raises FileNotFoundError when it was absent |
| Common.LockStore.Touch | api/common.py:162-164 | creating the lock file sets its time to now |
| Common.Preflight | api/common.py:144-172 | admission never deletes a lock file, and it changes no lock file but the repository's own |
| Common.RunPreflight | api/common.py:144-172 | admission runs parse, lock check, lock creation, `HEAD` resolution and URL construction in that order, with the lock store updated as the specification function says |
| Common.PreflightRejectsBeforeLocking | api/common.py:149-156 | an unrecognised provider fails before any lock is inspected or written |
| Common.PreflightLockOutcome | api/common.py:155-164 | a busy lock aborts with 409 and leaves the store unchanged; otherwise the lock file exists afterwards, stamped now |
| Common.PreflightSucceeds | api/common.py:144-172 | admission succeeds exactly when the URL parses, the lock is not busy and the commit resolves; the URL it then returns is the BinderHub build URL of the parsed repository at the resolved commit |
| Common.FirstBuildIsAdmitted | api/common.py:144-172 | a first request for acme/demo is admitted with its build URL and leaves exactly its lock |
| Common.SecondBuildIsRateLimited | api/common.py:144-172 | a request five minutes later is refused with 409 and 25.0 minutes remaining, and the lock is unchanged |
| Common.TarGzOnlyAtEnd | api/common.py:30-35 | stripping `.tar.gz` from an artifact path touches only its suffix |
| Common.ArtifactPathPieces | api/common.py:30-35 | an artifact path splits into the root's segments followed by user, provider, repo and commit |
| Common.BookFromPath | api/common.py:29-50 | IndexError exactly when the path without `.tar.gz` has fewer than four `/`-pieces; otherwise the record's user, provider, repo and commit are the last four pieces (the commit holds no `/`), with the given notebooks and time |
| Common.BookFromArtifactPath | api/common.py:29-50 | the record `load_all` builds from an artifact path carries that user, provider, repo and commit and the path-derived download link |
| Common.BooksWhere | api/common.py:55-77 | the books selected are exactly the inventory's books whose key equals the value |
| Common.BooksWhereIsSubsequence | api/common.py:55-77 | a selection keeps inventory order (it is a subsequence) |
| Common.SelectBooks | api/common.py:55-77 | the lookup is no longer than the inventory and holds exactly the inventory's books matching the first parameter that is not None |
| Common.BookGetByParams | api/common.py:55-77 | the loop returns the selection by the first parameter that is not None |
| Common.SelectBooksIsSelection | api/common.py:55-77 | the lookup is an order-preserving subsequence of the inventory, empty when all three parameters are None |
| Common.SelectBooksIgnoresLaterParameters | api/common.py:61-67 | precedence, not intersection: a matching user name returns the book even when the given commit differs |
| Common.ParseFrontMatter | api/common.py:220-240 | the loop returns the lines collected by the toggle, joined by newlines |
| Common.FrontMatter | api/common.py:229-237 | every collected line is a line of the document, and no more lines are collected than the document has |
| Common.FrontMatterHasNoDelimiters | api/common.py:229-237 | no collected line strips to `---` |
| Common.FrontMatterNeedsOpening | api/common.py:229-237 | if the first line is not a delimiter, nothing is collected |
| Common.FrontMatterIgnoresTail | api/common.py:229-237 | scanning stops at the first non-delimiter line read with the toggle off: what follows does not matter |
| Common.ReportSections | api/common.py:202-212 | one section per report file, in listing order |
| Common.BookLogCollector | api/common.py:185-218 | the loop builds exactly the sections the specification function lists |
| Common.LogSections | api/common.py:185-218 | without a main log there is one section; with one there are two, plus one per report file |
| Common.LogsWithoutMainLog | api/common.py:215-217 | without a main log the result is only the could-not-find message, whatever the reports are |
| Common.BookExecutionErrored | api/common.py:174-183 | true exactly when the reports directory exists and lists some file |
| Common.LogSectionsMatchErrored | api/common.py:174-218 | with a main log: the build-log section first, the hint last, one section per report between, and report sections exactly when `book_execution_errored` holds |
| Preprint.ItemToRecordName | api/preprint.py:251-259 | exactly `data`, `repository`, `docker` and `book` have a record name |
| Preprint.RecordNamesDistinct | api/preprint.py:251-259 | different items have different record names |
| Preprint.UploadFileName | api/preprint.py:282-300 | an upload name exists exactly for the four known items |
| Preprint.UploadItemUrl | api/preprint.py:282-300 | an unknown item is not uploaded |
| Preprint.UploadItemUrlOf | api/preprint.py:282-300 | the target is `{bucket}/{record}_10.55458_NeuroLibre_{id:05d}_{commit[0:6]}.{ext}` |
| Preprint.ExtensionRule | api/preprint.py:289-292 | the name ends in `.tar.gz` exactly for `docker`, and in `.zip` for every other item |
| Preprint.BookUploadAgrees | api/preprint.py:261-270 | `zenodo_upload_book` puts to the same URL as `zenodo_upload_item` for `book` |
| Preprint.RepositoryUploadAgrees | api/preprint.py:272-280 | `zenodo_upload_repository` puts to the same URL as `zenodo_upload_item` for `repository` |
| Preprint.DockerSaveAgrees | api/preprint.py:147-150 | `docker_save` writes the image in the archive directory under the name it is uploaded as |
| Preprint.IssueDirectoriesDistinct | api/preprint.py:167-177 | different issues have different deposit and archive directories |
| Preprint.Description | api/preprint.py:37-67 | a description exists exactly for the four known archive types |
| Preprint.BucketMetadata | api/preprint.py:45-81 | title and creators are passed through; the keywords, the `isPartOf` relation to the preprint DOI and the contact person are fixed; a book is a preprint publication, data a dataset, a repository or docker image software; an unknown type has no upload type and no description, and only a book has a publication type |
| Preprint.DockerDescriptionNamesUpload | api/preprint.py:54-67 | the docker description names the very file `zenodo_upload_item` uploads, with the fork and user commit links |
| Preprint.DockerTextNamesFile | api/preprint.py:62-66 | the docker description's text contains the file name to load |
| Preprint.CreateBucket | api/preprint.py:19-83 | a request is made exactly when the URL parses and both commits resolve; its metadata carries the fixed keywords, the relation to the preprint DOI and the upload type of its kind; a missing response gives a refused reply carrying the fork's commit and URL, otherwise the reply is the response |
| Preprint.UploadedReceiptMatchesGlob | api/preprint.py:432 | an upload receipt matches the `_*` status glob exactly when the shortened commit has no `/` |
| Preprint.UploadedReceiptFound | api/preprint.py:432-435 | a written upload receipt makes the status check find the item uploaded |
| Preprint.ReceiptFlags | api/preprint.py:425-437 | one flag per deposit key, true exactly when that key has a matching receipt |
| Preprint.VerdictCases | api/preprint.py:439-447 | All iff every flag holds, None iff none holds, Some iff some do and some do not |
| Preprint.ConfirmStatusCases | api/preprint.py:409-447 | no record iff the deposit is missing or empty; otherwise exactly one of All/None/Some, by the receipts of the keys |
| Preprint.ConfirmStatusOf | api/preprint.py:409-447 | no record iff the deposit is missing or empty; All iff every key has its receipt; None iff no key has one |
| Preprint.DepositDirectory.constructor | api/preprint.py:449-457 | the directory holds the deposit record `get_zenodo_deposit` reads and the receipt files |
| Preprint.DepositDirectory.ConfirmStatus | api/preprint.py:409-447 | the loop over deposit keys returns the classification |
| Preprint.DepositDirectory.Publish | api/preprint.py:377-407 | publishing posts and writes receipts as the specification function says, and leaves the record alone |
| Preprint.DepositDirectory.PublishEntries | api/preprint.py:391-403 | the loop posts each key's publish link in order and adds exactly the receipts of accepted posts |
| Preprint.PublishOfVerdict | api/preprint.py:383-407 | no record: no calls; not all uploaded: one message and no calls; all uploaded: the publish run over the record |
| Preprint.PublishOf | api/preprint.py:377-407 | receipts are only ever added; no-record-found iff there is no record; a publish POST is made only when every key has its upload receipt, and the POSTs go to the publish links of the first keys, in key order |
| Preprint.PublishEachFails | api/preprint.py:391-392 | publishing finishes without an exception exactly when every entry holds a deposit with a publish link |
| Preprint.PublishEachPosts | api/preprint.py:391-403 | one POST per key, in key order, and two messages per key |
| Preprint.PublishEachPostsPrefix | api/preprint.py:391-403 | even when it stops at a value that is not a deposit, publishing has posted to the publish links of the first keys, in key order |
| Preprint.PublishEachWrites | api/preprint.py:396-401 | every key answered with 202 gets its published receipt |
| Preprint.PublishEachWritesOnly | api/preprint.py:396-401 | every receipt written belongs to a key answered with 202 |
| Preprint.PublishNeedsRecord | api/preprint.py:385-386 | without a record publishing returns no-record-found and makes no call |
| Preprint.PublishGatedOnAllUploaded | api/preprint.py:388-405 | if some key lacks an upload receipt, no publish call is made and the one message names None or Some |
| Preprint.PublishThenConfirmed | api/preprint.py:377-447 | receipt round trip: once every post is accepted, the published status is All |
| Preprint.TsvRecords | api/preprint.py:313-327 | parsing drops exactly the header row and fails on empty content |
| Preprint.ParseTsvContent | api/preprint.py:313-327 | the loop returns the rows after the header |
| Preprint.MatchingIndicesSorted | api/preprint.py:303-311 | the comprehension's indices are increasing and each names a row whose first column contains the URL |
| Preprint.MatchingIndicesFirst | api/preprint.py:303-311 | the first index is the first matching row; an empty list means no row matches |
| Preprint.FindResourceIdx | api/preprint.py:303-311 | the first row whose first column contains the URL, or None when none does; an empty row raises |
| Preprint.Zip | api/preprint.py:363-368 | the lookup pairs the fixed keys with the values, min of the two lengths |
| Preprint.FirstRecordIsMissed | api/preprint.py:361 | a URL in the first record is reported as not found |
| Preprint.GetResourceLookupFixed | api/preprint.py:329-375 | a lookup is found exactly when the request succeeds, no record is empty and some record after the header contains the URL; it is the first such record's fields zipped with the fixed keys, one to six of them |
| Preprint.GetResourceLookup | api/preprint.py:329-375 | the lookup as written fails exactly when the corrected one does, and any record it does report is the one the corrected lookup reports |
| Preprint.UploadRows | api/preprint.py:204-209 | the Data row is listed exactly when no data archive is recorded; every row names a known item |
| Preprint.UploadRowsFindReceipts | api/preprint.py:196-209 | each listed row's receipt starts with the `zenodo_uploaded_{item}` prefix the status check uses |
| Relay.Decode | api/neurolibre_celery_tasks.py:289-293 | a line without `": "` carries no event; an event is always the parse of what follows some `": "` of the line |
| Relay.FirstFailure | api/neurolibre_celery_tasks.py:295-303 | the first frame whose event has phase `failed`, with no failure before it |
| Relay.Wrap | api/neurolibre_celery_tasks.py:304-306 | each forwarded message enters the transcript as itself |
| Relay.Step | api/neurolibre_celery_tasks.py:289-314 | one frame is read, adding at most one yielded message and at most one notice |
| Relay.Run | api/neurolibre_celery_tasks.py:285-318 | a relay that has already failed is left as it is; otherwise it reads no more frames than it is given |
| Relay.BinderStream | api/neurolibre_celery_tasks.py:285-318 | the loop yields, notifies and reads as the relay function says, and removes the lock exactly when the build failed |
| Relay.StepFacts | api/neurolibre_celery_tasks.py:289-314 | one frame: a failure appends its message and one failure notice; a truthy message is forwarded and notifies only at 120 s or more since the last reset |
| Relay.RunStopsAtFailure | api/neurolibre_celery_tasks.py:295-303 | the run fails exactly when some frame fails, and reads no frame after the first failure |
| Relay.RunYields | api/neurolibre_celery_tasks.py:304-314 | the messages yielded are exactly the truthy messages before the first failure, in order |
| Relay.RunTranscript | api/neurolibre_celery_tasks.py:295-306 | the transcript is never cleared: every forwarded message, then the failure message (even None) |
| Relay.RunKeepsInvariant | api/neurolibre_celery_tasks.py:299-311 | every notice carries the transcript so far, progress notices are numbered in order, and a failure notice is last |
| Relay.RelayNotices | api/neurolibre_celery_tasks.py:285-318 | from a fresh start the notice invariant holds for any stream |
| Relay.NoProgressWithinTwoMinutes | api/neurolibre_celery_tasks.py:307-312 | frames within two minutes of the last reset add no progress notice |
| Relay.ComposeComment | api/neurolibre_celery_tasks.py:361-377 | the comment is assembled as the specification function says |
| Relay.CommentAt | api/neurolibre_celery_tasks.py:352-377 | the comment for a given commit announces a book exactly when the inventory holds a book at that commit |
| Relay.FinalComment | api/neurolibre_celery_tasks.py:352-377 | the comment announces a book exactly when the inventory holds a book at the payload's commit as given (`HEAD` is not resolved) |
| Relay.BuiltCommit | api/common.py:100-107 | the commit a build runs at: a commit other than `HEAD` as given, otherwise the commit `git ls-remote` resolves it to |
| Relay.FinalCommentResolved | api/neurolibre_celery_tasks.py:352-377 | the corrected comment announces a book exactly when the inventory holds a book at the built commit, and equals the original for any commit other than `HEAD` |
| Relay.HeadBuildNeverAnnouncesBook | api/neurolibre_celery_tasks.py:352 | a build requested at `HEAD` always gets the failure report, since the inventory names books by resolved commits; the corrected comment announces the book of the resolved commit exactly when it is there |
| Relay.FinalCommentCases | api/neurolibre_celery_tasks.py:361-377 | a found book gets its URL; otherwise the Binder log, the book logs and the debugging hint |
| Relay.PreviewBuildBookTask | api/neurolibre_celery_tasks.py:326-377 | the task runs preflight, stream, lookup, lock removal and comment as the specification function says |
| Relay.PreviewBuildOf | api/neurolibre_celery_tasks.py:326-377 | the task adds, removes or changes no lock file but the repository's own, and a comment is posted only when BinderHub's reply was ok and nothing raised |
| Relay.PreviewBuildUnfailed | api/neurolibre_celery_tasks.py:341-377 | after an admitted build whose stream does not fail, the lock is gone, the messages yielded are the stream's, and the comment, once composed, is posted |
| Relay.PreviewBuildFailed | api/neurolibre_celery_tasks.py:302-358 | after an admitted build whose stream fails, the task raises FileNotFoundError with the stream's messages and notices, posts nothing, and the lock is gone |
| Relay.PreviewBuildRefused | api/neurolibre_celery_tasks.py:333-337 | a refused preflight ends the task with its error and no request |
| Relay.PreviewBuildKeepsLockOnRefusedRequest | api/neurolibre_celery_tasks.py:341-342 | when BinderHub's reply is not ok the lock stays and nothing is posted |
| Relay.PreviewBuildFailedStreamRaises | api/neurolibre_celery_tasks.py:302-358 | after a failed build the second `os.remove` raises FileNotFoundError and no comment is posted |
| Relay.PreviewBuildReleasesLock | api/neurolibre_celery_tasks.py:341-377 | a build that does not fail removes the lock once and posts the comment for the messages yielded |
| Relay.PreviewBuildFixedAlwaysReleases | api/neurolibre_celery_tasks.py:354-358 | the corrected task removes the lock exactly once on every admitted path, raises nothing, comments exactly when the reply is ok, and agrees with the original on successful builds not requested at `HEAD` |
| Relay.PreviewBuildFixedOf | api/neurolibre_celery_tasks.py:326-377 | the corrected task also touches no lock file but the repository's own, and comments only when BinderHub's reply was ok and nothing raised; its comment is looked up at the built commit |
| Deposit.PyStr | api/neurolibre_celery_tasks.py:400-408 | `str()` of an affiliation index holds no comma unless it was a string |
| Deposit.AffiliationPairs | api/neurolibre_celery_tasks.py:400 | one `str(index)`/name pair per affiliation, in order |
| Deposit.AffiliationMappingLookup | api/neurolibre_celery_tasks.py:400 | in the dict comprehension the last affiliation with a given index wins |
| Deposit.AffiliationMappingMissing | api/neurolibre_celery_tasks.py:400-408 | a key is missing exactly when no affiliation has that index |
| Deposit.FirstIndexKey | api/neurolibre_celery_tasks.py:403-408 | an integer affiliation is used itself; a string gives its first comma field, unstripped; a missing or null affiliation raises |
| Deposit.FirstAffiliationsSucceed | api/neurolibre_celery_tasks.py:401-409 | the loop succeeds exactly when every author's first affiliation resolves, and then yields those names in author order |
| Deposit.FirstAffiliationsFail | api/neurolibre_celery_tasks.py:401-409 | the first author whose affiliation does not resolve decides the exception |
| Deposit.FirstAffiliations | api/neurolibre_celery_tasks.py:401-409 | the loop computes the specification function |
| Deposit.WithAffiliations | api/neurolibre_celery_tasks.py:411-412 | each author's affiliation becomes its first affiliation name; every other field is unchanged |
| Deposit.AssignAffiliations | api/neurolibre_celery_tasks.py:411-412 | the index loop performs that assignment |
| Deposit.MisspellsAnyCase | api/neurolibre_celery_tasks.py:425 | a field stands for a valid name whenever its lower-cased text contains the lower-cased name, in particular when it is the name in another letter case |
| Deposit.RenameTarget | api/neurolibre_celery_tasks.py:423-427 | the first valid name, in set iteration order, that the field misspells, or none when it misspells none |
| Deposit.FindRenameTarget | api/neurolibre_celery_tasks.py:423-427 | the inner loop with `break` returns that target |
| Deposit.InvalidFieldsSpec | api/neurolibre_celery_tasks.py:417-420 | the fields collected are exactly the author's keys outside `name`/`orcid`/`affiliation`, without repeats |
| Deposit.CollectInvalidFields | api/neurolibre_celery_tasks.py:417-420 | the loop collects them in key order |
| Deposit.RenameFrom | api/neurolibre_celery_tasks.py:422-430 | renaming keeps an author's keys distinct |
| Deposit.RenameFromKey | api/neurolibre_celery_tasks.py:422-430 | after renaming, a renamed field is gone and a valid field holds the value of the last field renamed onto it, else its own |
| Deposit.RenameOwnFields | api/neurolibre_celery_tasks.py:416-430 | renaming the author's own invalid fields gives the renamed view of the author |
| Deposit.NormaliseAuthorSpec | api/neurolibre_celery_tasks.py:416-433 | normalisation succeeds exactly when an `orcid` key remains, else raises KeyError; a None `orcid` is dropped and every other key keeps its renamed value |
| Deposit.DropNullOrcid | api/neurolibre_celery_tasks.py:432-433 | a missing `orcid` raises KeyError; a None one is dropped, any other is kept; every other key keeps its value and the keys stay distinct |
| Deposit.NoMisspelledFieldRemains | api/neurolibre_celery_tasks.py:422-430 | every key left is valid or misspells no valid name |
| Deposit.NormaliseFields | api/neurolibre_celery_tasks.py:416-433 | the loops normalise one author as the specification function says |
| Deposit.NormaliseAllSpec | api/neurolibre_celery_tasks.py:416-433 | normalising all authors succeeds exactly when each one does, and then gives each author's normal form in order |
| Deposit.NormaliseAuthors | api/neurolibre_celery_tasks.py:416-433 | the outer loop computes that |
| Deposit.WithoutReason | api/neurolibre_celery_tasks.py:452 | `remove_dict` is exactly the collected entries without a reason |
| Deposit.Opening | api/neurolibre_celery_tasks.py:387-394 | the task always starts with a started notice |
| Deposit.CreatingNotices | api/neurolibre_celery_tasks.py:436-437 | one started notice per requested asset, in order |
| Deposit.RepliesFromCreates | api/neurolibre_celery_tasks.py:438-443 | a create call never answers with a delete status |
| Deposit.FirstRaise | api/neurolibre_celery_tasks.py:436-445 | the first create call that raises, with none before it |
| Deposit.CollectFrom | api/neurolibre_celery_tasks.py:436-445 | the loop raises exactly when some create call raises, and then with the first call's exception; it requests at least nothing and at most every asset left |
| Deposit.RequestedEnd | api/neurolibre_celery_tasks.py:436-445 | the loop stops within the assets left |
| Deposit.CollectRequests | api/neurolibre_celery_tasks.py:436-445 | one create call per asset, in order, up to and including the first that raises |
| Deposit.CollectKeys | api/neurolibre_celery_tasks.py:436-445 | without an exception the collected keys are exactly the requested assets |
| Deposit.CollectReplies | api/neurolibre_celery_tasks.py:436-445 | the collection holds only create replies |
| Deposit.SelfLinks | api/neurolibre_celery_tasks.py:453-455 | the self link of each entry to delete, in order |
| Deposit.RollbackFrom | api/neurolibre_celery_tasks.py:451-458 | the rollback raises exactly when some value to delete is not a deposit, and then a TypeError; it only appends, at most one deletion per entry |
| Deposit.RollbackDeletes | api/neurolibre_celery_tasks.py:453-458 | the rollback deletes every entry's self link once, in order, never checking the result |
| Deposit.RollbackKeys | api/neurolibre_celery_tasks.py:453-458 | the rollback adds exactly one `<type>_deleted` key per deleted entry |
| Deposit.BucketsRequests | api/neurolibre_celery_tasks.py:436-445 | the assets requested are a prefix of the assets, all of them when every call answers |
| Deposit.BucketsCreated | api/neurolibre_celery_tasks.py:436-445 | when every call answers, the collected keys are exactly the assets |
| Deposit.BucketsUnanswered | api/neurolibre_celery_tasks.py:438-443 | a create call that raises ends the task with nothing deleted and no record written |
| Deposit.BucketsWritten | api/neurolibre_celery_tasks.py:447-465 | with no reason the record written is exactly the collection and a success notice ends the run; otherwise the record is untouched |
| Deposit.BucketsRolledBack | api/neurolibre_celery_tasks.py:447-459 | with some reason, exactly the reasonless buckets are deleted and marked `_deleted`, no record is written, and a failure notice ends the run |
| Deposit.RequestsRolledBack | api/neurolibre_celery_tasks.py:447-459 | the same rollback facts for the requests alone, before the opening notices |
| Deposit.RequestsCreated | api/neurolibre_celery_tasks.py:435-465 | after the creation loop the run reports exactly what the loop collected |
| Deposit.Requests | api/neurolibre_celery_tasks.py:435-465 | a record is written only when nothing raised, and it is the collection |
| Deposit.BucketsOutcome | api/neurolibre_celery_tasks.py:387-465 | the run starts with the opening notices, and the record changes only when nothing raised, to the collection |
| Deposit.CreateBucketsOf | api/neurolibre_celery_tasks.py:380-465 | the task always starts with a started notice and the opening notices; the record changes only when nothing raised, to the collection |
| Deposit.ExistingRecordDoesNotShortCircuit | api/neurolibre_celery_tasks.py:389-395 | an existing record only adds an exists notice; the buckets are still created and the record may be overwritten |
| Deposit.AuthorsBeforeRequests | api/neurolibre_celery_tasks.py:397-445 | an author that cannot be normalised fails the task before any bucket is requested; otherwise the buckets are made from the normalised authors |
| Deposit.PrepareAuthors | api/neurolibre_celery_tasks.py:397-433 | the author preparation loops compute the specification function |
| Deposit.RequestBuckets | api/neurolibre_celery_tasks.py:435-445 | the creation loop fills `collect` as the specification function says |
| Deposit.Rollback | api/neurolibre_celery_tasks.py:451-458 | the deletion loop follows the specification function |
| Deposit.CreateBucketsTask | api/neurolibre_celery_tasks.py:380-465 | the task writes the record as the specification function says and writes no receipt |
| Upload.UploadBookTask | api/neurolibre_celery_tasks.py:468-498 | the task adds the receipt and posts the notices as the specification function says, leaving the deposit record alone |
| Upload.BookUploadName | api/neurolibre_celery_tasks.py:484-487 | the archive's base name plus `.zip` is the book's upload name |
| Upload.BookArchiveIsUploadName | api/neurolibre_celery_tasks.py:484-489 | the zip lies in the archive directory and is put to the bucket under the same name |
| Upload.ArchiveNamedAsUpload | api/neurolibre_celery_tasks.py:477-489 | in every successful run, the archive on disk and the file put into the bucket carry the book's upload name |
| Upload.UploadLeavesReceipt | api/neurolibre_celery_tasks.py:491-497 | a receipt is added exactly when Zenodo accepts, no receipt is removed, and the status check then finds the book uploaded |
| Upload.UploadBookOf | api/neurolibre_celery_tasks.py:468-498 | a run starts with a started notice; one that raises posts nothing more, puts nothing and leaves the receipts alone; otherwise the archive is put and a second notice says success exactly when Zenodo accepted; receipts are only added, and only on acceptance |
| Fork.SetSectionSpec | api/neurolibre_celery_tasks.py:235-244 | a falsy section becomes `{}`, the key is set and the other sections are unchanged; a missing section raises KeyError |
| Fork.ConfigureBookSpec | api/neurolibre_celery_tasks.py:235-244 | the config points `binderhub_url` at the production hub and `repository.url` at the fork, changing nothing else |
| Fork.AppendIfPresentSpec | api/neurolibre_celery_tasks.py:254-267 | an entry is appended to a list that is present; other keys are unchanged |
| Fork.AddCitableEntriesSpec | api/neurolibre_celery_tasks.py:254-273 | exactly one citable entry goes to `parts` and `chapters` when present, and to `sections` only for `jb-article`; a missing `format` raises KeyError |
| Fork.SetSection | api/neurolibre_celery_tasks.py:235-244 | a missing section raises KeyError and a non-mapping one TypeError; otherwise the keys are unchanged and the section maps the key to the value |
| Fork.ConfigureBook | api/neurolibre_celery_tasks.py:235-244 | the edits raise only KeyError or TypeError, KeyError when `launch_buttons` is missing, and keep the config's keys |
| Fork.AppendIfPresent | api/neurolibre_celery_tasks.py:254-267 | appending raises only AttributeError and keeps the keys |
| Fork.AddCitableEntries | api/neurolibre_celery_tasks.py:254-273 | the edits raise only KeyError or AttributeError; a success needs a `format` key and keeps the keys |
| Fork.CitableEntriesShareUrl | api/neurolibre_celery_tasks.py:258-271 | all entries use `https://neurolibre.org/papers/10.55458/neurolibre.{id:05d}` |
| Fork.PollsSpec | api/neurolibre_celery_tasks.py:206-216 | at most five polls; the fork is found exactly when some poll finds it, at the first poll that does |
| Fork.Polls | api/neurolibre_celery_tasks.py:206-216 | a poll that finds the fork is within the five and answers yes; otherwise all five polls were made |
| Fork.WaitForFork | api/neurolibre_celery_tasks.py:206-216 | the while loop computes the polling function |
| Fork.GiveUpIffNotFound | api/neurolibre_celery_tasks.py:218-221 | the task gives up exactly when none of the five polls finds the fork |
| Fork.EditConfig | api/neurolibre_celery_tasks.py:235-244 | the in-place edits produce the configured book |
| Fork.EditToc | api/neurolibre_celery_tasks.py:254-273 | the in-place edits produce the augmented TOC |
| Fork.ForkConfigureTask | api/neurolibre_celery_tasks.py:176-283 | the task follows the specification function |
| Fork.ConfigureFork | api/neurolibre_celery_tasks.py:227-283 | the configuration half follows its specification function |
| Fork.ForkTaskOf | api/neurolibre_celery_tasks.py:176-283 | the task starts with a started notice and polls at most five times; the TOC is sent only after the config, and a file is sent only once the fork is available and both files loaded non-empty |
| Fork.ConfigureRun | api/neurolibre_celery_tasks.py:227-283 | the configuring part adds at most one notice after the ready ones, none when it raises, and sends the TOC only after the config was saved |
| Fork.ConfigureRunEnds | api/neurolibre_celery_tasks.py:227-283 | the configuring part ends in one of four ways: an exception, config not saved, TOC not saved, or configured; what is sent is the loaded file edited |
| Fork.ForkGivesUp | api/neurolibre_celery_tasks.py:198-221 | the task reports an unavailable fork exactly when it was not there, did not fail to fork and never appeared, and then sends no file |
| Fork.GiveUpNotice | api/neurolibre_celery_tasks.py:198-221 | the give-up notice is sent exactly on the give-up path, and then no file is sent |
| Fork.ForkSendsEditedFiles | api/neurolibre_celery_tasks.py:227-283 | the files sent are the loaded files edited; the TOC is sent only after the config was saved; success is reported exactly when the TOC was saved |
| Fork.DoiPathIs | api/neurolibre_celery_tasks.py:154-155 | the DOI directory is `/DATA/10.55458/neurolibre.{id:05d}` |
| Fork.LinksFor | api/neurolibre_celery_tasks.py:160-166 | one symlink per listed item |
| Fork.LinksForTargets | api/neurolibre_celery_tasks.py:160-166 | each item of the book is linked from the DOI directory under its own name, as a directory link exactly for directories |
| Fork.Symlinks | api/neurolibre_celery_tasks.py:160-166 | the loop stops at its first failing `os.symlink`: it raises exactly when fewer links than items were made, FileNotFoundError with no link when the DOI directory is missing, FileExistsError otherwise |
| Fork.SymlinksMakePrefix | api/neurolibre_celery_tasks.py:160-166 | the links made are those of the first items of the listing, in order |
| Fork.FreshNamesCons | api/neurolibre_celery_tasks.py:160-166 | a listing's names are fresh exactly when its first name is not in the directory and the rest are fresh once it is added |
| Fork.SymlinksSucceedIffFresh | api/neurolibre_celery_tasks.py:160-166 | in an existing DOI directory the loop links every item exactly when no name is already there or listed twice; otherwise it raises FileExistsError |
| Fork.SymlinksIntoDoiPath | api/neurolibre_celery_tasks.py:153-166 | each link made points `/DATA/10.55458/neurolibre.{id:05d}/<name>` at the item of the book with that name |
| Fork.SymlinksAt | api/neurolibre_celery_tasks.py:160-166 | one turn of the loop: it raises, or links the item and records its name |
| Fork.SymlinkBook | api/neurolibre_celery_tasks.py:160-166 | the loop makes those links and raises as the specification function says |
| Fork.RsyncBookTask | api/neurolibre_celery_tasks.py:106-175 | the transfer follows the specification function, including an exception from `os.symlink` after the started notice |
| Fork.RsyncBookOf | api/neurolibre_celery_tasks.py:106-175 | an exception before the transfer posts and links nothing, one from `os.symlink` leaves only the started notice; at most two notices; a remote path exists exactly when the transfer-started notice is posted; the success comment means every item was linked into an existing DOI directory; the failure comment carries rsync's output (its standard output and error) and comes only with nothing to link |
| Fork.OwnerGate | api/neurolibre_celery_tasks.py:121-128 | a repository outside `roboneurolibre` is refused before any transfer; a remote path exists exactly for an owned repository whose commit resolves |
| Fork.LinksUnderDoiPath | api/neurolibre_celery_tasks.py:147-166 | links are made only when the book is found at the commit; they are those of the first listed items, and point the DOI directory at the book's built HTML |
| Fork.SyncedExactlyWhenFresh | api/neurolibre_celery_tasks.py:147-175 | once the book is found, success is reported exactly when the DOI directory exists and none of the book's names is in it yet; a re-run raises FileExistsError after the started notice and posts no closing comment; a missing DOI directory and a non-empty book raise FileNotFoundError with no link |
| CommonApi.ApiGetBooks | api/neurolibre_common_api.py:16-23 | 404 exactly when the inventory is empty; otherwise 200 with the whole inventory |
| CommonApi.ApiGetBookStatus | api/neurolibre_common_api.py:35-47 | 400 iff all parameters are falsy; 404 iff some is truthy and the lookup is empty; otherwise the lookup itself, a non-empty, order-preserving selection matching the first parameter that is not None |
| CommonApi.ApiGetBook | api/neurolibre_common_api.py:35-47 | the endpoint aborts only with 400 or 404; a reply is a non-empty list of inventory books, no longer than the inventory |
| CommonApi.EmptyUserNameShadowsCommit | api/neurolibre_common_api.py:37-41 | an empty user name passes the truthiness guard, then filters on the empty name, so a book findable by its commit gets a 404 |

## Left out

- Flask routing, authentication and the Celery plumbing (`apply_async`, `update_state`, `revoke`) are not modelled. A revoke is modelled as the task returning.
- Subprocesses are not modelled: rsync, docker login/pull/save, `mkdir`, `shutil.make_archive` and `execute_subprocess`. Their outcomes are parameters.
- Network calls are parameters. This covers Zenodo (`zenodo_delete_bucket` is the `deletes` parameter), BinderHub, GitHub and `git ls-remote`.
- `send_email` and its variants send mail through SendGrid and are not modelled.
- `zenodo_collect_dois` is not modelled. It indexes a glob's list of paths with a string, and its `_*` pattern never matches the published receipt name.
- Parsing is not modelled. YAML, JSON and CSV parsing, and the JSON decoding of BinderHub events, are given as parsed values.
- `binder_stream` decodes each line as UTF-8 outside its `try`. A line that is not UTF-8 raises out of the generator and the lock stays held. The model takes lines as already decoded.
- `binder_stream` ends its `try` with a bare `except: pass`. That clause also swallows a failing `gh_template_respond` or `os.remove` on the failure branch; the loop then goes on reading with the lock possibly still held. The model treats these calls as succeeding.
- The iteration order of the `valid_field_names` set is the parameter `order`.
- `str.lower()` is modelled on ASCII only (`Strings.Lower`). Python also folds non-ASCII letters. Only two of those fold to something holding an ASCII letter: the Kelvin sign gives `k`, and a dotted capital I gives `i` plus a combining dot. Neither can complete `name`, `orcid`, `affiliation` or `orchid`, so the misspelling test is unaffected.
- Floating point is not modelled. Lock ages are integer seconds. The remaining time is in tenths of a minute, rounded half up from the exact quotient of integer seconds. Python's `round` works on the binary float `limit - age/60` and may round a tie the other way (a 30-minute limit and an age of 3 s give 29.9 in Python and 300 tenths here). Size formatting in `zenodo_get_status` is left out.
- Only the row selection of `zenodo_get_status` is modelled (`Preprint.UploadRows`). Its HTML table and its Zenodo status calls are not.
- `get_deposit_dir` and `get_archive_dir` create directories; only the names they return are modelled.
- `get_zenodo_deposit` is the `deposit` field of `Preprint.DepositDirectory`. It is `None` when the file is absent.
- A receipt is its file name in the `receipts` set. Its JSON content is not modelled.
- The HTML texts of the descriptions, notices and comments are datatypes with separate text functions. The relay's notices carry the transcript, not its HTML rendering.
- The check-then-write race between the lock check and the lock creation is not modelled; the model is sequential. So is the GeneratorExit handling of `binder_stream`.
- Time is not modelled: `time.sleep` pacing, `time.time()` (frame timestamps are given) and `get_time`.
- `sleep_task` is not modelled.
- `rsync_data_task` is not modelled; it is outside the modelled core.
- Fork.RsyncBookOf: `os.symlink` fails only on a missing DOI directory (FileNotFoundError) or a name already present (FileExistsError). Permission and other operating-system errors are not modelled. Neither are a failing `open` of the sync log, rsync's exit status (its effect is the inventory given after the transfer) or the `update_state` messages.
- Fork.RsyncBookTask: follows `Fork.RsyncBookOf` and leaves out the same failures.
- Common.LockStatusOf: for a lock whose time lies in the future, the remaining time is only shown to be a natural number, not bounded by the limit.
- Preprint.DockerDescriptionNamesUpload: the fact is stated on the description datatype. That the rendered HTML contains the file name is stated separately, on the docker text (`Preprint.DockerTextNamesFile`).

## Findings

| source | as written | input that shows it | evidently intended | confidence | as-written member | corrected member |
|---|---|---|---|---|---|---|
| api/preprint.py:361 | `if idx:` treats a match at index 0 as not found | a lookup file whose first record after the header contains the URL | `if idx is not None:` so that the first record is found | not executed; high | Preprint.FirstRecordIsMissed | Preprint.GetResourceLookupFixed |
| api/neurolibre_celery_tasks.py:358 | the lock is removed again after the stream, but a failed build already removed it at line 302 | a BinderHub stream with an event whose phase is `failed` | remove the lock once; the task then ends normally and posts its comment | not executed; high | Relay.PreviewBuildFailedStreamRaises | Relay.PreviewBuildFixedAlwaysReleases |
| api/neurolibre_celery_tasks.py:352 | the book is looked up, and its logs collected, at the payload's commit as given, which may be `HEAD` | a preview request at `HEAD` whose build succeeds; the inventory names the book by its resolved commit | look the book up at the commit the preflight resolved and BinderHub built | not executed; medium | Relay.HeadBuildNeverAnnouncesBook | Relay.FinalCommentResolved |
| api/neurolibre_celery_tasks.py:342 | the lock is released only inside `if response.ok:` | BinderHub answers the build request with a non-ok status | remove the lock either way, as the comment at lines 354-357 says | not executed; medium | Relay.PreviewBuildKeepsLockOnRefusedRequest | Relay.PreviewBuildFixedAlwaysReleases |
