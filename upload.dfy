/** zenodo_upload_book_task: zip the built book of the roboneurolibre fork,
    put it into the Zenodo bucket, and leave an upload receipt in the
    deposit directory when Zenodo accepts it. */
module Upload {
  import opened Results
  import opened Strings
  import opened Common
  import opened Preprint

  /** The notifications of the task. */
  datatype Notice =
    | Started
    | CannotUpload(zpath: string, bucketUrl: string)
    | UploadSucceeded(zpath: string, bucketUrl: string)

  /** What a run did: the exception it ended with, its notifications, and
      the commit of the fork, the directory zipped, the archive written and
      the bucket URL the archive was put to, once they are known. */
  datatype UploadRun = UploadRun(error: Option<Error>, notices: seq<Notice>, commit: Option<string>,
                                 source: Option<string>, zpath: Option<string>, put: Option<string>)

  /** The HTML build of the fork at `commitFork`. */
  function BookSource(p: Project, commitFork: string): string {
    "/DATA/book-artifacts/roboneurolibre/" + p.provider + "/" + p.repo + "/" + commitFork + "/_build/html"
  }

  /** The base name of the book archive, without its extension. */
  function BookArchiveName(issueId: nat, commitFork: string): string {
    "JupyterBook_10.55458_NeuroLibre_" + Pad5(issueId) + "_" + Take(commitFork, 6)
  }

  /** The zip `shutil.make_archive` writes under the archive directory. */
  function BookArchive(issueId: nat, commitFork: string): string {
    PathJoin(ArchiveDir(issueId), BookArchiveName(issueId, commitFork)) + ".zip"
  }

  /** The task as a value, over the receipts of the deposit directory:
      `lsRemote` gives the `git ls-remote` listing of a URL, `accepted`
      whether Zenodo accepted the upload. */
  function UploadBookOf(receipts: set<string>, issueId: nat, repoUrl: string, bucketUrl: string,
                        lsRemote: string -> string, accepted: bool): (res: (UploadRun, set<string>))
    ensures res.0.notices != [] && res.0.notices[0] == Started
    ensures res.0.error.Some? ==> res.0.notices == [Started] && res.1 == receipts && res.0.put.None?
    ensures res.0.error.None? ==>
              && |res.0.notices| == 2 && res.0.put.Some?
              && (res.0.notices[1].UploadSucceeded? <==> accepted)
    ensures receipts <= res.1 && (res.1 != receipts ==> accepted && res.0.error.None?)
  {
    match GetOwnerRepoProvider(repoUrl, true)
    case Err(e) => (UploadRun(Some(e), [Started], None, None, None, None), receipts)
    case Ok(p) =>
      match CommitOf("HEAD", lsRemote(ForkUrl(p)))
      case Err(e) => (UploadRun(Some(e), [Started], None, None, None, None), receipts)
      case Ok(c) =>
        var zpath := BookArchive(issueId, c);
        var run := UploadRun(None, [Started], Some(c), Some(BookSource(p, c)), Some(zpath),
                             Some(UploadBookUrl(bucketUrl, issueId, c)));
        if accepted then
          (run.(notices := run.notices + [UploadSucceeded(zpath, bucketUrl)]), receipts + {UploadedReceipt("book", issueId, c)})
        else
          (run.(notices := run.notices + [CannotUpload(zpath, bucketUrl)]), receipts)
  }

  /** zenodo_upload_book_task over the deposit directory of its issue. */
  method UploadBookTask(dir: DepositDirectory, repoUrl: string, bucketUrl: string,
                        lsRemote: string -> string, accepted: bool) returns (run: UploadRun)
    modifies dir
    ensures (run, dir.receipts) == UploadBookOf(old(dir.receipts), dir.issueId, repoUrl, bucketUrl, lsRemote, accepted)
    ensures dir.deposit == old(dir.deposit)
  {
    var notices := [Started];
    var parsed := GetOwnerRepoProvider(repoUrl, true);
    if parsed.Err? {
      return UploadRun(Some(parsed.error), notices, None, None, None, None);
    }
    var p := parsed.value;
    var commit := FormatCommitHash("HEAD", lsRemote(ForkUrl(p)));
    if commit.Err? {
      return UploadRun(Some(commit.error), notices, None, None, None, None);
    }
    var c := commit.value;
    var zpath := BookArchive(dir.issueId, c);
    var put := UploadBookUrl(bucketUrl, dir.issueId, c);
    if !accepted {
      notices := notices + [CannotUpload(zpath, bucketUrl)];
    } else {
      dir.receipts := dir.receipts + {UploadedReceipt("book", dir.issueId, c)};
      notices := notices + [UploadSucceeded(zpath, bucketUrl)];
    }
    run := UploadRun(None, notices, Some(c), Some(BookSource(p, c)), Some(zpath), Some(put));
  }

  /** The book's upload name is the archive's base name with `.zip`. */
  lemma BookUploadName(issueId: nat, commitFork: string)
    ensures UploadFileName("book", issueId, commitFork) == Some(BookArchiveName(issueId, commitFork) + ".zip")
  {
    RegroupStem("JupyterBook", "_10.55458_NeuroLibre_", Pad5(issueId), "_", Take(commitFork, 6), ".", "zip");
    BookStemPrefix();
    ZipSuffix();
  }

  lemma BookStemPrefix()
    ensures "JupyterBook" + "_10.55458_NeuroLibre_" == "JupyterBook_10.55458_NeuroLibre_"
  {
  }

  /** The archive lies directly in the archive directory. */
  lemma BookArchiveInDir(issueId: nat, commitFork: string)
    ensures BookArchive(issueId, commitFork) == ArchiveDir(issueId) + "/" + (BookArchiveName(issueId, commitFork) + ".zip")
  {
    var dir, base := ArchiveDir(issueId), BookArchiveName(issueId, commitFork);
    assert base[0] == 'J';
    var p := Pad5(issueId);
    assert dir[|dir| - 1] == p[|p| - 1];
    assert PathJoin(dir, base) == dir + "/" + base;
    AppendAssoc(dir + "/", base, ".zip");
  }

  /** The zip and the bucket target of a commit carry the file name
      zenodo_upload_item gives a `book`. */
  lemma BookArchiveIsUploadName(issueId: nat, commitFork: string, bucketUrl: string)
    ensures var name := UploadFileName("book", issueId, commitFork).value;
            && BookArchive(issueId, commitFork) == ArchiveDir(issueId) + "/" + name
            && UploadBookUrl(bucketUrl, issueId, commitFork) == bucketUrl + "/" + name
  {
    BookUploadName(issueId, commitFork);
    BookArchiveInDir(issueId, commitFork);
    BookUploadAgrees(bucketUrl, issueId, commitFork);
  }

  /** The archive on disk and the file put into the bucket carry the same
      name. */
  lemma ArchiveNamedAsUpload(receipts: set<string>, issueId: nat, repoUrl: string, bucketUrl: string,
                             lsRemote: string -> string, accepted: bool)
    ensures var run := UploadBookOf(receipts, issueId, repoUrl, bucketUrl, lsRemote, accepted).0;
            run.error.None? ==>
              && run.commit.Some? && run.zpath.Some? && run.put.Some?
              && var name := UploadFileName("book", issueId, run.commit.value).value;
                 && run.zpath.value == ArchiveDir(issueId) + "/" + name
                 && run.put.value == bucketUrl + "/" + name
  {
    var run := UploadBookOf(receipts, issueId, repoUrl, bucketUrl, lsRemote, accepted).0;
    if run.error.None? {
      BookArchiveIsUploadName(issueId, run.commit.value, bucketUrl);
    }
  }

  /** A receipt is written exactly when the upload is accepted, and the
      status glob of zenodo_confirm_status then finds the book uploaded
      (unless the shortened commit holds a `/`). No receipt is removed. */
  lemma UploadLeavesReceipt(receipts: set<string>, issueId: nat, repoUrl: string, bucketUrl: string,
                            lsRemote: string -> string, accepted: bool)
    ensures var (run, after) := UploadBookOf(receipts, issueId, repoUrl, bucketUrl, lsRemote, accepted);
            && receipts <= after
            && (after != receipts ==> accepted && run.error.None?)
            && (accepted && run.error.None? ==>
                  && run.commit.Some?
                  && after == receipts + {UploadedReceipt("book", issueId, run.commit.value)}
                  && (NoSlash(Take(run.commit.value, 6)) ==> HasReceipt(after, "book", issueId, Uploaded)))
  {
    var (run, after) := UploadBookOf(receipts, issueId, repoUrl, bucketUrl, lsRemote, accepted);
    if accepted && run.error.None? {
      if NoSlash(Take(run.commit.value, 6)) {
        UploadedReceiptFound(after, "book", issueId, run.commit.value);
      }
    }
  }
}
