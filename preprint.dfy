/** api/preprint.py: the names under which the archives of a preprint are
    uploaded to Zenodo, the metadata of a new Zenodo deposit, the per-issue
    deposit directory with its receipt files (upload/publish status and
    publishing), and the helpers that read the preview server's lookup table.

    HTTP replies and `git ls-remote` output are parameters. The per-issue
    directory `/DATA/zenodo_records/{id:05d}` is an object holding the loaded
    deposit record and the names of the receipt files beside it. */
module Preprint {
  import opened Results
  import opened Strings
  import opened Dicts
  import opened Common

  // ---------------------------------------------------------------------
  // Archive names
  // ---------------------------------------------------------------------

  /** item_to_record_name: the Zenodo file prefix of each archive kind. */
  function ItemToRecordName(item: string): (r: Option<string>)
    ensures r.Some? <==> item == "data" || item == "repository" || item == "docker" || item == "book"
  {
    if item == "data" then Some("Dataset")
    else if item == "repository" then Some("GitHubRepo")
    else if item == "docker" then Some("DockerImage")
    else if item == "book" then Some("JupyterBook")
    else None
  }

  /** No two archive kinds share a record name. */
  lemma RecordNamesDistinct(a: string, b: string)
    requires ItemToRecordName(a).Some? && ItemToRecordName(a) == ItemToRecordName(b)
    ensures a == b
  {
  }

  function Extension(item: string): string {
    if item == "docker" then "tar.gz" else "zip"
  }

  /** The file name an archive is uploaded under:
      `{record}_10.55458_NeuroLibre_{id:05d}_{commit[0:6]}.{ext}`. */
  function UploadFileName(item: string, issueId: nat, commitFork: string): (r: Option<string>)
    ensures r.Some? <==> ItemToRecordName(item).Some?
  {
    match ItemToRecordName(item)
    case None => None
    case Some(record) =>
      Some(record + "_10.55458_NeuroLibre_" + Pad5(issueId) + "_" + Take(commitFork, 6) + "." + Extension(item))
  }

  /** zenodo_upload_item: the PUT target in the bucket, or None when the item
      is unknown and nothing is uploaded. */
  function UploadItemUrl(bucketUrl: string, issueId: nat, commitFork: string, item: string): (r: Option<string>)
    ensures r.Some? <==> ItemToRecordName(item).Some?
  {
    match UploadFileName(item, issueId, commitFork)
    case None => None
    case Some(name) => Some(bucketUrl + "/" + name)
  }

  /** zenodo_upload_book: the PUT target of the book archive. */
  function UploadBookUrl(bucketUrl: string, issueId: nat, commitFork: string): string {
    bucketUrl + "/JupyterBook_10.55458_NeuroLibre_" + Pad5(issueId) + "_" + Take(commitFork, 6) + ".zip"
  }

  /** zenodo_upload_repository: the PUT target of the repository archive. */
  function UploadRepositoryUrl(bucketUrl: string, issueId: nat, commitFork: string): string {
    bucketUrl + "/GitHubRepo_10.55458_NeuroLibre_" + Pad5(issueId) + "_" + Take(commitFork, 6) + ".zip"
  }

  /** get_archive_dir */
  function ArchiveDir(issueId: nat): string {
    "/DATA/zenodo/" + Pad5(issueId)
  }

  /** get_deposit_dir */
  function DepositDir(issueId: nat): string {
    "/DATA/zenodo_records/" + Pad5(issueId)
  }

  /** The file docker_save writes the gzipped image to. */
  function DockerSaveName(issueId: nat, commitFork: string): string {
    var record := ItemToRecordName("docker").value;
    PathJoin(ArchiveDir(issueId), record + "_10.55458_NeuroLibre_" + Pad5(issueId) + "_" + Take(commitFork, 6) + ".tar.gz")
  }

  lemma UploadItemUrlOf(bucketUrl: string, issueId: nat, commitFork: string, item: string, record: string, ext: string)
    requires ItemToRecordName(item) == Some(record) && Extension(item) == ext
    ensures UploadItemUrl(bucketUrl, issueId, commitFork, item) ==
      Some(bucketUrl + "/" + (record + "_10.55458_NeuroLibre_" + Pad5(issueId) + "_" + Take(commitFork, 6) + "." + ext))
  {
  }

  lemma BookNamePrefix()
    ensures "/" + "JupyterBook" + "_10.55458_NeuroLibre_" == "/JupyterBook_10.55458_NeuroLibre_"
  {
  }

  lemma RepositoryNamePrefix()
    ensures "/" + "GitHubRepo" + "_10.55458_NeuroLibre_" == "/GitHubRepo_10.55458_NeuroLibre_"
  {
  }

  lemma ZipSuffix()
    ensures "." + "zip" == ".zip"
  {
  }

  lemma TarGzSuffix()
    ensures "." + "tar.gz" == ".tar.gz"
  {
  }

  lemma DockerNamePrefix()
    ensures "DockerImage" + "_10.55458_NeuroLibre_" == "DockerImage_10.55458_NeuroLibre_"
  {
  }

  /** zenodo_upload_book uploads under the name of the generic rule. */
  lemma BookUploadAgrees(bucketUrl: string, issueId: nat, commitFork: string)
    ensures UploadItemUrl(bucketUrl, issueId, commitFork, "book") == Some(UploadBookUrl(bucketUrl, issueId, commitFork))
  {
    var p, t := Pad5(issueId), Take(commitFork, 6);
    UploadItemUrlOf(bucketUrl, issueId, commitFork, "book", "JupyterBook", "zip");
    RegroupName(bucketUrl, "/", "JupyterBook", "_10.55458_NeuroLibre_", p, "_", t, ".", "zip");
    BookNamePrefix();
    ZipSuffix();
  }

  /** zenodo_upload_repository uploads under the name of the generic rule. */
  lemma RepositoryUploadAgrees(bucketUrl: string, issueId: nat, commitFork: string)
    ensures UploadItemUrl(bucketUrl, issueId, commitFork, "repository") == Some(UploadRepositoryUrl(bucketUrl, issueId, commitFork))
  {
    var p, t := Pad5(issueId), Take(commitFork, 6);
    UploadItemUrlOf(bucketUrl, issueId, commitFork, "repository", "GitHubRepo", "zip");
    RegroupName(bucketUrl, "/", "GitHubRepo", "_10.55458_NeuroLibre_", p, "_", t, ".", "zip");
    RepositoryNamePrefix();
    ZipSuffix();
  }

  /** docker_save writes the image under the name it is later uploaded as. */
  lemma DockerSaveAgrees(issueId: nat, commitFork: string)
    ensures DockerSaveName(issueId, commitFork) == PathJoin(ArchiveDir(issueId), UploadFileName("docker", issueId, commitFork).value)
  {
    DockerFileName(issueId, commitFork);
  }

  /** Only the docker image is a `.tar.gz`; every other archive is a `.zip`. */
  lemma ExtensionRule(item: string, issueId: nat, commitFork: string)
    requires ItemToRecordName(item).Some?
    ensures EndsWith(UploadFileName(item, issueId, commitFork).value, ".tar.gz") <==> item == "docker"
    ensures item != "docker" ==> EndsWith(UploadFileName(item, issueId, commitFork).value, ".zip")
  {
    var name := UploadFileName(item, issueId, commitFork).value;
    var stem := ItemToRecordName(item).value + "_10.55458_NeuroLibre_" + Pad5(issueId) + "_" + Take(commitFork, 6);
    assert name == stem + "." + Extension(item);
    if item == "docker" {
      assert name[|name| - 7..] == ".tar.gz";
    } else {
      assert name[|name| - 4..] == ".zip";
      assert name[|name| - 1] == 'p';
    }
  }

  /** Two issues never share a deposit or archive directory. */
  lemma IssueDirectoriesDistinct(a: nat, b: nat)
    ensures DepositDir(a) == DepositDir(b) ==> a == b
    ensures ArchiveDir(a) == ArchiveDir(b) ==> a == b
  {
    var rp, ap := "/DATA/zenodo_records/", "/DATA/zenodo/";
    assert Pad5(a) == DepositDir(a)[|rp|..] && Pad5(b) == DepositDir(b)[|rp|..];
    assert Pad5(a) == ArchiveDir(a)[|ap|..] && Pad5(b) == ArchiveDir(b)[|ap|..];
    if Pad5(a) == Pad5(b) {
      Pad5Injective(a, b);
    }
  }

  // ---------------------------------------------------------------------
  // Deposit metadata (zenodo_create_bucket)
  // ---------------------------------------------------------------------

  datatype Related = Related(relation: string, identifier: string, resourceType: string)

  datatype Contributor = Contributor(name: string, affiliation: string, kind: string)

  /** The `metadata` object posted to create a deposit; keys the source does
      not set for an archive kind are None. */
  datatype Metadata = Metadata(
    title: string,
    creators: seq<Dict<Scalar>>,
    keywords: seq<string>,
    related: seq<Related>,
    contributors: seq<Contributor>,
    uploadType: Option<string>,
    publicationType: Option<string>,
    description: Option<DepositDescription>)

  /** The HTML `description` of a deposit, one form per archive kind; its
      text is DescriptionText. */
  datatype DepositDescription =
    | BookDescription(fork: CommitLink, user: CommitLink, issueId: nat)
    | DataDescription(repositoryUrl: string, forkUrl: string, issueId: nat)
    | RepositoryDescription(fork: CommitLink, user: CommitLink, issueId: nat)
    | DockerDescription(fork: CommitLink, user: CommitLink, loadName: string, issueId: nat)

  /** A commit of a repository, linked from a description. */
  datatype CommitLink = CommitLink(url: string, commit: string)

  /** The DOI of the preprint every archive is part of. */
  function PreprintDoi(issueId: nat): string {
    "10.55458/neurolibre." + Pad5(issueId)
  }

  /** The roboneurolibre fork assumed to mirror the author's repository. */
  function ForkUrl(p: Project): string {
    "https://" + p.provider + "/roboneurolibre/" + p.repo
  }

  function LibreText(forkUrl: string, commitFork: string): string {
    "<a href=\"" + forkUrl + "/commit/" + commitFork + "\"> reference repository/commit by roboneuro</a>"
  }

  function UserText(repositoryUrl: string, commitUser: string): string {
    "<a href=\"" + repositoryUrl + "/commit/" + commitUser + "\">latest change by the author</a>"
  }

  function ReviewText(issueId: nat): string {
    "<p>For details, please visit the corresponding <a href=\"https://github.com/neurolibre/neurolibre-reviews/issues/"
    + NatToString(issueId) + "\">NeuroLibre technical screening.</a></p>"
  }

  const SignText := "\n<p><strong><a href=\"https://neurolibre.org\" target=\"NeuroLibre\">https://neurolibre.org</a></strong></p>"

  /** The docker archive's name as the description's `docker load` line spells it. */
  function DockerLoadName(issueId: nat, commitFork: string): string {
    "DockerImage_10.55458_NeuroLibre_" + Pad5(issueId) + "_" + Take(commitFork, 6) + ".tar.gz"
  }

  function DockerIntro(libre: string, user: string): string {
    "Docker image built from the " + libre + ", based on the " + user
    + ", using repo2docker (through BinderHub). <br> To run locally: <ol> <li><pre><code class=\"language-bash\">docker load < "
  }

  const DockerRunText := "</code><pre></li><li><pre><code class=\"language-bash\">docker run -it --rm -p 8888:8888 DOCKER_IMAGE_ID jupyter lab --ip 0.0.0.0</code></pre> </li></ol> <p><strong>by replacing <code>DOCKER_IMAGE_ID</code> above with the respective ID of the Docker image loaded from the zip file.</strong></p> "

  /** The description zenodo_create_bucket sets for an archive kind, or
      None for an unknown kind. */
  function Description(archiveType: string, repositoryUrl: string, forkUrl: string, commitUser: string,
                       commitFork: string, issueId: nat): (d: Option<DepositDescription>)
    ensures d.Some? <==> ItemToRecordName(archiveType).Some?
  {
    var fork := CommitLink(forkUrl, commitFork);
    var user := CommitLink(repositoryUrl, commitUser);
    if archiveType == "book" then Some(BookDescription(fork, user, issueId))
    else if archiveType == "data" then Some(DataDescription(repositoryUrl, forkUrl, issueId))
    else if archiveType == "repository" then Some(RepositoryDescription(fork, user, issueId))
    else if archiveType == "docker" then Some(DockerDescription(fork, user, DockerLoadName(issueId, commitFork), issueId))
    else None
  }

  function DockerText(libre: string, user: string, loadName: string, review: string): string {
    DockerIntro(libre, user) + loadName + DockerRunText + review + " " + SignText
  }

  function BookText(libre: string, user: string, review: string): string {
    "NeuroLibre JupyterBook built at this " + libre + ", based on the " + user + ". " + review + " " + SignText
  }

  function DataText(repositoryUrl: string, forkUrl: string, review: string): string {
    "Dataset provided for NeuroLibre preprint.\n Author repo: " + repositoryUrl + " \nNeuroLibre fork:" + forkUrl
    + " " + review + "  " + SignText
  }

  function RepositoryText(libre: string, user: string, review: string): string {
    "GitHub archive of the " + libre + ", based on the " + user + ". " + review + " " + SignText
  }

  /** The text of a description. */
  function DescriptionText(d: DepositDescription): string {
    match d
    case BookDescription(fork, user, issueId) =>
      BookText(LibreText(fork.url, fork.commit), UserText(user.url, user.commit), ReviewText(issueId))
    case DataDescription(repositoryUrl, forkUrl, issueId) =>
      DataText(repositoryUrl, forkUrl, ReviewText(issueId))
    case RepositoryDescription(fork, user, issueId) =>
      RepositoryText(LibreText(fork.url, fork.commit), UserText(user.url, user.commit), ReviewText(issueId))
    case DockerDescription(fork, user, loadName, issueId) =>
      DockerText(LibreText(fork.url, fork.commit), UserText(user.url, user.commit), loadName, ReviewText(issueId))
  }

  function UploadTypeOf(archiveType: string): Option<string> {
    if archiveType == "book" then Some("publication")
    else if archiveType == "data" then Some("dataset")
    else if archiveType == "repository" || archiveType == "docker" then Some("software")
    else None
  }

  /** The metadata of a new deposit for one archive kind. */
  function BucketMetadata(title: string, archiveType: string, creators: seq<Dict<Scalar>>, repositoryUrl: string,
                          forkUrl: string, commitUser: string, commitFork: string, issueId: nat): (m: Metadata)
    ensures m.title == title && m.creators == creators
    ensures m.keywords == ["canadian-open-neuroscience-platform", "neurolibre"]
    ensures m.related == [Related("isPartOf", PreprintDoi(issueId), "publication-preprint")]
    ensures m.contributors == [Contributor("NeuroLibre, Admin", "NeuroLibre", "ContactPerson")]
    ensures archiveType == "book" ==> m.uploadType == Some("publication") && m.publicationType == Some("preprint")
    ensures archiveType == "data" ==> m.uploadType == Some("dataset")
    ensures archiveType == "repository" || archiveType == "docker" ==> m.uploadType == Some("software")
    ensures m.uploadType.Some? <==> ItemToRecordName(archiveType).Some?
    ensures m.publicationType.Some? <==> archiveType == "book"
    ensures m.description.Some? <==> ItemToRecordName(archiveType).Some?
    ensures m.description.Some? ==> m.description.value.issueId == issueId
  {
    Metadata(title, creators, ["canadian-open-neuroscience-platform", "neurolibre"],
             [Related("isPartOf", PreprintDoi(issueId), "publication-preprint")],
             [Contributor("NeuroLibre, Admin", "NeuroLibre", "ContactPerson")],
             UploadTypeOf(archiveType),
             if archiveType == "book" then Some("preprint") else None,
             Description(archiveType, repositoryUrl, forkUrl, commitUser, commitFork, issueId))
  }

  /** The docker archive is uploaded under the name the description spells. */
  lemma DockerFileName(issueId: nat, commitFork: string)
    ensures UploadFileName("docker", issueId, commitFork) == Some(DockerLoadName(issueId, commitFork))
  {
    RegroupStem("DockerImage", "_10.55458_NeuroLibre_", Pad5(issueId), "_", Take(commitFork, 6), ".", "tar.gz");
    DockerNamePrefix();
    TarGzSuffix();
  }

  /** The docker description tells the reader to load exactly the file that
      is uploaded for the docker archive (and DockerTextNamesFile shows that
      the text spells that name). */
  lemma DockerDescriptionNamesUpload(title: string, creators: seq<Dict<Scalar>>, repositoryUrl: string,
                                     forkUrl: string, commitUser: string, commitFork: string, issueId: nat)
    ensures BucketMetadata(title, "docker", creators, repositoryUrl, forkUrl, commitUser, commitFork, issueId).description
            == Some(DockerDescription(CommitLink(forkUrl, commitFork), CommitLink(repositoryUrl, commitUser),
                                      UploadFileName("docker", issueId, commitFork).value, issueId))
  {
    DockerFileName(issueId, commitFork);
  }

  /** The `docker load` line of the docker text names its file. */
  lemma DockerTextNamesFile(libre: string, user: string, loadName: string, review: string)
    ensures Contains(DockerText(libre, user, loadName, review), loadName)
  {
    ContainsSecond(DockerIntro(libre, user), loadName, DockerRunText, review, " ", SignText);
  }

  /** A JSON value stored under an archive kind in the deposit record: the
      deposit Zenodo created, the reason dict of a refused creation, or the
      text of a delete reply. */
  datatype Bucket =
    | Deposited(selfLink: string, publishLink: string, bucketLink: string)
    | Refused(reason: string, commitHash: string, repoUrl: string)
    | DeleteReply(text: string)

  /** What zenodo_create_bucket posts and what it returns. */
  datatype BucketRequest = BucketRequest(metadata: Metadata, reply: Bucket)

  /** zenodo_create_bucket. `response` is the Zenodo reply: None when it is
      falsy (an HTTP error status), else its JSON body. */
  function CreateBucket(title: string, archiveType: string, creators: seq<Dict<Scalar>>, repositoryUrl: string,
                        issueId: nat, lsUser: string, lsFork: string, response: Option<Bucket>): (r: Result<BucketRequest>)
    ensures r.Ok? <==> GetOwnerRepoProvider(repositoryUrl, true).Ok? && CommitOf("HEAD", lsUser).Ok?
                       && CommitOf("HEAD", lsFork).Ok?
    ensures r.Ok? ==> r.value.metadata.title == title && r.value.metadata.creators == creators
    ensures r.Ok? ==> r.value.metadata.keywords == ["canadian-open-neuroscience-platform", "neurolibre"]
    ensures r.Ok? ==> r.value.metadata.related == [Related("isPartOf", PreprintDoi(issueId), "publication-preprint")]
    ensures r.Ok? && archiveType == "book" ==>
      r.value.metadata.uploadType == Some("publication") && r.value.metadata.publicationType == Some("preprint")
    ensures r.Ok? && archiveType == "data" ==> r.value.metadata.uploadType == Some("dataset")
    ensures r.Ok? && (archiveType == "repository" || archiveType == "docker") ==>
      r.value.metadata.uploadType == Some("software")
    ensures r.Ok? ==> (r.value.metadata.uploadType.Some? <==> ItemToRecordName(archiveType).Some?)
    ensures r.Ok? ==> (r.value.metadata.publicationType.Some? <==> archiveType == "book")
    ensures r.Ok? && response.None? ==>
      r.value.reply == Refused("404: Cannot create " + archiveType + " bucket.", CommitOf("HEAD", lsFork).value,
                               ForkUrl(GetOwnerRepoProvider(repositoryUrl, true).value))
    ensures r.Ok? && response.Some? ==> r.value.reply == response.value
  {
    match GetOwnerRepoProvider(repositoryUrl, true)
    case Err(e) => Err(e)
    case Ok(p) =>
      var forkUrl := ForkUrl(p);
      match CommitOf("HEAD", lsUser)
      case Err(e) => Err(e)
      case Ok(commitUser) =>
        match CommitOf("HEAD", lsFork)
        case Err(e) => Err(e)
        case Ok(commitFork) =>
          var m := BucketMetadata(title, archiveType, creators, repositoryUrl, forkUrl, commitUser, commitFork, issueId);
          match response
          case None => Ok(BucketRequest(m, Refused("404: Cannot create " + archiveType + " bucket.", commitFork, forkUrl)))
          case Some(b) => Ok(BucketRequest(m, b))
  }

  // ---------------------------------------------------------------------
  // Receipts and status (zenodo_confirm_status)
  // ---------------------------------------------------------------------

  datatype StatusType = Uploaded | Published

  /** The receipt zenodo_publish writes for a published archive. */
  function PublishedReceipt(item: string, issueId: nat): string {
    "zenodo_published_" + item + "_NeuroLibre_" + Pad5(issueId) + ".json"
  }

  /** The receipt written after an archive is uploaded. */
  function UploadedReceipt(item: string, issueId: nat, commit: string): string {
    UploadedPrefix(item, issueId) + Take(commit, 6) + ".json"
  }

  function UploadedPrefix(item: string, issueId: nat): string {
    "zenodo_uploaded_" + item + "_NeuroLibre_" + Pad5(issueId) + "_"
  }

  predicate NoSlash(s: string) {
    forall i :: 0 <= i < |s| ==> s[i] != '/'
  }

  /** `glob` of `zenodo_uploaded_{item}_NeuroLibre_{id:05d}_*.json` in the
      deposit directory: the star stands for any run of characters without
      a `/`. */
  predicate MatchesUploadedGlob(name: string, item: string, issueId: nat) {
    var p := UploadedPrefix(item, issueId);
    |p| + 5 <= |name| && name[..|p|] == p && name[|name| - 5..] == ".json" && NoSlash(name[|p|..|name| - 5])
  }

  /** An upload receipt is found by the status glob exactly when the
      shortened commit holds no `/`. */
  lemma UploadedReceiptMatchesGlob(item: string, issueId: nat, commit: string)
    ensures MatchesUploadedGlob(UploadedReceipt(item, issueId, commit), item, issueId) <==> NoSlash(Take(commit, 6))
  {
    var p := UploadedPrefix(item, issueId);
    var t := Take(commit, 6);
    var name := UploadedReceipt(item, issueId, commit);
    assert name == p + t + ".json";
    assert name[..|p|] == p;
    assert name[|name| - 5..] == ".json";
    assert name[|p|..|name| - 5] == t;
  }

  /** The names the upload-status glob returns. */
  function UploadedGlob(receipts: set<string>, item: string, issueId: nat): set<string> {
    set name | name in receipts && MatchesUploadedGlob(name, item, issueId)
  }

  /** Whether the glob of zenodo_confirm_status finds a receipt for `item`. */
  predicate HasReceipt(receipts: set<string>, item: string, issueId: nat, st: StatusType) {
    match st
    case Published => PublishedReceipt(item, issueId) in receipts
    case Uploaded => UploadedGlob(receipts, item, issueId) != {}
  }

  /** A receipt the upload-status glob matches is found. */
  lemma UploadedReceiptFound(receipts: set<string>, item: string, issueId: nat, commit: string)
    requires UploadedReceipt(item, issueId, commit) in receipts && NoSlash(Take(commit, 6))
    ensures HasReceipt(receipts, item, issueId, Uploaded)
  {
    UploadedReceiptMatchesGlob(item, issueId, commit);
    assert UploadedReceipt(item, issueId, commit) in UploadedGlob(receipts, item, issueId);
  }

  /** The outcomes of zenodo_confirm_status: `[False, "no-record-found"]`,
      `[True, "All"]`, `[False, "None"]` and `[False, "Some"]`. */
  datatype Confirmation = NoRecord | AllFound | NoneFound | SomeFound

  function Label(c: Confirmation): string {
    match c
    case NoRecord => "no-record-found"
    case AllFound => "All"
    case NoneFound => "None"
    case SomeFound => "Some"
  }

  function ReceiptFlags(keys: seq<string>, receipts: set<string>, issueId: nat, st: StatusType): (flags: seq<bool>)
    ensures |flags| == |keys|
    ensures forall i :: 0 <= i < |keys| ==> flags[i] == HasReceipt(receipts, keys[i], issueId, st)
  {
    seq(|keys|, i requires 0 <= i < |keys| => HasReceipt(receipts, keys[i], issueId, st))
  }

  /** `all(flags)` gives All, else `not any(flags)` gives None, else Some. */
  function Verdict(flags: seq<bool>): Confirmation {
    if forall i :: 0 <= i < |flags| ==> flags[i] then AllFound
    else if forall i :: 0 <= i < |flags| ==> !flags[i] then NoneFound
    else SomeFound
  }

  /** On a non-empty check list exactly one verdict holds. */
  lemma VerdictCases(flags: seq<bool>)
    requires flags != []
    ensures Verdict(flags) == AllFound <==> forall i :: 0 <= i < |flags| ==> flags[i]
    ensures Verdict(flags) == NoneFound <==> forall i :: 0 <= i < |flags| ==> !flags[i]
    ensures Verdict(flags) == SomeFound <==>
      (exists i :: 0 <= i < |flags| && flags[i]) && (exists i :: 0 <= i < |flags| && !flags[i])
  {
    if forall i :: 0 <= i < |flags| ==> flags[i] {
      assert flags[0];
    }
  }

  /** A missing or empty deposit record; otherwise the all/any verdict over
      one receipt check per deposit key. */
  function ConfirmStatusOf(deposit: Option<Dict<Bucket>>, receipts: set<string>, issueId: nat,
                           st: StatusType): (c: Confirmation)
    ensures c == NoRecord <==> deposit.None? || deposit.value == []
    ensures c == AllFound <==>
              (deposit.Some? && deposit.value != [] &&
               forall i :: 0 <= i < |deposit.value| ==> HasReceipt(receipts, deposit.value[i].0, issueId, st))
    ensures c == NoneFound <==>
              (deposit.Some? && deposit.value != [] &&
               forall i :: 0 <= i < |deposit.value| ==> !HasReceipt(receipts, deposit.value[i].0, issueId, st))
  {
    if deposit.None? || deposit.value == [] then NoRecord
    else
      var flags := ReceiptFlags(Keys(deposit.value), receipts, issueId, st);
      KeysIndex(deposit.value);
      VerdictCases(flags);
      Verdict(flags)
  }

  /** The verdict in terms of the deposit keys: no record exactly for a
      missing or empty deposit, otherwise exactly one of All, None and Some,
      according to the receipt flags of the keys. */
  lemma ConfirmStatusCases(deposit: Option<Dict<Bucket>>, receipts: set<string>, issueId: nat, st: StatusType)
    ensures ConfirmStatusOf(deposit, receipts, issueId, st) == NoRecord <==> deposit.None? || deposit.value == []
    ensures deposit.Some? && deposit.value != [] ==>
      var c, flags := ConfirmStatusOf(deposit, receipts, issueId, st), ReceiptFlags(Keys(deposit.value), receipts, issueId, st);
      && |flags| == |deposit.value|
      && (c == AllFound <==> forall i :: 0 <= i < |flags| ==> flags[i])
      && (c == NoneFound <==> forall i :: 0 <= i < |flags| ==> !flags[i])
      && (c == SomeFound <==> (exists i :: 0 <= i < |flags| && flags[i]) && (exists i :: 0 <= i < |flags| && !flags[i]))
  {
    if deposit.Some? && deposit.value != [] {
      VerdictCases(ReceiptFlags(Keys(deposit.value), receipts, issueId, st));
    }
  }

  // ---------------------------------------------------------------------
  // Publishing (zenodo_publish)
  // ---------------------------------------------------------------------

  /** The reply to a publish POST: its status and JSON body. */
  datatype PublishReply = PublishReply(status: int, doiUrl: string, badge: string, body: string)

  /** A message of zenodo_publish's list. */
  datatype PublishNote =
    | StatusHeader(item: string)
    | PublishedNote(reply: PublishReply)
    | UnpublishedNote(item: string, reply: PublishReply)
    | NotAllUploaded(verdict: Confirmation)

  /** zenodo_publish's return: the bare string "no-record-found" or a list
      of messages. */
  datatype PublishOutcome = NoRecordFound | Messages(notes: seq<PublishNote>)

  /** The effect of publishing some deposit keys: the error that stopped it
      (if any), the messages, the publish links posted and the receipts
      written. */
  datatype PublishRun = PublishRun(error: Option<Error>, messages: seq<PublishNote>, posts: seq<string>,
                                   written: set<string>)

  /** `f"{item_to_record_name(item)}"`: an unknown item prints as None. */
  function RecordNameText(item: string): string {
    match ItemToRecordName(item)
    case Some(name) => name
    case None => "None"
  }

  /** The text of a message. */
  function NoteText(n: PublishNote): string {
    match n
    case StatusHeader(item) => "\n :ice_cube: " + RecordNameText(item) + " publish status:"
    case PublishedNote(r) => "\n :confetti_ball: <a href=\"" + r.doiUrl + "\"><img src=\"" + r.badge + "\"></a>"
    case UnpublishedNote(item, r) =>
      "\n <details><summary> :wilted_flower: Could not publish " + RecordNameText(item)
      + " </summary><pre><code>" + r.body + "</code></pre></details>"
    case NotAllUploaded(c) =>
      "\n :neutral_face: " + Label(c) + " all archives are uploaded for the resources listed in the deposit record. "
      + "Please ask <code>roboneuro zenodo status</code> and upload the missing  archives by <code>roboneuro zenodo upload <item></code>."
  }

  /** Reading `['links']['publish']` of a stored value that is not a deposit. */
  function LinkError(b: Bucket): Error {
    if b.Refused? then Raised("KeyError") else Raised("TypeError")
  }

  /** Publishing the keys of a deposit record in order, stopping at the first
      value that has no publish link. */
  function PublishEach(entries: Dict<Bucket>, issueId: nat, reply: string -> PublishReply): (run: PublishRun)
    decreases |entries|
  {
    if entries == [] then PublishRun(None, [], [], {})
    else
      var (item, b) := entries[0];
      if !b.Deposited? then PublishRun(Some(LinkError(b)), [], [], {})
      else
        var r := reply(b.publishLink);
        var rest := PublishEach(entries[1..], issueId, reply);
        PublishRun(rest.error, StepMessages(item, r) + rest.messages, [b.publishLink] + rest.posts,
                   StepReceipts(item, issueId, r) + rest.written)
  }

  /** The two messages of one published key. */
  function StepMessages(item: string, r: PublishReply): seq<PublishNote> {
    [StatusHeader(item), if r.status == 202 then PublishedNote(r) else UnpublishedNote(item, r)]
  }

  /** The receipt of one key: written only when its POST answered 202. */
  function StepReceipts(item: string, issueId: nat, r: PublishReply): set<string> {
    if r.status == 202 then {PublishedReceipt(item, issueId)} else {}
  }

  /** A run with messages, posts and receipts already produced in front. */
  function Glue(messages: seq<PublishNote>, posts: seq<string>, written: set<string>, tail: PublishRun): PublishRun {
    PublishRun(tail.error, messages + tail.messages, posts + tail.posts, written + tail.written)
  }

  /** Gluing one more step in front of the rest of a run. */
  lemma GlueStep(messages: seq<PublishNote>, posts: seq<string>, written: set<string>,
                 ms: seq<PublishNote>, link: string, ws: set<string>, next: PublishRun)
    ensures Glue(messages, posts, written, PublishRun(next.error, ms + next.messages, [link] + next.posts, ws + next.written))
         == Glue(messages + ms, posts + [link], written + ws, next)
  {
    AppendAssoc(messages, ms, next.messages);
    AppendAssoc(posts, [link], next.posts);
    UnionAssoc(written, ws, next.written);
  }

  /** zenodo_publish as a value: its result, the publish links posted, and
      the receipts afterwards. */
  /** A step of PublishEach at a stored value that is not a deposit. */
  lemma PublishEachAtRefused(entries: Dict<Bucket>, i: nat, issueId: nat, reply: string -> PublishReply)
    requires i < |entries| && !entries[i].1.Deposited?
    ensures PublishEach(entries[i..], issueId, reply) == PublishRun(Some(LinkError(entries[i].1)), [], [], {})
  {
  }

  /** A step of PublishEach at a deposit, taken at position `i`. */
  lemma PublishEachAtDeposited(entries: Dict<Bucket>, i: nat, issueId: nat, reply: string -> PublishReply)
    requires i < |entries| && entries[i].1.Deposited?
    ensures PublishEach(entries[i..], issueId, reply)
         == PublishRun(PublishEach(entries[i + 1..], issueId, reply).error,
                       StepMessages(entries[i].0, reply(entries[i].1.publishLink))
                       + PublishEach(entries[i + 1..], issueId, reply).messages,
                       [entries[i].1.publishLink] + PublishEach(entries[i + 1..], issueId, reply).posts,
                       StepReceipts(entries[i].0, issueId, reply(entries[i].1.publishLink))
                       + PublishEach(entries[i + 1..], issueId, reply).written)
  {
    assert entries[i..][1..] == entries[i + 1..];
  }

  /** PublishOf once the confirmation verdict `c` is known. */
  lemma PublishOfVerdict(deposit: Option<Dict<Bucket>>, receipts: set<string>, issueId: nat,
                         reply: string -> PublishReply, c: Confirmation)
    requires c == ConfirmStatusOf(deposit, receipts, issueId, Uploaded)
    ensures c == NoRecord ==> PublishOf(deposit, receipts, issueId, reply) == (Ok(NoRecordFound), [], receipts)
    ensures c != NoRecord && c != AllFound ==>
      PublishOf(deposit, receipts, issueId, reply) == (Ok(Messages([NotAllUploaded(c)])), [], receipts)
    ensures c == AllFound ==> deposit.Some?
    ensures c == AllFound && deposit.Some? ==>
              var run := PublishEach(deposit.value, issueId, reply);
              PublishOf(deposit, receipts, issueId, reply) ==
                (if run.error.Some? then Err(run.error.value) else Ok(Messages(run.messages)),
                 run.posts, receipts + run.written)
  {
  }

  function PublishOf(deposit: Option<Dict<Bucket>>, receipts: set<string>, issueId: nat,
                     reply: string -> PublishReply): (res: (Result<PublishOutcome>, seq<string>, set<string>))
    ensures receipts <= res.2
    ensures res.0 == Ok(NoRecordFound) <==> deposit.None? || deposit.value == []
    ensures res.1 != [] ==>
              (deposit.Some? &&
               forall i :: 0 <= i < |deposit.value| ==> HasReceipt(receipts, deposit.value[i].0, issueId, Uploaded))
    ensures deposit.Some? ==> PostsPrefix(deposit.value, res.1)
  {
    var c := ConfirmStatusOf(deposit, receipts, issueId, Uploaded);
    if c == NoRecord then (Ok(NoRecordFound), [], receipts)
    else if c == AllFound then
      var run := PublishEach(deposit.value, issueId, reply);
      PublishEachPostsPrefix(deposit.value, issueId, reply);
      (if run.error.Some? then Err(run.error.value) else Ok(Messages(run.messages)), run.posts, receipts + run.written)
    else (Ok(Messages([NotAllUploaded(c)])), [], receipts)
  }

  predicate AllDeposited(entries: Dict<Bucket>) {
    forall k :: 0 <= k < |entries| ==> entries[k].1.Deposited?
  }

  lemma AllDepositedTail(entries: Dict<Bucket>)
    requires entries != []
    ensures AllDeposited(entries) <==> entries[0].1.Deposited? && AllDeposited(entries[1..])
  {
    if entries[0].1.Deposited? && AllDeposited(entries[1..]) {
      forall k | 0 <= k < |entries| ensures entries[k].1.Deposited? {
        if k > 0 { assert entries[k] == entries[1..][k - 1]; }
      }
    }
    if AllDeposited(entries) {
      forall k | 0 <= k < |entries[1..]| ensures entries[1..][k].1.Deposited? {
        assert entries[1..][k] == entries[k + 1];
      }
    }
  }

  /** Publishing stops with an error exactly when some stored value is not a
      deposit. */
  lemma {:induction false} PublishEachFails(entries: Dict<Bucket>, issueId: nat, reply: string -> PublishReply)
    ensures PublishEach(entries, issueId, reply).error.None? <==> AllDeposited(entries)
    decreases |entries|
  {
    if entries != [] {
      AllDepositedTail(entries);
      PublishEachFails(entries[1..], issueId, reply);
    }
  }

  /** Publishing a record of deposits posts once per key, in key order, and
      adds two messages per key. */
  lemma {:induction false} PublishEachPosts(entries: Dict<Bucket>, issueId: nat, reply: string -> PublishReply)
    requires AllDeposited(entries)
    ensures var run := PublishEach(entries, issueId, reply);
      |run.messages| == 2 * |entries| && |run.posts| == |entries| &&
      forall k :: 0 <= k < |entries| ==> run.posts[k] == entries[k].1.publishLink
    decreases |entries|
  {
    if entries != [] {
      AllDepositedTail(entries);
      PublishEachPosts(entries[1..], issueId, reply);
      var run := PublishEach(entries, issueId, reply);
      var rest := PublishEach(entries[1..], issueId, reply);
      forall k | 0 <= k < |entries| ensures run.posts[k] == entries[k].1.publishLink {
        if k > 0 {
          assert run.posts[k] == rest.posts[k - 1];
          assert entries[k] == entries[1..][k - 1];
        }
      }
    }
  }

  /** `posts` are the publish links of the first entries, in order. */
  predicate PostsPrefix(entries: Dict<Bucket>, posts: seq<string>) {
    forall k :: 0 <= k < |posts| ==>
      k < |entries| && entries[k].1.Deposited? && posts[k] == entries[k].1.publishLink
  }

  /** Whether or not it stops early, publishing posts to the publish links
      of the first keys, in key order. */
  lemma {:induction false} PublishEachPostsPrefix(entries: Dict<Bucket>, issueId: nat, reply: string -> PublishReply)
    ensures PostsPrefix(entries, PublishEach(entries, issueId, reply).posts)
    decreases |entries|
  {
    if entries != [] && entries[0].1.Deposited? {
      PublishEachPostsPrefix(entries[1..], issueId, reply);
      var run := PublishEach(entries, issueId, reply);
      var rest := PublishEach(entries[1..], issueId, reply);
      assert run.posts == [entries[0].1.publishLink] + rest.posts;
      forall k | 0 <= k < |run.posts|
        ensures k < |entries| && entries[k].1.Deposited? && run.posts[k] == entries[k].1.publishLink
      {
        if k > 0 {
          assert run.posts[k] == rest.posts[k - 1];
          assert entries[k] == entries[1..][k - 1];
        }
      }
    } else {
      assert PublishEach(entries, issueId, reply).posts == [];
    }
  }

  /** Publishing writes a published receipt for every key whose publish POST
      answered 202. */
  lemma {:induction false} PublishEachWrites(entries: Dict<Bucket>, issueId: nat, reply: string -> PublishReply)
    requires AllDeposited(entries)
    ensures forall k :: 0 <= k < |entries| && reply(entries[k].1.publishLink).status == 202 ==>
              PublishedReceipt(entries[k].0, issueId) in PublishEach(entries, issueId, reply).written
    decreases |entries|
  {
    if entries != [] {
      var rest := entries[1..];
      AllDepositedTail(entries);
      PublishEachWrites(rest, issueId, reply);
      forall k | 0 <= k < |entries| && reply(entries[k].1.publishLink).status == 202
        ensures PublishedReceipt(entries[k].0, issueId) in PublishEach(entries, issueId, reply).written
      {
        if k > 0 { assert entries[k] == rest[k - 1]; }
      }
    }
  }

  /** Publishing writes no receipt but those of keys whose publish POST
      answered 202. */
  lemma {:induction false} PublishEachWritesOnly(entries: Dict<Bucket>, issueId: nat, reply: string -> PublishReply,
                                                 name: string)
    requires AllDeposited(entries)
    requires name in PublishEach(entries, issueId, reply).written
    ensures exists k :: 0 <= k < |entries| && name == PublishedReceipt(entries[k].0, issueId) &&
                        reply(entries[k].1.publishLink).status == 202
    decreases |entries|
  {
    var rest := entries[1..];
    AllDepositedTail(entries);
    if name in PublishEach(rest, issueId, reply).written {
      PublishEachWritesOnly(rest, issueId, reply, name);
      var j :| 0 <= j < |rest| && name == PublishedReceipt(rest[j].0, issueId) &&
               reply(rest[j].1.publishLink).status == 202;
      assert rest[j] == entries[j + 1];
    } else {
      assert name == PublishedReceipt(entries[0].0, issueId);
    }
  }

  /** Without a deposit record nothing is posted and nothing is written. */
  lemma PublishNeedsRecord(deposit: Option<Dict<Bucket>>, receipts: set<string>, issueId: nat,
                           reply: string -> PublishReply)
    requires deposit.None? || deposit.value == []
    ensures PublishOf(deposit, receipts, issueId, reply) == (Ok(NoRecordFound), [], receipts)
  {
  }

  /** Unless every key has an upload receipt, publishing posts nothing,
      writes nothing and answers with one message naming None or Some. */
  lemma PublishGatedOnAllUploaded(deposit: Option<Dict<Bucket>>, receipts: set<string>, issueId: nat,
                                  reply: string -> PublishReply)
    requires deposit.Some? && deposit.value != []
    requires exists i :: 0 <= i < |deposit.value| && !HasReceipt(receipts, Keys(deposit.value)[i], issueId, Uploaded)
    ensures var c := ConfirmStatusOf(deposit, receipts, issueId, Uploaded);
            (c == NoneFound || c == SomeFound) &&
            PublishOf(deposit, receipts, issueId, reply) == (Ok(Messages([NotAllUploaded(c)])), [], receipts)
  {
    var c := ConfirmStatusOf(deposit, receipts, issueId, Uploaded);
    ConfirmStatusCases(deposit, receipts, issueId, Uploaded);
    var i :| 0 <= i < |deposit.value| && !HasReceipt(receipts, Keys(deposit.value)[i], issueId, Uploaded);
    assert !ReceiptFlags(Keys(deposit.value), receipts, issueId, Uploaded)[i];
    assert c != NoRecord && c != AllFound;
    PublishOfVerdict(deposit, receipts, issueId, reply, c);
  }

  /** Receipt round trip: once every upload is confirmed and every publish
      POST answers 202, the published status of the record is All. */
  lemma PublishThenConfirmed(deposit: Option<Dict<Bucket>>, receipts: set<string>, issueId: nat,
                             reply: string -> PublishReply)
    requires ConfirmStatusOf(deposit, receipts, issueId, Uploaded) == AllFound
    requires AllDeposited(deposit.value)
    requires forall k :: 0 <= k < |deposit.value| ==> reply(deposit.value[k].1.publishLink).status == 202
    ensures PublishOf(deposit, receipts, issueId, reply).0.Ok?
    ensures ConfirmStatusOf(deposit, PublishOf(deposit, receipts, issueId, reply).2, issueId, Published) == AllFound
  {
    var entries := deposit.value;
    PublishEachFails(entries, issueId, reply);
    PublishEachWrites(entries, issueId, reply);
    var after := PublishOf(deposit, receipts, issueId, reply).2;
    ConfirmStatusCases(deposit, receipts, issueId, Uploaded);
    var flags := ReceiptFlags(Keys(entries), after, issueId, Published);
    forall k | 0 <= k < |entries| ensures flags[k] {
      KeysAt(entries, k);
    }
    ConfirmStatusCases(deposit, after, issueId, Published);
  }

  /** The per-issue deposit directory: the deposit record file (None when
      absent; get_zenodo_deposit reads it) and the names of the receipt files
      beside it. */
  class DepositDirectory {
    const issueId: nat
    var deposit: Option<Dict<Bucket>>
    var receipts: set<string>

    constructor (issueId: nat, deposit: Option<Dict<Bucket>>, receipts: set<string>)
      ensures this.issueId == issueId && this.deposit == deposit && this.receipts == receipts
    {
      this.issueId := issueId;
      this.deposit := deposit;
      this.receipts := receipts;
    }

    /** zenodo_confirm_status: one receipt check per deposit key, then all/any. */
    method ConfirmStatus(st: StatusType) returns (c: Confirmation)
      ensures c == ConfirmStatusOf(deposit, receipts, issueId, st)
    {
      if deposit.None? || deposit.value == [] {
        return NoRecord;
      }
      var keys := Keys(deposit.value);
      var flags: seq<bool> := [];
      for i := 0 to |keys|
        invariant flags == ReceiptFlags(keys[..i], receipts, issueId, st)
      {
        var found := HasReceipt(receipts, keys[i], issueId, st);
        flags := flags + [found];
      }
      assert keys[..|keys|] == keys;
      var allTrue := forall i :: 0 <= i < |flags| ==> flags[i];
      var allFalse := forall i :: 0 <= i < |flags| ==> !flags[i];
      if allTrue {
        c := AllFound;
      } else if allFalse {
        c := NoneFound;
      } else {
        c := SomeFound;
      }
    }

    /** zenodo_publish: gated on every upload being confirmed; posts each
        deposit's publish link in key order and writes a receipt for each
        202 reply. */
    method Publish(reply: string -> PublishReply) returns (outcome: Result<PublishOutcome>, posts: seq<string>)
      modifies this
      ensures (outcome, posts, receipts) == PublishOf(old(deposit), old(receipts), issueId, reply)
      ensures deposit == old(deposit)
    {
      var status := ConfirmStatus(Uploaded);
      PublishOfVerdict(deposit, receipts, issueId, reply, status);
      if status == NoRecord {
        return Ok(NoRecordFound), [];
      }
      if status != AllFound {
        return Ok(Messages([NotAllUploaded(status)])), [];
      }
      outcome, posts := PublishEntries(deposit.value, reply);
    }

    /** The loop of zenodo_publish over the deposit entries, in their order. */
    method PublishEntries(entries: Dict<Bucket>, reply: string -> PublishReply)
      returns (outcome: Result<PublishOutcome>, posts: seq<string>)
      modifies this
      ensures var run := PublishEach(entries, issueId, reply);
              outcome == (if run.error.Some? then Err(run.error.value) else Ok(Messages(run.messages))) &&
              posts == run.posts && receipts == old(receipts) + run.written
      ensures deposit == old(deposit)
    {
      ghost var run := PublishEach(entries, issueId, reply);
      var messages: seq<PublishNote> := [];
      posts := [];
      ghost var written: set<string> := {};
      assert entries[0..] == entries;
      for i := 0 to |entries|
        invariant receipts == old(receipts) + written
        invariant deposit == old(deposit)
        invariant run == Glue(messages, posts, written, PublishEach(entries[i..], issueId, reply))
      {
        var (item, b) := entries[i];
        if !b.Deposited? {
          PublishEachAtRefused(entries, i, issueId, reply);
          assert messages + [] == messages && posts + [] == posts;
          return Err(LinkError(b)), posts;
        }
        var r := reply(b.publishLink);
        PublishEachAtDeposited(entries, i, issueId, reply);
        ghost var next := PublishEach(entries[i + 1..], issueId, reply);
        GlueStep(messages, posts, written, StepMessages(item, r), b.publishLink, StepReceipts(item, issueId, r), next);
        var shown := if r.status == 202 then PublishedNote(r) else UnpublishedNote(item, r);
        messages := messages + [StatusHeader(item), shown];
        posts := posts + [b.publishLink];
        if r.status == 202 {
          receipts := receipts + {PublishedReceipt(item, issueId)};
        }
        written := written + StepReceipts(item, issueId, r);
      }
      assert entries[|entries|..] == [];
      assert messages + [] == messages && posts + [] == posts;
      outcome := Ok(Messages(messages));
    }
  }

  // ---------------------------------------------------------------------
  // The lookup table (parse_tsv_content, find_resource_idx, get_resource_lookup)
  // ---------------------------------------------------------------------

  /** The rows of the table after its header; `next` on an empty table
      raises StopIteration. */
  function TsvRecords(rows: seq<seq<string>>): (r: Result<seq<seq<string>>>)
    ensures r.Err? <==> rows == []
    ensures r.Ok? ==> [rows[0]] + r.value == rows
  {
    if rows == [] then Err(Raised("StopIteration")) else Ok(rows[1..])
  }

  /** parse_tsv_content, over the rows `csv.reader` yields: skip the header,
      then copy the remaining rows one by one. */
  method ParseTsvContent(rows: seq<seq<string>>) returns (r: Result<seq<seq<string>>>)
    ensures r == TsvRecords(rows)
  {
    if rows == [] {
      return Err(Raised("StopIteration"));
    }
    var parsed: seq<seq<string>> := [];
    for i := 1 to |rows|
      invariant parsed == rows[1..i]
    {
      parsed := parsed + [rows[i]];
    }
    assert rows[1..|rows|] == rows[1..];
    return Ok(parsed);
  }

  predicate HasEmptyRow(rows: seq<seq<string>>) {
    exists i :: 0 <= i < |rows| && rows[i] == []
  }

  /** The comprehension of find_resource_idx: the indexes, counted from
      `from`, of the rows whose first column contains `url`. */
  function MatchingIndices(rows: seq<seq<string>>, url: string, from: nat): seq<nat>
    requires forall i :: 0 <= i < |rows| ==> rows[i] != []
    decreases |rows|
  {
    if rows == [] then []
    else
      var rest := MatchingIndices(rows[1..], url, from + 1);
      if Contains(rows[0][0], url) then [from] + rest else rest
  }

  /** The comprehension lists matching rows only, in increasing order. */
  lemma {:induction false} MatchingIndicesSorted(rows: seq<seq<string>>, url: string, from: nat)
    requires forall i :: 0 <= i < |rows| ==> rows[i] != []
    ensures forall k :: 0 <= k < |MatchingIndices(rows, url, from)| ==>
              from <= MatchingIndices(rows, url, from)[k] < from + |rows|
              && Contains(rows[MatchingIndices(rows, url, from)[k] - from][0], url)
    ensures forall k, l :: 0 <= k < l < |MatchingIndices(rows, url, from)| ==>
              MatchingIndices(rows, url, from)[k] < MatchingIndices(rows, url, from)[l]
    decreases |rows|
  {
    if rows != [] {
      var tail := rows[1..];
      MatchingIndicesSorted(tail, url, from + 1);
      var rest := MatchingIndices(tail, url, from + 1);
      forall k | 0 <= k < |rest| ensures rows[rest[k] - from] == tail[rest[k] - from - 1] {
      }
      if Contains(rows[0][0], url) {
        var ix := [from] + rest;
        assert forall k :: 1 <= k < |ix| ==> ix[k] == rest[k - 1];
      }
    }
  }

  /** The first entry of the comprehension is the first matching row, and
      an empty comprehension means no row matches. */
  lemma {:induction false} MatchingIndicesFirst(rows: seq<seq<string>>, url: string, from: nat)
    requires forall i :: 0 <= i < |rows| ==> rows[i] != []
    ensures MatchingIndices(rows, url, from) != [] ==>
              from <= MatchingIndices(rows, url, from)[0] < from + |rows|
              && forall i :: 0 <= i < MatchingIndices(rows, url, from)[0] - from ==> !Contains(rows[i][0], url)
    ensures MatchingIndices(rows, url, from) == [] ==> forall i :: 0 <= i < |rows| ==> !Contains(rows[i][0], url)
    decreases |rows|
  {
    if rows != [] {
      var tail := rows[1..];
      MatchingIndicesFirst(tail, url, from + 1);
      forall i | 1 <= i < |rows| ensures rows[i] == tail[i - 1] {
      }
    }
  }

  /** find_resource_idx: the first row whose first column contains `url`;
      a row without columns anywhere in the table raises IndexError. */
  function FindResourceIdx(rows: seq<seq<string>>, url: string): (r: Result<Option<nat>>)
    ensures r.Err? <==> HasEmptyRow(rows)
    ensures r.Ok? && r.value.Some? ==>
      r.value.value < |rows| && Contains(rows[r.value.value][0], url) &&
      forall j :: 0 <= j < r.value.value ==> !Contains(rows[j][0], url)
    ensures r.Ok? && r.value.None? ==> forall j :: 0 <= j < |rows| ==> !Contains(rows[j][0], url)
  {
    if HasEmptyRow(rows) then Err(Raised("IndexError"))
    else
      MatchingIndicesFirst(rows, url, 0);
      MatchingIndicesSorted(rows, url, 0);
      var ix := MatchingIndices(rows, url, 0);
      if |ix| > 0 then Ok(Some(ix[0]))
      else Ok(None)
  }

  const LookupKeys: seq<string> := ["date", "repository_url", "docker_image", "project_name", "data_url", "data_doi"]

  /** `dict(zip(keys, values))` for distinct keys. */
  function Zip(keys: seq<string>, values: seq<string>): (d: Dict<string>)
    ensures |d| == if |keys| <= |values| then |keys| else |values|
    ensures forall i :: 0 <= i < |d| ==> d[i] == (keys[i], values[i])
  {
    if keys == [] || values == [] then []
    else [(keys[0], values[0])] + Zip(keys[1..], values[1..])
  }

  /** get_resource_lookup as written: `if idx:` also rejects a match in the
      first record. `ok` is whether the GET of the table succeeded and `rows`
      the table as `csv.reader` splits it. */
  function GetResourceLookup(ok: bool, rows: seq<seq<string>>, url: string): (r: Result<Option<Dict<string>>>)
    ensures r.Err? <==> GetResourceLookupFixed(ok, rows, url).Err?
    ensures r.Ok? && r.value.Some? ==> r == GetResourceLookupFixed(ok, rows, url)
  {
    if !ok then Ok(None)
    else
      match TsvRecords(rows)
      case Err(e) => Err(e)
      case Ok(records) =>
        match FindResourceIdx(records, url)
        case Err(e) => Err(e)
        case Ok(idx) =>
          if idx.Some? && idx.value != 0 then Ok(Some(Zip(LookupKeys, Split(records[idx.value][0], ','))))
          else Ok(None)
  }

  /** get_resource_lookup with the found test the code evidently intends:
      any match, the first record included, yields the entry. */
  function GetResourceLookupFixed(ok: bool, rows: seq<seq<string>>, url: string): (r: Result<Option<Dict<string>>>)
    ensures r.Ok? && r.value.Some? <==>
      ok && rows != [] && !HasEmptyRow(rows[1..]) &&
      exists i :: 1 <= i < |rows| && Contains(rows[i][0], url)
    ensures r.Ok? && r.value.Some? ==>
      exists i :: 1 <= i < |rows| && rows[i] != [] && Contains(rows[i][0], url) &&
        (forall j :: 1 <= j < i ==> rows[j] == [] || !Contains(rows[j][0], url)) &&
        r.value.value == Zip(LookupKeys, Split(rows[i][0], ','))
    ensures r.Ok? && r.value.Some? ==> 1 <= |r.value.value| <= 6
  {
    if !ok then Ok(None)
    else
      match TsvRecords(rows)
      case Err(e) => Err(e)
      case Ok(records) =>
        assert forall i :: 1 <= i < |rows| ==> rows[i] == records[i - 1];
        match FindResourceIdx(records, url)
        case Err(e) => Err(e)
        case Ok(idx) =>
          if idx.Some? then
            assert rows[idx.value + 1] == records[idx.value];
            Ok(Some(Zip(LookupKeys, Split(records[idx.value][0], ','))))
          else Ok(None)
  }

  /** The as-written lookup misses a repository listed in the first record
      of the table, which the corrected lookup finds. */
  lemma FirstRecordIsMissed(header: seq<string>, url: string)
    requires header != []
    ensures GetResourceLookup(true, [header, [url]], url) == Ok(None)
    ensures GetResourceLookupFixed(true, [header, [url]], url) == Ok(Some(Zip(LookupKeys, Split(url, ','))))
  {
    var records := [[url]];
    assert [url][0] == url;
    assert StartsWith(url[0..], url);
    assert Contains(url, url);
    assert !HasEmptyRow(records);
    assert FindResourceIdx(records, url) == Ok(Some(0));
  }

  // ---------------------------------------------------------------------
  // Status rows (zenodo_get_status)
  // ---------------------------------------------------------------------

  /** The upload rows zenodo_get_status reports: the label and the archive
      kind whose `zenodo_uploaded_{item}` receipt it searches for. */
  function UploadRows(dataArchiveExists: bool): (rows: seq<(string, string)>)
    ensures ("Data", "data") in rows <==> !dataArchiveExists
    ensures forall k :: 0 <= k < |rows| ==> ItemToRecordName(rows[k].1).Some?
  {
    if dataArchiveExists then [("Repository", "repository"), ("Book", "book"), ("Docker", "docker")]
    else [("Repository", "repository"), ("Data", "data"), ("Book", "book"), ("Docker", "docker")]
  }

  /** Every row's search prefix starts the upload receipt of its archive kind. */
  lemma UploadRowsFindReceipts(dataArchiveExists: bool, k: nat, issueId: nat, commit: string)
    requires k < |UploadRows(dataArchiveExists)|
    ensures var item := UploadRows(dataArchiveExists)[k].1;
            StartsWith(UploadedReceipt(item, issueId, commit), "zenodo_uploaded_" + item)
  {
    var item := UploadRows(dataArchiveExists)[k].1;
    PrefixOfConcat("zenodo_uploaded_" + item, "_NeuroLibre_", Pad5(issueId), "_", Take(commit, 6), ".json");
  }
}
