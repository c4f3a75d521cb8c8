/** api/common.py: repository identity, the build-lock store and the build
    admission preflight, the book inventory lookup, front-matter extraction
    and the assembly of book build logs.

    The file system is modelled by its results: the lock directory is a map
    from lock path to modification time in whole seconds, `glob`/`os.walk`
    results and file contents are parameters, and the clock is a parameter. */
module Common {
  import opened Results
  import opened Strings

  const BookRoot := "/DATA/book-artifacts"
  const BookUrl := "https://preview.neurolibre.org/book-artifacts"

  // ---------------------------------------------------------------------
  // Repository identity (get_owner_repo_provider)
  // ---------------------------------------------------------------------

  datatype Project = Project(owner: string, repo: string, provider: string)

  predicate KnownHost(host: string) {
    host == "github.com" || host == "gitlab.com"
  }

  /** BinderHub's abbreviation of a known host. */
  function Abbreviation(host: string): string {
    if host == "github.com" then "gh" else "gl"
  }

  /** The last three `/`-separated pieces of a repository URL are the host,
      the owner and the repository; only the two known hosts are accepted,
      abbreviated unless the full name is asked for. Fewer than three pieces
      make Python's negative indexing raise. */
  function GetOwnerRepoProvider(repoUrl: string, providerFullName: bool): (r: Result<Project>)
    ensures r.Ok? ==> '/' !in r.value.owner && '/' !in r.value.repo
    ensures r.Ok? && providerFullName ==> KnownHost(r.value.provider)
    ensures r.Ok? && !providerFullName ==> r.value.provider == "gh" || r.value.provider == "gl"
    ensures r.Err? ==> r.error == Raised("IndexError") || r.error == Abort(400, "Unrecognized repository provider.")
  {
    var parts := Split(repoUrl, '/');
    if |parts| < 3 then Err(Raised("IndexError"))
    else
      var host := parts[|parts| - 3];
      if !KnownHost(host) then Err(Abort(400, "Unrecognized repository provider."))
      else Ok(Project(parts[|parts| - 2], parts[|parts| - 1],
                      if providerFullName then host else Abbreviation(host)))
  }

  /** Parsing any URL ending in `/{host}/{owner}/{repo}`: the pieces come
      back verbatim, and the host alone decides between success and a 400. */
  lemma {:induction false} ParseRepoUrl(base: string, host: string, owner: string, repo: string, full: bool)
    requires '/' !in host && '/' !in owner && '/' !in repo
    ensures GetOwnerRepoProvider(base + "/" + host + "/" + owner + "/" + repo, full)
         == if KnownHost(host)
            then Ok(Project(owner, repo, if full then host else Abbreviation(host)))
            else Err(Abort(400, "Unrecognized repository provider."))
  {
    SplitAppendPiece(base + "/" + host + "/" + owner, repo, '/');
    SplitAppendPiece(base + "/" + host, owner, '/');
    SplitAppendPiece(base, host, '/');
  }

  // ---------------------------------------------------------------------
  // Commit resolution (format_commit_hash)
  // ---------------------------------------------------------------------

  /** An `ls-remote` line `hash\tref` whose ref field is HEAD. */
  predicate IsHeadLine(line: string)
    requires '\t' in line
  {
    Split(line, '\t')[1] == "HEAD"
  }

  function HashOf(line: string): string {
    Split(line, '\t')[0]
  }

  /** Scanning every `ls-remote` line: a line with a HEAD ref replaces the
      current value by its hash; a line without a tab raises IndexError. */
  function ResolveHead(lines: seq<string>, current: string): (r: Result<string>)
    ensures r.Err? ==> r == Err(Raised("IndexError"))
    ensures (forall i :: 0 <= i < |lines| ==> |Split(lines[i], '\t')| >= 2) ==> r.Ok?
    decreases |lines|
  {
    if lines == [] then Ok(current)
    else
      var fields := Split(lines[0], '\t');
      if |fields| < 2 then Err(Raised("IndexError"))
      else ResolveHead(lines[1..], if fields[1] == "HEAD" then fields[0] else current)
  }

  /** A ref other than `HEAD` is returned verbatim; `HEAD` is replaced by the
      hash the repository listing gives for it. */
  method FormatCommitHash(commitHash: string, lsRemote: string) returns (r: Result<string>)
    ensures r == if commitHash == "HEAD" then ResolveHead(Split(lsRemote, '\n'), commitHash) else Ok(commitHash)
  {
    if commitHash != "HEAD" {
      return Ok(commitHash);
    }
    var refs := Split(lsRemote, '\n');
    var current := commitHash;
    for i := 0 to |refs|
      invariant ResolveHead(refs[i..], current) == ResolveHead(refs, commitHash)
    {
      assert refs[i..][1..] == refs[i + 1..];
      var fields := Split(refs[i], '\t');
      if |fields| < 2 {
        return Err(Raised("IndexError"));
      }
      if fields[1] == "HEAD" {
        current := fields[0];
      }
    }
    assert refs[|refs|..] == [];
    return Ok(current);
  }

  predicate AllTabbed(lines: seq<string>) {
    forall i :: 0 <= i < |lines| ==> '\t' in lines[i]
  }

  /** Line `i` is a HEAD line and no later line is. */
  predicate LastHeadAt(lines: seq<string>, i: int)
    requires AllTabbed(lines)
  {
    0 <= i < |lines| && IsHeadLine(lines[i]) && forall j :: i < j < |lines| ==> !IsHeadLine(lines[j])
  }

  predicate NoHeadLine(lines: seq<string>)
    requires AllTabbed(lines)
  {
    forall i :: 0 <= i < |lines| ==> !IsHeadLine(lines[i])
  }

  /** How the last HEAD line of the rest of a listing relates to the whole. */
  lemma LastHeadCons(lines: seq<string>)
    requires lines != [] && AllTabbed(lines)
    ensures AllTabbed(lines[1..])
    ensures forall i :: LastHeadAt(lines[1..], i) ==> LastHeadAt(lines, i + 1)
    ensures IsHeadLine(lines[0]) && NoHeadLine(lines[1..]) ==> LastHeadAt(lines, 0)
    ensures !IsHeadLine(lines[0]) && NoHeadLine(lines[1..]) ==> NoHeadLine(lines)
  {
    assert forall j :: 0 < j < |lines| ==> lines[j] == lines[1..][j - 1];
  }

  /** When every line has a tab, `HEAD` resolves to the hash of the LAST line
      whose ref is HEAD, or stays what it was when there is none. */
  lemma {:induction false} ResolveHeadIsLastHead(lines: seq<string>, current: string)
    requires AllTabbed(lines)
    ensures ResolveHead(lines, current).Ok?
    ensures var h := ResolveHead(lines, current).value;
      || (exists i :: LastHeadAt(lines, i) && h == HashOf(lines[i]))
      || (NoHeadLine(lines) && h == current)
    decreases |lines|
  {
    if lines != [] {
      var l := lines[0];
      SplitHasTwo(l, '\t');
      var next := if IsHeadLine(l) then HashOf(l) else current;
      assert ResolveHead(lines, current) == ResolveHead(lines[1..], next);
      LastHeadCons(lines);
      ResolveHeadIsLastHead(lines[1..], next);
      var h := ResolveHead(lines, current).value;
      if exists i :: LastHeadAt(lines[1..], i) && h == HashOf(lines[1..][i]) {
        var i :| LastHeadAt(lines[1..], i) && h == HashOf(lines[1..][i]);
        assert LastHeadAt(lines, i + 1) && lines[i + 1] == lines[1..][i];
      }
    }
  }

  /** A line without a tab anywhere in the listing makes the lookup raise. */
  lemma {:induction false} ResolveHeadRaises(lines: seq<string>, current: string, k: nat)
    requires k < |lines| && '\t' !in lines[k]
    ensures ResolveHead(lines, current) == Err(Raised("IndexError"))
    decreases |lines|
  {
    var fields := Split(lines[0], '\t');
    if k == 0 {
      assert fields == [lines[0]];
    } else if |fields| >= 2 {
      ResolveHeadRaises(lines[1..], if fields[1] == "HEAD" then fields[0] else current, k - 1);
    }
  }

  // ---------------------------------------------------------------------
  // Build URL and lock file name
  // ---------------------------------------------------------------------

  /** get_binder_build_url */
  function GetBinderBuildUrl(binderName: string, domainName: string, repo: string, owner: string,
                             provider: string, commitHash: string): (url: string)
    ensures StartsWith(url, "https://")
    ensures EndsWith(url, "/" + commitHash)
  {
    "https://" + binderName + "." + domainName + "/build/" + provider + "/" + owner + "/" + repo + ".git/" + commitHash
  }

  /** Eight pieces joined by `/`, written out. */
  lemma JoinEight(p0: string, p1: string, p2: string, p3: string, p4: string, p5: string, p6: string, p7: string)
    ensures Join([p0, p1, p2, p3, p4, p5, p6, p7], "/")
         == p0 + "/" + (p1 + "/" + (p2 + "/" + (p3 + "/" + (p4 + "/" + (p5 + "/" + (p6 + "/" + p7))))))
  {
    var t7 := [p7];
    var t6 := [p6] + t7;
    var t5 := [p5] + t6;
    var t4 := [p4] + t5;
    var t3 := [p3] + t4;
    var t2 := [p2] + t3;
    var t1 := [p1] + t2;
    var t0 := [p0] + t1;
    assert Join(t7, "/") == p7;
    JoinCons(p6, t7, "/");
    JoinCons(p5, t6, "/");
    JoinCons(p4, t5, "/");
    JoinCons(p3, t4, "/");
    JoinCons(p2, t3, "/");
    JoinCons(p1, t2, "/");
    JoinCons(p0, t1, "/");
    assert t0 == [p0, p1, p2, p3, p4, p5, p6, p7];
  }

  /** The build URL is its pieces joined by `/`. */
  lemma BuildUrlJoined(host: string, provider: string, owner: string, git: string, commitHash: string)
    ensures "https://" + host + "/build/" + provider + "/" + owner + "/" + git + "/" + commitHash
         == "https:" + "/" + ("" + "/" + (host + "/" + ("build" + "/" + (provider + "/" + (owner + "/" + (git + "/" + commitHash))))))
  {
    var tail := provider + "/" + owner + "/" + git + "/" + commitHash;
    assert provider + "/" + (owner + "/" + (git + "/" + commitHash)) == tail;
    assert "https:" + "/" + ("" + "/" + (host + "/" + ("build" + "/" + tail))) == "https://" + host + "/build/" + tail;
  }

  /** The build URL is decodable: its `/`-pieces are exactly the host, the
      provider, the owner, the repository with `.git` and the commit, so two
      requests with different fields never share a URL. */
  lemma BuildUrlPieces(binderName: string, domainName: string, repo: string, owner: string,
                       provider: string, commitHash: string)
    requires '/' !in binderName && '/' !in domainName && '/' !in repo
    requires '/' !in owner && '/' !in provider && '/' !in commitHash
    ensures Split(GetBinderBuildUrl(binderName, domainName, repo, owner, provider, commitHash), '/')
         == ["https:", "", binderName + "." + domainName, "build", provider, owner, repo + ".git", commitHash]
  {
    var bd := binderName + "." + domainName;
    var git := repo + ".git";
    var parts := ["https:", "", bd, "build", provider, owner, git, commitHash];
    assert '/' !in bd && '/' !in git;
    assert GetBinderBuildUrl(binderName, domainName, repo, owner, provider, commitHash)
        == "https://" + bd + "/build/" + provider + "/" + owner + "/" + git + "/" + commitHash;
    BuildUrlJoined(bd, provider, owner, git, commitHash);
    JoinEight("https:", "", bd, "build", provider, owner, git, commitHash);
    SplitJoin(parts, '/');
  }

  /** `{provider}_{owner}_{repo}.lock` under `{cwd}/build_locks`. */
  function LockPath(cwd: string, p: Project): string {
    PathJoin(PathJoin(cwd, "build_locks"), p.provider + "_" + p.owner + "_" + p.repo + ".lock")
  }

  /** get_lock_filename */
  function GetLockFilename(repoUrl: string, cwd: string): (r: Result<string>)
    ensures r.Ok? <==> GetOwnerRepoProvider(repoUrl, false).Ok?
    ensures r.Ok? ==> EndsWith(r.value, ".lock")
  {
    match GetOwnerRepoProvider(repoUrl, false)
    case Err(e) => Err(e)
    case Ok(p) =>
      var f := p.provider + "_" + p.owner + "_" + p.repo + ".lock";
      assert f != [] && f[0] != '/';
      var d := PathJoin(cwd, "build_locks");
      assert PathJoin(d, f)[|PathJoin(d, f)| - |f|..] == f;
      Ok(LockPath(cwd, p))
  }

  /** The lock of any URL ending in `/{host}/{owner}/{repo}` on a known host. */
  lemma LockFilenameOfUrl(base: string, host: string, owner: string, repo: string, cwd: string)
    requires '/' !in host && '/' !in owner && '/' !in repo && KnownHost(host)
    ensures GetLockFilename(base + "/" + host + "/" + owner + "/" + repo, cwd)
         == Ok(LockPath(cwd, Project(owner, repo, Abbreviation(host))))
  {
    ParseRepoUrl(base, host, owner, repo, false);
  }

  /** The lock name of a GitHub repository, spelled out. */
  lemma GithubLockFilename(base: string, owner: string, repo: string)
    requires '/' !in owner && '/' !in repo
    ensures GetLockFilename(base + "/github.com/" + owner + "/" + repo, "/srv")
         == Ok("/srv/build_locks/gh_" + owner + "_" + repo + ".lock")
  {
    calc {
      GetLockFilename(base + "/github.com/" + owner + "/" + repo, "/srv");
      { assert base + "/github.com/" + owner + "/" + repo == base + "/" + "github.com" + "/" + owner + "/" + repo; }
      GetLockFilename(base + "/" + "github.com" + "/" + owner + "/" + repo, "/srv");
      { LockFilenameOfUrl(base, "github.com", owner, repo, "/srv"); }
      Ok(LockPath("/srv", Project(owner, repo, "gh")));
      Ok(PathJoin(PathJoin("/srv", "build_locks"), "gh" + "_" + owner + "_" + repo + ".lock"));
      { assert PathJoin("/srv", "build_locks") == "/srv/build_locks"; }
      Ok(PathJoin("/srv/build_locks", "gh" + "_" + owner + "_" + repo + ".lock"));
      { assert ("gh" + "_" + owner + "_" + repo + ".lock")[0] == 'g'; }
      Ok("/srv/build_locks" + "/" + ("gh" + "_" + owner + "_" + repo + ".lock"));
      { assert "/srv/build_locks" + "/" + ("gh" + "_" + owner + "_" + repo + ".lock")
            == ("/srv/build_locks" + "/" + "gh" + "_") + owner + "_" + repo + ".lock";
        assert "/srv/build_locks/gh_" == "/srv/build_locks" + "/" + "gh" + "_"; }
      Ok("/srv/build_locks/gh_" + owner + "_" + repo + ".lock");
    }
  }

  /** The lock file of a `gitlab.com` URL with owner `o` and repository `r`. */
  lemma GitlabLock(base: string, o: string, r: string, cwd: string)
    requires '/' !in o && '/' !in r && o != "" && r != ""
    ensures GetLockFilename(base + "/gitlab.com/" + o + "/" + r, cwd) == Ok(LockPath(cwd, Project(o, r, "gl")))
  {
    assert base + "/gitlab.com/" + o + "/" + r == base + "/" + "gitlab.com" + "/" + o + "/" + r;
    LockFilenameOfUrl(base, "gitlab.com", o, r, cwd);
  }

  /** The project of a `gitlab.com` URL with owner `o` and repository `r`. */
  lemma GitlabProject(base: string, o: string, r: string)
    requires '/' !in o && '/' !in r && o != "" && r != ""
    ensures GetOwnerRepoProvider(base + "/gitlab.com/" + o + "/" + r, false) == Ok(Project(o, r, "gl"))
  {
    assert base + "/gitlab.com/" + o + "/" + r == base + "/" + "gitlab.com" + "/" + o + "/" + r;
    ParseRepoUrl(base, "gitlab.com", o, r, false);
  }

  /** Moving an underscore across the separator keeps the lock name. */
  lemma UnderscoreShift(p: string, x: string, y: string, r: string)
    ensures p + "_" + (x + "_" + y) + "_" + r + ".lock" == p + "_" + x + "_" + (y + "_" + r) + ".lock"
  {
  }

  /** The lock name does not identify the project: an underscore moved from
      the owner to the repository gives the same lock, so two GitLab projects
      (`x_y/r` and `x/y_r`) can block each other. */
  lemma LockNamesCollide(base: string, x: string, y: string, r: string, cwd: string)
    requires '/' !in x && '/' !in y && '/' !in r && x != "" && r != ""
    ensures GetLockFilename(base + "/gitlab.com/" + (x + "_" + y) + "/" + r, cwd)
         == GetLockFilename(base + "/gitlab.com/" + x + "/" + (y + "_" + r), cwd)
    ensures GetOwnerRepoProvider(base + "/gitlab.com/" + (x + "_" + y) + "/" + r, false)
         != GetOwnerRepoProvider(base + "/gitlab.com/" + x + "/" + (y + "_" + r), false)
  {
    GitlabLock(base, x + "_" + y, r, cwd);
    GitlabLock(base, x, y + "_" + r, cwd);
    UnderscoreShift("gl", x, y, r);
    GitlabProject(base, x + "_" + y, r);
    GitlabProject(base, x, y + "_" + r);
    assert |x + "_" + y| != |x|;
  }

  // ---------------------------------------------------------------------
  // Lock store (check_lock_status)
  // ---------------------------------------------------------------------

  /** The three outcomes of a lock check; a busy lock reports the minutes
      left, here counted in tenths of a minute. */
  datatype LockStatus = NotLocked | Unlocked | Busy(remainingTenths: nat)

  /** Seconds left, as tenths of a minute rounded to the nearest tenth, a
      tie rounding up. */
  function TenthsOfMinute(secondsLeft: nat): nat {
    (secondsLeft + 3) / 6
  }

  /** The outcome of check_lock_status for a lock directory: no lock; a lock
      older than the limit (expired, to be removed); or busy with
      `limit - age/60` minutes left. */
  function LockStatusOf(locks: map<string, int>, name: string, limit: nat, now: int): (s: LockStatus)
    ensures s.NotLocked? <==> name !in locks
    ensures s.Unlocked? <==> name in locks && now - locks[name] > limit * 60
    ensures s.Busy? ==> name in locks && now - locks[name] <= limit * 60
    ensures s.Busy? && now >= locks[name] ==> s.remainingTenths <= 10 * limit
  {
    if name !in locks then NotLocked
    else
      var age := now - locks[name];
      if age > limit * 60 then Unlocked else Busy(TenthsOfMinute(limit * 60 - age))
  }

  /** The directory of lock files, keyed by path, with each file's mtime. */
  class LockStore {
    var locks: map<string, int>

    constructor (initial: map<string, int>)
      ensures locks == initial
    {
      locks := initial;
    }

    /** check_lock_status: an expired lock is deleted; nothing else changes. */
    method CheckLockStatus(name: string, limit: nat, now: int) returns (status: LockStatus)
      modifies this
      ensures status == LockStatusOf(old(locks), name, limit, now)
      ensures locks == if status.Unlocked? then old(locks) - {name} else old(locks)
    {
      if name in locks {
        var age := now - locks[name];
        if age > limit * 60 {
          locks := locks - {name};
          return Unlocked;
        } else {
          return Busy(TenthsOfMinute(limit * 60 - age));
        }
      } else {
        return NotLocked;
      }
    }

    /** `os.remove`: FileNotFoundError when the file is absent. */
    method Remove(name: string) returns (r: Result<()>)
      modifies this
      ensures locks == old(locks) - {name}
      ensures r == if name in old(locks) then Ok(()) else Err(Raised("FileNotFoundError"))
    {
      r := if name in locks then Ok(()) else Err(Raised("FileNotFoundError"));
      locks := locks - {name};
    }

    /** `open(name, "w")`: the file exists afterwards with a fresh mtime. */
    method Touch(name: string, now: int)
      modifies this
      ensures locks == old(locks)[name := now]
    {
      locks := locks[name := now];
    }
  }

  // ---------------------------------------------------------------------
  // Admission (run_binder_build_preflight_checks)
  // ---------------------------------------------------------------------

  /** Python's `str()` of a float rounded to one decimal. */
  function TenthsText(t: nat): string {
    NatToString(t / 10) + "." + NatToString(t % 10)
  }

  function BusyMessage(p: Project, t: nat): string {
    "Looks like a build is already in progress for " + p.owner + "/" + p.repo + ". Will be unlocked in "
    + TenthsText(t) + " minutes. Please try again later or request unlock (reviewers/editors only)."
  }

  function CommitOf(commitHash: string, lsRemote: string): (r: Result<string>)
    ensures commitHash != "HEAD" ==> r == Ok(commitHash)
    ensures r.Err? ==> r == Err(Raised("IndexError"))
  {
    if commitHash == "HEAD" then ResolveHead(Split(lsRemote, '\n'), commitHash) else Ok(commitHash)
  }

  /** The preflight as a value: its result and the lock directory after it.
      Parse; check the lock; refuse with 409 while busy; otherwise (re)create
      the lock, then resolve the commit and compose the build URL. */
  function Preflight(locks: map<string, int>, repoUrl: string, commitHash: string, limit: nat,
                     binderName: string, domainName: string, cwd: string, now: int,
                     lsRemote: string): (res: (Result<string>, map<string, int>))
    ensures locks.Keys <= res.1.Keys
    ensures forall k :: k in res.1 && GetLockFilename(repoUrl, cwd) != Ok(k) ==> k in locks && res.1[k] == locks[k]
  {
    match GetOwnerRepoProvider(repoUrl, false)
    case Err(e) => (Err(e), locks)
    case Ok(p) =>
      var name := LockPath(cwd, p);
      match LockStatusOf(locks, name, limit, now)
      case Busy(t) => (Err(Abort(409, BusyMessage(p, t))), locks)
      case _ =>
        var after := locks[name := now];
        match CommitOf(commitHash, lsRemote)
        case Err(e) => (Err(e), after)
        case Ok(c) => (Ok(GetBinderBuildUrl(binderName, domainName, p.repo, p.owner, p.provider, c)), after)
  }

  /** run_binder_build_preflight_checks over the lock store. */
  method RunPreflight(store: LockStore, repoUrl: string, commitHash: string, limit: nat,
                      binderName: string, domainName: string, cwd: string, now: int,
                      lsRemote: string) returns (r: Result<string>)
    modifies store
    ensures (r, store.locks) == Preflight(old(store.locks), repoUrl, commitHash, limit, binderName,
                                          domainName, cwd, now, lsRemote)
  {
    var parsed := GetOwnerRepoProvider(repoUrl, false);
    if parsed.Err? {
      return Err(parsed.error);
    }
    var p := parsed.value;
    var name := GetLockFilename(repoUrl, cwd).value;
    assert name == LockPath(cwd, p);
    var status := store.CheckLockStatus(name, limit, now);
    if status.Busy? {
      return Err(Abort(409, BusyMessage(p, status.remainingTenths)));
    }
    store.Touch(name, now);
    assert store.locks == old(store.locks)[name := now];
    var commit := FormatCommitHash(commitHash, lsRemote);
    if commit.Err? {
      return Err(commit.error);
    }
    r := Ok(GetBinderBuildUrl(binderName, domainName, p.repo, p.owner, p.provider, commit.value));
  }

  /** An unrecognised provider (or an unparseable URL) fails before any lock
      is inspected or written. */
  lemma PreflightRejectsBeforeLocking(locks: map<string, int>, repoUrl: string, commitHash: string, limit: nat,
                                      binderName: string, domainName: string, cwd: string, now: int, lsRemote: string)
    requires GetOwnerRepoProvider(repoUrl, false).Err?
    ensures var (r, after) := Preflight(locks, repoUrl, commitHash, limit, binderName, domainName, cwd, now, lsRemote);
            r == Err(GetOwnerRepoProvider(repoUrl, false).error) && after == locks
  {
  }

  /** A busy lock aborts with 409 and leaves the lock store as it was; every
      other path leaves a fresh lock behind, even when resolving the commit
      raises afterwards. */
  lemma PreflightLockOutcome(locks: map<string, int>, repoUrl: string, commitHash: string, limit: nat,
                             binderName: string, domainName: string, cwd: string, now: int, lsRemote: string)
    requires GetOwnerRepoProvider(repoUrl, false).Ok?
    ensures var name := GetLockFilename(repoUrl, cwd).value;
            var (r, after) := Preflight(locks, repoUrl, commitHash, limit, binderName, domainName, cwd, now, lsRemote);
            if LockStatusOf(locks, name, limit, now).Busy?
            then r.Err? && r.error.Abort? && r.error.code == 409 && after == locks
            else after == locks[name := now] && name in after
  {
  }

  /** Admission succeeds exactly when the URL names a known host, the lock
      is free or expired, and the commit resolves; the URL then carries the
      resolved commit. */
  lemma PreflightSucceeds(locks: map<string, int>, repoUrl: string, commitHash: string, limit: nat,
                          binderName: string, domainName: string, cwd: string, now: int, lsRemote: string)
    ensures var (r, _) := Preflight(locks, repoUrl, commitHash, limit, binderName, domainName, cwd, now, lsRemote);
            r.Ok? <==> (GetOwnerRepoProvider(repoUrl, false).Ok?
                        && !LockStatusOf(locks, GetLockFilename(repoUrl, cwd).value, limit, now).Busy?
                        && CommitOf(commitHash, lsRemote).Ok?)
    ensures var (r, _) := Preflight(locks, repoUrl, commitHash, limit, binderName, domainName, cwd, now, lsRemote);
            r.Ok? ==>
              var p := GetOwnerRepoProvider(repoUrl, false).value;
              r.value == GetBinderBuildUrl(binderName, domainName, p.repo, p.owner, p.provider,
                                           CommitOf(commitHash, lsRemote).value)
  {
  }

  /** `github.com/acme/demo` is parsed as expected. */
  lemma AcmeDemoParsed(base: string)
    ensures GetOwnerRepoProvider(base + "/github.com/acme/demo", false) == Ok(Project("acme", "demo", "gh"))
  {
    calc {
      GetOwnerRepoProvider(base + "/github.com/acme/demo", false);
      { assert base + "/github.com/acme/demo" == base + "/" + "github.com" + "/" + "acme" + "/" + "demo"; }
      GetOwnerRepoProvider(base + "/" + "github.com" + "/" + "acme" + "/" + "demo", false);
      { ParseRepoUrl(base, "github.com", "acme", "demo", false); }
      Ok(Project("acme", "demo", "gh"));
    }
  }

  /** ... and locked under `/srv/build_locks`. */
  lemma AcmeDemoLock()
    ensures LockPath("/srv", Project("acme", "demo", "gh")) == "/srv/build_locks/gh_acme_demo.lock"
  {
    assert "gh" + "_" + "acme" + "_" + "demo" + ".lock" == "gh_acme_demo.lock";
    assert "/srv" + "/" + "build_locks" == "/srv/build_locks";
    assert "/srv/build_locks" + "/" + "gh_acme_demo.lock" == "/srv/build_locks/gh_acme_demo.lock";
  }

  /** A first build of `github.com/acme/demo` with no lock present is
      admitted and takes the lock at the current time. */
  lemma FirstBuildIsAdmitted(base: string, t: int)
    ensures Preflight(map[], base + "/github.com/acme/demo", "abc123", 30, "binder", "example.org", "/srv", t, "")
         == (Ok(GetBinderBuildUrl("binder", "example.org", "demo", "acme", "gh", "abc123")),
             map["/srv/build_locks/gh_acme_demo.lock" := t])
  {
    AcmeDemoParsed(base);
    AcmeDemoLock();
    assert LockStatusOf(map[], "/srv/build_locks/gh_acme_demo.lock", 30, t) == NotLocked;
  }

  /** A second build five minutes later under a 30 minute limit is refused
      with 409 and 25.0 minutes left, and the lock is left alone. */
  lemma SecondBuildIsRateLimited(base: string, t: int)
    ensures Preflight(map["/srv/build_locks/gh_acme_demo.lock" := t], base + "/github.com/acme/demo", "abc123",
                      30, "binder", "example.org", "/srv", t + 300, "")
         == (Err(Abort(409, BusyMessage(Project("acme", "demo", "gh"), 250))),
             map["/srv/build_locks/gh_acme_demo.lock" := t])
  {
    AcmeDemoParsed(base);
    AcmeDemoLock();
    assert TenthsOfMinute(1500) == 250;
    assert LockStatusOf(map["/srv/build_locks/gh_acme_demo.lock" := t], "/srv/build_locks/gh_acme_demo.lock", 30, t + 300)
        == Busy(250);
  }

  /** The refusal of that second build tells the user 25.0 minutes. */
  lemma BusyMessageText()
    ensures BusyMessage(Project("acme", "demo", "gh"), 250)
         == "Looks like a build is already in progress for " + "acme/demo" + ". Will be unlocked in " + "25.0"
            + " minutes. Please try again later or request unlock (reviewers/editors only)."
  {
    assert NatToString(25) == "25" by {
      assert NatToString(2) == "2";
    }
    assert TenthsText(250) == "25.0" by {
      assert NatToString(0) == "0";
    }
    assert "acme" + "/" + "demo" == "acme/demo";
  }

  // ---------------------------------------------------------------------
  // Book inventory (the path-to-record part of load_all)
  // ---------------------------------------------------------------------

  datatype Book = Book(bookUrl: string, bookBuildLogs: string, downloadLink: string,
                       notebookList: seq<string>, repoLink: string, userName: string,
                       repoName: string, providerName: string, commitHash: string,
                       timeAdded: string)

  /** One book record from a `{root}/{user}/{provider}/{repo}/{commit}.tar.gz`
      path: the last four pieces of the path without `.tar.gz` name it. The
      notebook list (from walking the directory) and the creation time are
      given. */
  function BookFromPath(path: string, notebooks: seq<string>, timeAdded: string): (r: Result<Book>)
    ensures r.Err? <==> |Split(ReplaceAll(path, ".tar.gz", ""), '/')| < 4
    ensures r.Err? ==> r.error == Raised("IndexError")
    ensures r.Ok? ==>
              var parts := Split(ReplaceAll(path, ".tar.gz", ""), '/');
              var n := |parts|;
              && r.value.userName == parts[n - 4] && r.value.providerName == parts[n - 3]
              && r.value.repoName == parts[n - 2] && r.value.commitHash == parts[n - 1]
              && '/' !in r.value.commitHash
              && r.value.notebookList == notebooks && r.value.timeAdded == timeAdded
  {
    var parts := Split(ReplaceAll(path, ".tar.gz", ""), '/');
    if |parts| < 4 then Err(Raised("IndexError"))
    else
      var n := |parts|;
      Ok(BookRecord(parts[n - 4], parts[n - 3], parts[n - 2], parts[n - 1],
                    BookUrl + ReplaceAll(path, BookRoot, ""), notebooks, timeAdded))
  }

  /** The record of one build of `{provider}/{user}/{repo}` at `commit`. */
  function BookRecord(user: string, provider: string, repo: string, commit: string, downloadLink: string,
                      notebooks: seq<string>, timeAdded: string): Book
  {
    var stem := "/" + user + "/" + provider + "/" + repo + "/" + commit;
    Book(BookUrl + stem + "/_build/html/", BookUrl + stem + "/book-build.log", downloadLink, notebooks,
         "https://" + provider + "/" + user + "/" + repo, user, repo, provider, commit, timeAdded)
  }

  /** No proper suffix of `.tar.gz` is also a prefix of it. */
  lemma TarGzHasNoBorder(m: nat)
    requires 1 <= m < 7
    ensures ".tar.gz"[m..] != ".tar.gz"[..7 - m]
  {
    var pat := ".tar.gz";
    if m == 4 {
      assert pat[m..][1] != pat[..7 - m][1];
    } else {
      assert pat[m..][0] != pat[..7 - m][0];
    }
  }

  /** An occurrence inside the path would be found by `find`. */
  lemma TarGzNotInside(x: string, k: nat)
    requires !Contains(x, ".tar.gz") && k + 7 <= |x|
    ensures !StartsWith((x + ".tar.gz")[k..], ".tar.gz")
  {
    FindSpec(x, ".tar.gz");
    assert !StartsWith(x[k..], ".tar.gz");
    assert (x + ".tar.gz")[k..][..7] == x[k..][..7];
  }

  /** A window of `x + pat` starting at `k` inside `x` and reaching past
      `x` begins with the rest of `x` and continues with the head of `pat`,
      so matching `pat` there would make a border of `pat`. */
  lemma SuffixOverlap(x: string, pat: string, k: nat)
    requires k < |x| < k + |pat|
    ensures StartsWith((x + pat)[k..], pat) ==> pat[|x| - k..] == pat[..|pat| - (|x| - k)]
  {
    var s, m := x + pat, |x| - k;
    if StartsWith(s[k..], pat) {
      assert s[k..][..|pat|] == pat;
      forall j | 0 <= j < |pat| - m
        ensures pat[m..][j] == pat[..|pat| - m][j]
      {
        calc {
          pat[m..][j];
          s[k..][..|pat|][m + j];
          s[|x| + j];
          pat[j];
        }
      }
    }
  }

  /** An occurrence straddling the suffix would be a border of `.tar.gz`. */
  lemma TarGzNotStraddling(x: string, k: nat)
    requires k < |x| < k + 7
    ensures !StartsWith((x + ".tar.gz")[k..], ".tar.gz")
  {
    var m := |x| - k;
    TarGzHasNoBorder(m);
    SuffixOverlap(x, ".tar.gz", k);
  }

  /** `.tar.gz` cannot overlap itself, so the only occurrence in a path that
      has none before its suffix is the suffix. */
  lemma TarGzOnlyAtEnd(x: string)
    requires !Contains(x, ".tar.gz")
    ensures forall k :: 0 <= k < |x| ==> !StartsWith((x + ".tar.gz")[k..], ".tar.gz")
  {
    forall k | 0 <= k < |x| ensures !StartsWith((x + ".tar.gz")[k..], ".tar.gz") {
      if k + 7 <= |x| {
        TarGzNotInside(x, k);
      } else {
        TarGzNotStraddling(x, k);
      }
    }
  }

  /** Without its `.tar.gz`, an artifact path splits into the root's pieces
      followed by the user, provider, repository and commit. */
  lemma ArtifactPathPieces(root: string, user: string, provider: string, repo: string, commit: string)
    requires '/' !in user && '/' !in provider && '/' !in repo && '/' !in commit
    requires !Contains(root + "/" + user + "/" + provider + "/" + repo + "/" + commit, ".tar.gz")
    ensures Split(ReplaceAll(root + "/" + user + "/" + provider + "/" + repo + "/" + commit + ".tar.gz", ".tar.gz", ""), '/')
         == Split(root, '/') + [user, provider, repo, commit]
  {
    var r2 := root + "/" + user;
    var r3 := r2 + "/" + provider;
    var r4 := r3 + "/" + repo;
    var x := r4 + "/" + commit;
    assert ReplaceAll(x + ".tar.gz", ".tar.gz", "") == x by {
      TarGzOnlyAtEnd(x);
      ReplaceTail(x, ".tar.gz", "");
      assert x + "" == x;
    }
    calc {
      Split(x, '/');
      { SplitAppendPiece(r4, commit, '/'); }
      Split(r4, '/') + [commit];
      { SplitAppendPiece(r3, repo, '/'); }
      Split(r3, '/') + [repo] + [commit];
      { SplitAppendPiece(r2, provider, '/'); }
      Split(r2, '/') + [provider] + [repo] + [commit];
      { SplitAppendPiece(root, user, '/'); }
      Split(root, '/') + [user] + [provider] + [repo] + [commit];
      Split(root, '/') + [user, provider, repo, commit];
    }
  }

  /** Where the build of `{provider}/{user}/{repo}` at `commit` is archived. */
  function ArtifactPath(root: string, user: string, provider: string, repo: string, commit: string): string {
    root + "/" + user + "/" + provider + "/" + repo + "/" + commit + ".tar.gz"
  }

  /** A book artifact path `{root}/{user}/{provider}/{repo}/{commit}.tar.gz`
      gives back the record of exactly that user, provider, repository and
      commit. */
  lemma BookFromArtifactPath(root: string, user: string, provider: string, repo: string, commit: string,
                             notebooks: seq<string>, timeAdded: string)
    requires '/' !in user && '/' !in provider && '/' !in repo && '/' !in commit
    requires !Contains(root + "/" + user + "/" + provider + "/" + repo + "/" + commit, ".tar.gz")
    ensures BookFromPath(ArtifactPath(root, user, provider, repo, commit), notebooks, timeAdded)
         == Ok(BookRecord(user, provider, repo, commit,
                          BookUrl + ReplaceAll(ArtifactPath(root, user, provider, repo, commit), BookRoot, ""),
                          notebooks, timeAdded))
  {
    ArtifactPathPieces(root, user, provider, repo, commit);
    var parts := Split(root, '/') + [user, provider, repo, commit];
    var n := |parts|;
    assert parts[n - 4] == user && parts[n - 3] == provider && parts[n - 2] == repo && parts[n - 1] == commit;
  }

  // ---------------------------------------------------------------------
  // Book lookup (book_get_by_params)
  // ---------------------------------------------------------------------

  datatype BookKey = ByUser | ByCommit | ByRepo

  function KeyOf(b: Book, key: BookKey): string {
    match key
    case ByUser => b.userName
    case ByCommit => b.commitHash
    case ByRepo => b.repoName
  }

  /** The books whose `key` field equals `value`, in inventory order. */
  function BooksWhere(books: seq<Book>, key: BookKey, value: string): (r: seq<Book>)
    ensures |r| <= |books|
    ensures forall b :: b in r <==> b in books && KeyOf(b, key) == value
  {
    if books == [] then []
    else (if KeyOf(books[0], key) == value then [books[0]] else []) + BooksWhere(books[1..], key, value)
  }

  lemma {:induction false} BooksWhereAppend(books: seq<Book>, b: Book, key: BookKey, value: string)
    ensures BooksWhere(books + [b], key, value)
         == BooksWhere(books, key, value) + if KeyOf(b, key) == value then [b] else []
    decreases |books|
  {
    if books == [] {
      assert ([b])[1..] == [];
    } else {
      var whole := books + [b];
      assert whole[0] == books[0] && whole[1..] == books[1..] + [b];
      BooksWhereAppend(books[1..], b, key, value);
      var head := if KeyOf(books[0], key) == value then [books[0]] else [];
      var last := if KeyOf(b, key) == value then [b] else [];
      assert BooksWhere(whole, key, value) == head + BooksWhere(whole[1..], key, value);
      assert BooksWhere(books, key, value) == head + BooksWhere(books[1..], key, value);
      AppendAssoc(head, BooksWhere(books[1..], key, value), last);
    }
  }

  /** `xs` is obtained from `ys` by deleting elements (order preserved). */
  predicate Subsequence(xs: seq<Book>, ys: seq<Book>)
    decreases |ys|
  {
    if xs == [] then true
    else if ys == [] then false
    else if xs[0] == ys[0] then Subsequence(xs[1..], ys[1..])
    else Subsequence(xs, ys[1..])
  }

  lemma {:induction false} BooksWhereIsSubsequence(books: seq<Book>, key: BookKey, value: string)
    ensures Subsequence(BooksWhere(books, key, value), books)
    decreases |books|
  {
    if books != [] {
      BooksWhereIsSubsequence(books[1..], key, value);
      var rest := BooksWhere(books[1..], key, value);
      if KeyOf(books[0], key) == value {
        assert ([books[0]] + rest)[1..] == rest;
      } else {
        assert [] + rest == rest;
      }
    }
  }

  /** The filter book_get_by_params applies: the first given parameter in the
      order user name, commit, repository, or nothing at all. */
  function SelectBooks(books: seq<Book>, userName: Option<string>, commitHash: Option<string>,
                       repoName: Option<string>): (r: seq<Book>)
    ensures |r| <= |books|
    ensures userName.Some? ==> forall b :: b in r <==> b in books && b.userName == userName.value
    ensures userName.None? && commitHash.Some? ==>
              forall b :: b in r <==> b in books && b.commitHash == commitHash.value
    ensures userName.None? && commitHash.None? && repoName.Some? ==>
              forall b :: b in r <==> b in books && b.repoName == repoName.value
  {
    if userName.Some? then BooksWhere(books, ByUser, userName.value)
    else if commitHash.Some? then BooksWhere(books, ByCommit, commitHash.value)
    else if repoName.Some? then BooksWhere(books, ByRepo, repoName.value)
    else []
  }

  /** book_get_by_params over the inventory `load_all` returned. */
  method BookGetByParams(books: seq<Book>, userName: Option<string>, commitHash: Option<string>,
                         repoName: Option<string>) returns (results: seq<Book>)
    ensures results == SelectBooks(books, userName, commitHash, repoName)
  {
    results := [];
    if userName.Some? || commitHash.Some? || repoName.Some? {
      var key := if userName.Some? then ByUser else if commitHash.Some? then ByCommit else ByRepo;
      var value := if userName.Some? then userName.value else if commitHash.Some? then commitHash.value
                   else repoName.value;
      for i := 0 to |books|
        invariant results == BooksWhere(books[..i], key, value)
      {
        BooksWhereAppend(books[..i], books[i], key, value);
        assert books[..i + 1] == books[..i] + [books[i]];
        if KeyOf(books[i], key) == value {
          results := results + [books[i]];
        }
      }
      assert books[..|books|] == books;
    }
  }

  /** The lookup returns an order-preserving selection of the inventory; with
      no parameter at all it is empty. */
  lemma SelectBooksIsSelection(books: seq<Book>, userName: Option<string>, commitHash: Option<string>,
                               repoName: Option<string>)
    ensures Subsequence(SelectBooks(books, userName, commitHash, repoName), books)
    ensures userName.None? && commitHash.None? && repoName.None? ==> SelectBooks(books, userName, commitHash, repoName) == []
  {
    if userName.Some? { BooksWhereIsSubsequence(books, ByUser, userName.value); }
    else if commitHash.Some? { BooksWhereIsSubsequence(books, ByCommit, commitHash.value); }
    else if repoName.Some? { BooksWhereIsSubsequence(books, ByRepo, repoName.value); }
  }

  /** Precedence, not intersection: given a user name, the commit is ignored,
      so a book of that user at another commit is returned. */
  lemma SelectBooksIgnoresLaterParameters(b: Book, c: string)
    requires b.commitHash != c
    ensures SelectBooks([b], Some(b.userName), Some(c), None) == [b]
  {
  }

  // ---------------------------------------------------------------------
  // Front matter (parse_front_matter)
  // ---------------------------------------------------------------------

  predicate IsDelimiter(line: string) {
    Strip(line) == "---"
  }

  /** The lines parse_front_matter collects: a delimiter flips the toggle,
      another line is kept while the toggle is on and ends the scan while it
      is off. */
  function FrontMatter(lines: seq<string>, inFront: bool): (r: seq<string>)
    ensures |r| <= |lines|
    ensures forall l :: l in r ==> l in lines
  {
    if lines == [] then []
    else if IsDelimiter(lines[0]) then FrontMatter(lines[1..], !inFront)
    else if inFront then [lines[0]] + FrontMatter(lines[1..], true)
    else []
  }

  /** parse_front_matter up to the YAML parser: the text handed to
      `yaml.safe_load`. */
  method ParseFrontMatter(markdown: string) returns (front: string)
    ensures front == Join(FrontMatter(Split(markdown, '\n'), false), "\n")
  {
    var lines := Split(markdown, '\n');
    var collected: seq<string> := [];
    var inFront := false;
    var i := 0;
    while i < |lines|
      invariant 0 <= i <= |lines|
      invariant collected + FrontMatter(lines[i..], inFront) == FrontMatter(lines, false)
    {
      assert lines[i..][1..] == lines[i + 1..];
      if IsDelimiter(lines[i]) {
        inFront := !inFront;
        i := i + 1;
        continue;
      }
      if inFront {
        assert collected + FrontMatter(lines[i..], inFront)
            == (collected + [lines[i]]) + FrontMatter(lines[i + 1..], true);
        collected := collected + [lines[i]];
      } else {
        assert collected + [] == collected;
        break;
      }
      i := i + 1;
    }
    if i == |lines| {
      assert lines[i..] == [];
      assert collected + [] == collected;
    }
    front := Join(collected, "\n");
  }

  /** The toggle after reading `lines` from state `b`. */
  function ToggleAfter(lines: seq<string>, b: bool): bool {
    if lines == [] then b else ToggleAfter(lines[1..], if IsDelimiter(lines[0]) then !b else b)
  }

  /** No delimiter line ever reaches the collected front matter. */
  lemma {:induction false} FrontMatterHasNoDelimiters(lines: seq<string>, inFront: bool)
    ensures forall l :: l in FrontMatter(lines, inFront) ==> !IsDelimiter(l)
    decreases |lines|
  {
    if lines != [] {
      FrontMatterHasNoDelimiters(lines[1..], if IsDelimiter(lines[0]) then !inFront else inFront);
    }
  }

  /** A document whose first line is not a delimiter has no front matter. */
  lemma FrontMatterNeedsOpening(lines: seq<string>)
    requires lines != [] && !IsDelimiter(lines[0])
    ensures FrontMatter(lines, false) == []
  {
  }

  /** Scanning stops at the first non-delimiter line read while the toggle
      is off: nothing after it can change the result. */
  lemma {:induction false} FrontMatterIgnoresTail(pre: seq<string>, line: string, rest: seq<string>,
                                                  rest': seq<string>, b: bool)
    requires !ToggleAfter(pre, b) && !IsDelimiter(line)
    ensures FrontMatter(pre + [line] + rest, b) == FrontMatter(pre + [line] + rest', b)
    decreases |pre|
  {
    if pre != [] {
      assert (pre + [line] + rest)[1..] == pre[1..] + [line] + rest;
      assert (pre + [line] + rest')[1..] == pre[1..] + [line] + rest';
      FrontMatterIgnoresTail(pre[1..], line, rest, rest', if IsDelimiter(pre[0]) then !b else b);
    }
  }

  // ---------------------------------------------------------------------
  // Build logs (book_execution_errored, book_log_collector)
  // ---------------------------------------------------------------------

  /** A file of the book's execution reports directory. */
  datatype LogFile = LogFile(name: string, lines: seq<string>)

  /** book_execution_errored: the reports directory exists and holds at
      least one regular file (`reports` is `None` when the directory does not
      exist). */
  function BookExecutionErrored(reports: Option<seq<LogFile>>): (r: bool)
    ensures r <==> reports.Some? && exists f :: f in reports.value
  {
    reports.Some? && |reports.value| > 0 && reports.value[0] in reports.value
  }

  /** A log file's text: each line right-stripped, joined by newlines. */
  function LogText(lines: seq<string>): string {
    Join(seq(|lines|, i requires 0 <= i < |lines| => RStrip(lines[i])), "\n")
  }

  /** A section of the collected logs. */
  datatype LogSection =
    | BuildLog(lines: seq<string>)
    | ExecutionLog(file: LogFile)
    | DebugHint
    | NoBookLog(owner: string, repo: string, commitHash: string)

  const DebugFooter := "<p>&#128030; After inspecting the logs above, you can interactively debug your notebooks on our <a href=\"https://binder.conp.cloud\">BinderHub server</a>.</p> <p>For guidelines, please see <a href=\"https://docs.neurolibre.org/en/latest/TEST_SUBMISSION.html#debugging-for-long-neurolibre-submission\">the relevant documentation.</a></p>"

  /** The HTML of a section. */
  function SectionText(section: LogSection): string {
    match section
    case BuildLog(lines) =>
      "<details><summary> <b>Jupyter Book build log</b> </summary><pre><code>" + LogText(lines) + "</code></pre></details>"
    case ExecutionLog(f) =>
      var base := Split(f.name, '.')[0];
      "<details><summary> <b>Execution error log</b> for <code>" + base + "</code> notebook (" + base
      + ".ipynb) or MyST (" + base + ".md)).</summary><pre><code>" + LogText(f.lines) + "</code></pre></details>"
    case DebugHint => DebugFooter
    case NoBookLog(owner, repo, commitHash) =>
      "I could not find any book log for " + owner + "/" + repo + " at " + commitHash
  }

  /** The sections joined by newlines. */
  function LogsText(sections: seq<LogSection>): string {
    Join(seq(|sections|, i requires 0 <= i < |sections| => SectionText(sections[i])), "\n")
  }

  function ReportSections(reports: seq<LogFile>): (r: seq<LogSection>)
    ensures |r| == |reports|
    ensures forall i :: 0 <= i < |reports| ==> r[i] == ExecutionLog(reports[i])
    ensures reports == [] ==> r == []
  {
    seq(|reports|, i requires 0 <= i < |reports| => ExecutionLog(reports[i]))
  }

  /** The sections book_log_collector joins: the main log, one section per
      report in listing order and the footer; or only the not-found message. */
  function LogSections(owner: string, repo: string, commitHash: string, mainLog: Option<seq<string>>,
                       reports: Option<seq<LogFile>>): (r: seq<LogSection>)
    ensures mainLog.None? ==> |r| == 1
    ensures mainLog.Some? ==> |r| == 2 + (if reports.Some? then |reports.value| else 0)
  {
    if mainLog.None? then [NoBookLog(owner, repo, commitHash)]
    else [BuildLog(mainLog.value)] + (if reports.Some? then ReportSections(reports.value) else [])
         + [DebugHint]
  }

  /** One more report adds its section at the end. */
  lemma ReportSectionsSnoc(files: seq<LogFile>, i: nat)
    requires i < |files|
    ensures ReportSections(files[..i + 1]) == ReportSections(files[..i]) + [ExecutionLog(files[i])]
  {
  }

  /** book_log_collector over the main log (absent or its lines) and the
      listing of the reports directory (absent or its files): the sections
      it joins, whose text is LogsText. */
  method BookLogCollector(owner: string, repo: string, commitHash: string, mainLog: Option<seq<string>>,
                          reports: Option<seq<LogFile>>) returns (sections: seq<LogSection>)
    ensures sections == LogSections(owner, repo, commitHash, mainLog, reports)
  {
    sections := [];
    if mainLog.Some? {
      sections := sections + [BuildLog(mainLog.value)];
      if reports.Some? {
        var files := reports.value;
        for i := 0 to |files|
          invariant sections == [BuildLog(mainLog.value)] + ReportSections(files[..i])
        {
          ReportSectionsSnoc(files, i);
          sections := sections + [ExecutionLog(files[i])];
        }
        assert files[..|files|] == files;
      }
      sections := sections + [DebugHint];
    } else {
      sections := sections + [NoBookLog(owner, repo, commitHash)];
    }
  }

  /** Without a main log only the not-found message is returned and the
      reports are never looked at. */
  lemma LogsWithoutMainLog(owner: string, repo: string, commitHash: string, reports: Option<seq<LogFile>>,
                           reports': Option<seq<LogFile>>)
    ensures LogSections(owner, repo, commitHash, None, reports) == [NoBookLog(owner, repo, commitHash)]
    ensures LogsText(LogSections(owner, repo, commitHash, None, reports))
            == "I could not find any book log for " + owner + "/" + repo + " at " + commitHash
    ensures LogSections(owner, repo, commitHash, None, reports) == LogSections(owner, repo, commitHash, None, reports')
  {
    var s := LogSections(owner, repo, commitHash, None, reports);
    assert seq(|s|, i requires 0 <= i < |s| => SectionText(s[i])) == [SectionText(s[0])];
  }

  /** With a main log, the execution-error sections are there exactly when
      book_execution_errored holds: one per report, between the main log and
      the footer. */
  lemma LogSectionsMatchErrored(owner: string, repo: string, commitHash: string, mainLog: seq<string>,
                                reports: Option<seq<LogFile>>)
    ensures var s := LogSections(owner, repo, commitHash, Some(mainLog), reports);
            && s[0] == BuildLog(mainLog) && s[|s| - 1] == DebugHint
            && (|s| > 2 <==> BookExecutionErrored(reports))
            && (reports.Some? ==> forall i :: 0 <= i < |reports.value| ==> s[i + 1] == ExecutionLog(reports.value[i]))
  {
    var middle := if reports.Some? then ReportSections(reports.value) else [];
    FramedSections(BuildLog(mainLog), middle, DebugHint);
  }

  /** The positions in a first section, middle sections and a last one. */
  lemma FramedSections(first: LogSection, middle: seq<LogSection>, last: LogSection)
    ensures var s := [first] + middle + [last];
            && |s| == |middle| + 2 && s[0] == first && s[|s| - 1] == last
            && forall i :: 0 <= i < |middle| ==> s[i + 1] == middle[i]
  {
  }

}
