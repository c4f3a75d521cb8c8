/** fork_configure_repository_task and rsync_book_task: fork the author's
    repository into roboneurolibre, point its Jupyter Book configuration at
    the production BinderHub and the fork, add the citable entry to its table
    of contents; and move a built book to production under its DOI path. */
module Fork {
  import opened Results
  import opened Strings
  import opened Dicts
  import opened Common

  const DoiPrefix := "10.55458"
  const DoiSuffix := "neurolibre"
  const JournalName := "NeuroLibre"
  const PapersPath := "https://neurolibre.org/papers"
  const ProductionBinderhub := "https://binder-mcgill.conp.cloud"
  const MaxRetries := 5
  const RetryDelay := 15
  const CitableTitle := "Citable PDF and archives"

  // ---------------------------------------------------------------------
  // YAML documents (_config.yml, _toc.yml)
  // ---------------------------------------------------------------------

  /** A loaded YAML value. */
  datatype Yaml =
    | YNull
    | YBool(b: bool)
    | YInt(i: int)
    | YStr(s: string)
    | YList(items: seq<Yaml>)
    | YMap(entries: Dict<Yaml>)

  /** Python truthiness of a loaded value. */
  predicate Truthy(y: Yaml) {
    match y
    case YNull => false
    case YBool(b) => b
    case YInt(i) => i != 0
    case YStr(s) => s != ""
    case YList(items) => items != []
    case YMap(entries) => entries != []
  }

  /** `if not doc[section]: doc[section] = {}` followed by
      `doc[section][key] = value`: a missing section raises `KeyError`, a
      section that is neither falsy nor a mapping refuses item assignment. */
  function SetSection(doc: Dict<Yaml>, section: string, key: string, value: Yaml): (r: Result<Dict<Yaml>>)
    ensures r == Err(Raised("KeyError")) <==> !HasKey(doc, section)
    ensures r.Err? ==> r.error == Raised("KeyError") || r.error == Raised("TypeError")
    ensures r.Ok? ==> Keys(r.value) == Keys(doc)
    ensures r.Ok? ==> var s := Get(r.value, section); s.Some? && s.value.YMap? && Get(s.value.entries, key) == Some(value)
  {
    match Get(doc, section)
    case None => Err(Raised("KeyError"))
    case Some(s) =>
      var s' := if Truthy(s) then s else YMap([]);
      if s'.YMap? then Ok(Put(doc, section, YMap(Put(s'.entries, key, value))))
      else Err(Raised("TypeError"))
  }

  /** A section that SetSection can write into. */
  predicate Writable(doc: Dict<Yaml>, section: string) {
    HasKey(doc, section) && (!Truthy(Get(doc, section).value) || Get(doc, section).value.YMap?)
  }

  /** The settings a section keeps besides the key written: all of them when
      it was a non-empty mapping, none when it was falsy. */
  function KeptSettings(s: Yaml): Dict<Yaml> {
    if Truthy(s) && s.YMap? then s.entries else []
  }

  /** The configuration edits: the production BinderHub for the launch
      buttons and the fork as the book's repository. */
  function ConfigureBook(config: Dict<Yaml>, forkedName: string): (r: Result<Dict<Yaml>>)
    ensures r.Err? ==> r.error == Raised("KeyError") || r.error == Raised("TypeError")
    ensures !HasKey(config, "launch_buttons") ==> r == Err(Raised("KeyError"))
    ensures r.Ok? ==> Keys(r.value) == Keys(config)
  {
    match SetSection(config, "launch_buttons", "binderhub_url", YStr(ProductionBinderhub))
    case Err(e) => Err(e)
    case Ok(c) => SetSection(c, "repository", "url", YStr("https://github.com/" + forkedName))
  }

  /** The page every added entry links to. */
  function CitableUrl(issueId: nat): string {
    PapersPath + "/" + DoiPrefix + "/" + DoiSuffix + "." + Pad5(issueId)
  }

  function CitableChapter(issueId: nat): Yaml {
    YMap([("url", YStr(CitableUrl(issueId))), ("title", YStr(CitableTitle))])
  }

  function CitablePart(issueId: nat): Yaml {
    YMap([("caption", YStr(JournalName)), ("chapters", YList([CitableChapter(issueId)]))])
  }

  /** `if key in toc: toc[key].append(entry)`; a present value without
      `append` raises `AttributeError`. */
  function AppendIfPresent(toc: Dict<Yaml>, key: string, entry: Yaml): (r: Result<Dict<Yaml>>)
    ensures r.Err? ==> r.error == Raised("AttributeError")
    ensures r.Ok? ==> Keys(r.value) == Keys(toc)
  {
    match Get(toc, key)
    case None => Ok(toc)
    case Some(v) =>
      if v.YList? then Ok(Put(toc, key, YList(v.items + [entry])))
      else Err(Raised("AttributeError"))
  }

  /** The table-of-contents edits: a part under `parts`, a chapter under
      `chapters`, and a chapter under `sections` for a `jb-article`. The
      `format` key is read unconditionally. */
  function AddCitableEntries(toc: Dict<Yaml>, issueId: nat): (r: Result<Dict<Yaml>>)
    ensures r.Err? ==> r.error == Raised("KeyError") || r.error == Raised("AttributeError")
    ensures r.Ok? ==> HasKey(toc, "format") && Keys(r.value) == Keys(toc)
  {
    match AppendIfPresent(toc, "parts", CitablePart(issueId))
    case Err(e) => Err(e)
    case Ok(t1) =>
      match AppendIfPresent(t1, "chapters", CitableChapter(issueId))
      case Err(e) => Err(e)
      case Ok(t2) =>
        match Get(t2, "format")
        case None => Err(Raised("KeyError"))
        case Some(f) =>
          if f == YStr("jb-article") && HasKey(t2, "sections") then AppendIfPresent(t2, "sections", CitableChapter(issueId))
          else Ok(t2)
  }

  /** What SetSection does to the section it writes and to the rest. */
  lemma SetSectionSpec(doc: Dict<Yaml>, section: string, key: string, value: Yaml)
    ensures SetSection(doc, section, key, value).Ok? <==> Writable(doc, section)
    ensures !HasKey(doc, section) ==> SetSection(doc, section, key, value) == Err(Raised("KeyError"))
    ensures var r := SetSection(doc, section, key, value);
            r.Ok? ==>
              && Keys(r.value) == Keys(doc)
              && (forall k :: k != section ==> Get(r.value, k) == Get(doc, k))
              && Get(r.value, section) == Some(YMap(Put(KeptSettings(Get(doc, section).value), key, value)))
  {
  }

  /** The configuration sent back names the production hub and the fork,
      keeps every other launch-button and repository setting, and leaves the
      rest of the file as it was; it fails exactly when a section is missing
      or is a truthy non-mapping. */
  lemma ConfigureBookSpec(config: Dict<Yaml>, forkedName: string)
    ensures ConfigureBook(config, forkedName).Ok? <==> Writable(config, "launch_buttons") && Writable(config, "repository")
    ensures var r := ConfigureBook(config, forkedName);
            r.Ok? ==>
              && Keys(r.value) == Keys(config)
              && (forall k :: k != "launch_buttons" && k != "repository" ==> Get(r.value, k) == Get(config, k))
              && Get(r.value, "launch_buttons")
                 == Some(YMap(Put(KeptSettings(Get(config, "launch_buttons").value), "binderhub_url", YStr(ProductionBinderhub))))
              && Get(r.value, "repository")
                 == Some(YMap(Put(KeptSettings(Get(config, "repository").value), "url", YStr("https://github.com/" + forkedName))))
  {
    SetSectionSpec(config, "launch_buttons", "binderhub_url", YStr(ProductionBinderhub));
    var first := SetSection(config, "launch_buttons", "binderhub_url", YStr(ProductionBinderhub));
    if first.Ok? {
      var c := first.value;
      SetSectionSpec(c, "repository", "url", YStr("https://github.com/" + forkedName));
      assert Get(c, "repository") == Get(config, "repository");
      assert Writable(c, "repository") <==> Writable(config, "repository");
    }
  }

  /** A present list gains exactly one entry at its end. */
  lemma AppendIfPresentSpec(toc: Dict<Yaml>, key: string, entry: Yaml)
    ensures AppendIfPresent(toc, key, entry).Ok? <==> !HasKey(toc, key) || Get(toc, key).value.YList?
    ensures var r := AppendIfPresent(toc, key, entry);
            r.Ok? ==>
              && Keys(r.value) == Keys(toc)
              && (forall k :: k != key ==> Get(r.value, k) == Get(toc, k))
              && Get(r.value, key) == (if HasKey(toc, key) then Some(YList(Get(toc, key).value.items + [entry])) else None)
  {
  }

  /** The value of `key` after the edits, given its value before and
      whether an entry is due. */
  function Appended(before: Option<Yaml>, due: bool, entry: Yaml): Option<Yaml> {
    if due && before.Some? && before.value.YList? then Some(YList(before.value.items + [entry])) else before
  }

  /** Exactly one entry is appended to `parts` and to `chapters` when they
      are present, and to `sections` only when the format is `jb-article`;
      nothing else changes. A missing `format` raises `KeyError`. */
  lemma AddCitableEntriesSpec(toc: Dict<Yaml>, issueId: nat)
    ensures var r := AddCitableEntries(toc, issueId);
            var article := Get(toc, "format") == Some(YStr("jb-article"));
            && (r.Ok? <==>
                  && (!HasKey(toc, "parts") || Get(toc, "parts").value.YList?)
                  && (!HasKey(toc, "chapters") || Get(toc, "chapters").value.YList?)
                  && HasKey(toc, "format")
                  && (article && HasKey(toc, "sections") ==> Get(toc, "sections").value.YList?))
            && (((!HasKey(toc, "parts") || Get(toc, "parts").value.YList?)
                 && (!HasKey(toc, "chapters") || Get(toc, "chapters").value.YList?)
                 && !HasKey(toc, "format")) ==> r == Err(Raised("KeyError")))
            && (r.Ok? ==>
                  && Keys(r.value) == Keys(toc)
                  && Get(r.value, "parts") == Appended(Get(toc, "parts"), true, CitablePart(issueId))
                  && Get(r.value, "chapters") == Appended(Get(toc, "chapters"), true, CitableChapter(issueId))
                  && Get(r.value, "sections") == Appended(Get(toc, "sections"), article, CitableChapter(issueId))
                  && (forall k :: k != "parts" && k != "chapters" && k != "sections" ==> Get(r.value, k) == Get(toc, k)))
  {
    AppendIfPresentSpec(toc, "parts", CitablePart(issueId));
    var r1 := AppendIfPresent(toc, "parts", CitablePart(issueId));
    if r1.Ok? {
      var t1 := r1.value;
      AppendIfPresentSpec(t1, "chapters", CitableChapter(issueId));
      var r2 := AppendIfPresent(t1, "chapters", CitableChapter(issueId));
      if r2.Ok? {
        var t2 := r2.value;
        assert Get(t2, "format") == Get(toc, "format");
        assert Get(t2, "sections") == Get(toc, "sections");
        if Get(t2, "format") == Some(YStr("jb-article")) && HasKey(t2, "sections") {
          AppendIfPresentSpec(t2, "sections", CitableChapter(issueId));
        }
      }
    }
  }

  /** Every added entry links to the DOI-formatted paper page of the issue. */
  lemma CitableEntriesShareUrl(issueId: nat)
    ensures CitableUrl(issueId) == "https://neurolibre.org/papers/10.55458/neurolibre." + Pad5(issueId)
    ensures Get(CitableChapter(issueId).entries, "url") == Some(YStr(CitableUrl(issueId)))
    ensures Get(CitablePart(issueId).entries, "chapters") == Some(YList([CitableChapter(issueId)]))
  {
    assert PapersPath + "/" + DoiPrefix + "/" + DoiSuffix + "." ==
           "https://neurolibre.org/papers/10.55458/neurolibre.";
  }

  // ---------------------------------------------------------------------
  // Waiting for the fork
  // ---------------------------------------------------------------------

  /** The polls after `tried` attempts: how many attempts were made in all
      and whether one of them found the fork (`available(k)` is the answer
      of attempt `k`). */
  function Polls(available: nat -> bool, tried: nat): (res: (nat, bool))
    ensures res.1 ==> tried < res.0 <= MaxRetries && available(res.0)
    ensures !res.1 ==> res.0 == if tried < MaxRetries then MaxRetries else tried
    decreases MaxRetries - tried
  {
    if tried >= MaxRetries then (tried, false)
    else if available(tried + 1) then (tried + 1, true)
    else Polls(available, tried + 1)
  }

  /** At most five attempts; the fork is found exactly when one of them
      answers, at the first attempt that does; otherwise all five are made. */
  lemma {:induction false} PollsSpec(available: nat -> bool, tried: nat)
    requires tried <= MaxRetries
    ensures var (attempts, found) := Polls(available, tried);
            && tried <= attempts <= MaxRetries
            && (found <==> exists k :: tried < k <= MaxRetries && available(k))
            && (found ==> available(attempts) && forall k :: tried < k < attempts ==> !available(k))
            && (!found ==> attempts == MaxRetries)
    decreases MaxRetries - tried
  {
    if tried < MaxRetries && !available(tried + 1) {
      PollsSpec(available, tried + 1);
      var (attempts, found) := Polls(available, tried + 1);
      if found {
        assert forall k :: tried < k < attempts ==> !available(k) by {
          forall k | tried < k < attempts ensures !available(k) {
            if k != tried + 1 { assert tried + 1 < k < attempts; }
          }
        }
      } else {
        forall k | tried < k <= MaxRetries ensures !available(k) {
          if k != tried + 1 { assert tried + 1 < k <= MaxRetries; }
        }
      }
    }
  }

  /** The retry loop: sleep, count the attempt, ask for the fork; stop when
      it is found or after five attempts. */
  method WaitForFork(available: nat -> bool) returns (found: bool, retryCount: nat)
    ensures (retryCount, found) == Polls(available, 0)
  {
    found := false;
    retryCount := 0;
    while retryCount < MaxRetries && !found
      invariant retryCount <= MaxRetries
      invariant Polls(available, 0) == if found then (retryCount, true) else Polls(available, retryCount)
      decreases MaxRetries - retryCount, if found then 0 else 1
    {
      retryCount := retryCount + 1;
      found := available(retryCount);
    }
  }

  /** The give-up test after the loop, `not forked_repo and retry_count ==
      max_retries`, holds exactly when no attempt found the fork. */
  lemma GiveUpIffNotFound(available: nat -> bool)
    ensures var (attempts, found) := Polls(available, 0);
            (!found && attempts == MaxRetries) <==> !exists k :: 0 < k <= MaxRetries && available(k)
  {
    PollsSpec(available, 0);
  }

  // ---------------------------------------------------------------------
  // fork_configure_repository_task
  // ---------------------------------------------------------------------

  /** The notifications of the fork task. */
  datatype ForkNotice =
    | Started
    | Forking
    | CannotFork
    | StillUnavailable(seconds: nat)
    | Available
    | CannotLoad(forkedName: string)
    | ConfigNotUpdated(forkedName: string)
    | TocNotUpdated(forkedName: string)
    | Configured(forkUrl: string)

  /** A run: the exception it ended with, its notifications, the number of
      polls made, and the configuration and table of contents sent back to
      the fork. */
  datatype ForkRun = ForkRun(error: Option<Error>, notices: seq<ForkNotice>, attempts: nat,
                             configSent: Option<Dict<Yaml>>, tocSent: Option<Dict<Yaml>>)

  /** A loaded file the task accepts: present and not empty. */
  predicate Loaded(doc: Option<Dict<Yaml>>) {
    doc.Some? && doc.value != []
  }

  /** The task as a value. `forkExists` is the first `get_repo` lookup,
      `forkRaises` whether the fork request fails, `available` the later
      lookups, `config`/`toc` what was loaded from the fork, and
      `configSaved`/`tocSaved` the status of the two updates. */
  function ForkTaskOf(forkedName: string, issueId: nat, forkExists: bool, forkRaises: bool,
                      available: nat -> bool, config: Option<Dict<Yaml>>, toc: Option<Dict<Yaml>>,
                      configSaved: bool, tocSaved: bool): (run: ForkRun)
    ensures run.notices != [] && run.notices[0] == Started
    ensures run.attempts <= MaxRetries
    ensures run.tocSent.Some? ==> run.configSent.Some?
    ensures run.configSent.Some? ==> Available in run.notices && Loaded(config) && Loaded(toc)
  {
    var forking := if forkExists then [Started] else [Started, Forking];
    if !forkExists && forkRaises then ForkRun(None, forking + [CannotFork], 0, None, None)
    else
      var (attempts, found) := if forkExists then (0, true) else Polls(available, 0);
      if !found && attempts == MaxRetries then
        ForkRun(None, forking + [StillUnavailable(MaxRetries * RetryDelay)], attempts, None, None)
      else
        var ready := forking + [Available];
        if !Loaded(config) || !Loaded(toc) then ForkRun(None, ready + [CannotLoad(forkedName)], attempts, None, None)
        else ConfigureRun(ready, attempts, forkedName, issueId, config.value, toc.value, configSaved, tocSaved)
  }

  /** The part of the run after both files were loaded: edit and send the
      configuration, then the table of contents. */
  function ConfigureRun(ready: seq<ForkNotice>, attempts: nat, forkedName: string, issueId: nat,
                        config: Dict<Yaml>, toc: Dict<Yaml>, configSaved: bool, tocSaved: bool): (run: ForkRun)
    ensures run.attempts == attempts
    ensures |ready| <= |run.notices| <= |ready| + 1 && run.notices[..|ready|] == ready
    ensures run.tocSent.Some? ==> run.configSent.Some? && configSaved
    ensures run.error.Some? ==> run.notices == ready
  {
    match ConfigureBook(config, forkedName)
    case Err(e) => ForkRun(Some(e), ready, attempts, None, None)
    case Ok(c) =>
      if !configSaved then
        var n := ConfigNotUpdated(forkedName);
        assert (ready + [n])[..|ready|] == ready;
        ForkRun(None, ready + [n], attempts, Some(c), None)
      else
        match AddCitableEntries(toc, issueId)
        case Err(e) => ForkRun(Some(e), ready, attempts, Some(c), None)
        case Ok(t) =>
          var n := if !tocSaved then TocNotUpdated(forkedName) else Configured("https://github.com/" + forkedName);
          assert (ready + [n])[..|ready|] == ready;
          ForkRun(None, ready + [n], attempts, Some(c), Some(t))
  }

  /** The configuration edits, made in turn on the loaded file. */
  method EditConfig(loaded: Dict<Yaml>, forkedName: string) returns (r: Result<Dict<Yaml>>)
    ensures r == ConfigureBook(loaded, forkedName)
  {
    var config := loaded;
    r := SetSection(config, "launch_buttons", "binderhub_url", YStr(ProductionBinderhub));
    if r.Err? {
      return;
    }
    config := r.value;
    r := SetSection(config, "repository", "url", YStr("https://github.com/" + forkedName));
  }

  /** The table-of-contents edits, made in turn on the loaded file. */
  method EditToc(loaded: Dict<Yaml>, issueId: nat) returns (r: Result<Dict<Yaml>>)
    ensures r == AddCitableEntries(loaded, issueId)
  {
    var toc := loaded;
    r := AppendIfPresent(toc, "parts", CitablePart(issueId));
    if r.Err? {
      return;
    }
    toc := r.value;
    r := AppendIfPresent(toc, "chapters", CitableChapter(issueId));
    if r.Err? {
      return;
    }
    toc := r.value;
    var format := Get(toc, "format");
    if format.None? {
      return Err(Raised("KeyError"));
    }
    if format.value == YStr("jb-article") && HasKey(toc, "sections") {
      r := AppendIfPresent(toc, "sections", CitableChapter(issueId));
    }
  }

  /** fork_configure_repository_task. */
  method ForkConfigureTask(forkedName: string, issueId: nat, forkExists: bool, forkRaises: bool,
                           available: nat -> bool, loadedConfig: Option<Dict<Yaml>>, loadedToc: Option<Dict<Yaml>>,
                           configSaved: bool, tocSaved: bool) returns (run: ForkRun)
    ensures run == ForkTaskOf(forkedName, issueId, forkExists, forkRaises, available, loadedConfig, loadedToc,
                              configSaved, tocSaved)
  {
    var notices := [Started];
    var attempts := 0;
    if !forkExists {
      notices := notices + [Forking];
      assert notices == [Started, Forking];
      if forkRaises {
        return ForkRun(None, notices + [CannotFork], 0, None, None);
      }
      var found;
      found, attempts := WaitForFork(available);
      if !found && attempts == MaxRetries {
        return ForkRun(None, notices + [StillUnavailable(MaxRetries * RetryDelay)], attempts, None, None);
      }
    }
    assert (attempts, true) == if forkExists then (0, true) else Polls(available, 0) by {
      if !forkExists { PollsSpec(available, 0); }
    }
    notices := notices + [Available];
    if !Loaded(loadedConfig) || !Loaded(loadedToc) {
      return ForkRun(None, notices + [CannotLoad(forkedName)], attempts, None, None);
    }
    run := ConfigureFork(notices, attempts, forkedName, issueId, loadedConfig.value, loadedToc.value, configSaved, tocSaved);
  }

  /** The task once both files are loaded: the configuration is edited and
      sent, then the table of contents. */
  method ConfigureFork(notices: seq<ForkNotice>, attempts: nat, forkedName: string, issueId: nat,
                       loadedConfig: Dict<Yaml>, loadedToc: Dict<Yaml>, configSaved: bool, tocSaved: bool)
    returns (run: ForkRun)
    ensures run == ConfigureRun(notices, attempts, forkedName, issueId, loadedConfig, loadedToc, configSaved, tocSaved)
  {
    var config := EditConfig(loadedConfig, forkedName);
    if config.Err? {
      return ForkRun(Some(config.error), notices, attempts, None, None);
    }
    if !configSaved {
      return ForkRun(None, notices + [ConfigNotUpdated(forkedName)], attempts, Some(config.value), None);
    }
    var toc := EditToc(loadedToc, issueId);
    if toc.Err? {
      return ForkRun(Some(toc.error), notices, attempts, Some(config.value), None);
    }
    if !tocSaved {
      return ForkRun(None, notices + [TocNotUpdated(forkedName)], attempts, Some(config.value), Some(toc.value));
    }
    run := ForkRun(None, notices + [Configured("https://github.com/" + forkedName)], attempts, Some(config.value), Some(toc.value));
  }

  /** The task never polls more than five times; it gives up, sending
      nothing, exactly when it had to fork, the fork request went through
      and none of the five polls found the fork. */
  lemma ForkGivesUp(forkedName: string, issueId: nat, forkExists: bool, forkRaises: bool,
                    available: nat -> bool, config: Option<Dict<Yaml>>, toc: Option<Dict<Yaml>>,
                    configSaved: bool, tocSaved: bool)
    ensures var run := ForkTaskOf(forkedName, issueId, forkExists, forkRaises, available, config, toc, configSaved, tocSaved);
            && run.attempts <= MaxRetries
            && (StillUnavailable(75) in run.notices <==>
                  !forkExists && !forkRaises && !exists k :: 0 < k <= MaxRetries && available(k))
            && (StillUnavailable(75) in run.notices ==> run.configSent.None? && run.tocSent.None?)
  {
    GiveUpIffNotFound(available);
    GiveUpNotice(forkedName, issueId, forkExists, forkRaises, available, config, toc, configSaved, tocSaved);
  }

  /** The give-up notice is sent exactly on the give-up path, and that path
      sends nothing to the fork. */
  lemma GiveUpNotice(forkedName: string, issueId: nat, forkExists: bool, forkRaises: bool,
                     available: nat -> bool, config: Option<Dict<Yaml>>, toc: Option<Dict<Yaml>>,
                     configSaved: bool, tocSaved: bool)
    ensures var run := ForkTaskOf(forkedName, issueId, forkExists, forkRaises, available, config, toc, configSaved, tocSaved);
            var (attempts, found) := Polls(available, 0);
            && (StillUnavailable(75) in run.notices <==> !forkExists && !forkRaises && !found && attempts == MaxRetries)
            && (StillUnavailable(75) in run.notices ==> run.configSent.None? && run.tocSent.None?)
  {
    var run := ForkTaskOf(forkedName, issueId, forkExists, forkRaises, available, config, toc, configSaved, tocSaved);
    var forking := if forkExists then [Started] else [Started, Forking];
    if !forkExists && forkRaises {
      assert run.notices == [Started, Forking, CannotFork];
      assert StillUnavailable(75) !in run.notices;
    } else {
      var (attempts, found) := if forkExists then (0, true) else Polls(available, 0);
      var ready := forking + [Available];
      assert StillUnavailable(75) !in ready;
      if !found && attempts == MaxRetries {
        assert run.notices == forking + [StillUnavailable(MaxRetries * RetryDelay)];
        assert run.notices[|forking|] == StillUnavailable(75);
      } else if !Loaded(config) || !Loaded(toc) {
        assert run.notices == ready + [CannotLoad(forkedName)];
        assert StillUnavailable(75) !in run.notices;
      } else {
        ConfigureRunEnds(ready, attempts, forkedName, issueId, config.value, toc.value, configSaved, tocSaved);
        assert StillUnavailable(75) !in run.notices;
      }
    }
  }

  /** The four ways the configuring part ends: an exception with no
      further notice, or one closing notice that says which file was not
      saved or that both were; what is sent is the edited form of what was
      loaded. */
  lemma ConfigureRunEnds(ready: seq<ForkNotice>, attempts: nat, forkedName: string, issueId: nat,
                         config: Dict<Yaml>, toc: Dict<Yaml>, configSaved: bool, tocSaved: bool)
    ensures var run := ConfigureRun(ready, attempts, forkedName, issueId, config, toc, configSaved, tocSaved);
            && (run.notices == ready
                || (run.notices == ready + [ConfigNotUpdated(forkedName)] && run.tocSent.None?)
                || (run.notices == ready + [TocNotUpdated(forkedName)] && run.tocSent.Some? && !tocSaved)
                || (run.notices == ready + [Configured("https://github.com/" + forkedName)] && run.tocSent.Some? && tocSaved))
            && (run.configSent.Some? ==> ConfigureBook(config, forkedName) == Ok(run.configSent.value))
            && (run.tocSent.Some? ==> configSaved && AddCitableEntries(toc, issueId) == Ok(run.tocSent.value))
  {
  }

  /** The table of contents is only sent after the configuration was
      saved, and the success notice comes only when both were saved; what
      is sent is the edited form of what was loaded. */
  lemma ForkSendsEditedFiles(forkedName: string, issueId: nat, forkExists: bool, forkRaises: bool,
                             available: nat -> bool, config: Option<Dict<Yaml>>, toc: Option<Dict<Yaml>>,
                             configSaved: bool, tocSaved: bool)
    ensures var run := ForkTaskOf(forkedName, issueId, forkExists, forkRaises, available, config, toc, configSaved, tocSaved);
            && (run.configSent.Some? ==> Loaded(config) && Loaded(toc) && ConfigureBook(config.value, forkedName) == Ok(run.configSent.value))
            && (run.tocSent.Some? ==> configSaved && run.configSent.Some? && AddCitableEntries(toc.value, issueId) == Ok(run.tocSent.value))
            && (Configured("https://github.com/" + forkedName) in run.notices <==> run.tocSent.Some? && tocSaved)
  {
    var run := ForkTaskOf(forkedName, issueId, forkExists, forkRaises, available, config, toc, configSaved, tocSaved);
    var forking := if forkExists then [Started] else [Started, Forking];
    if !forkExists && forkRaises {
      assert run.notices == [Started, Forking, CannotFork];
    } else {
      var (attempts, found) := if forkExists then (0, true) else Polls(available, 0);
      var ready := forking + [Available];
      if !found && attempts == MaxRetries {
        assert run.notices == forking + [StillUnavailable(MaxRetries * RetryDelay)];
      } else if !Loaded(config) || !Loaded(toc) {
        assert run.notices == ready + [CannotLoad(forkedName)];
      } else {
        ConfigureRunEnds(ready, attempts, forkedName, issueId, config.value, toc.value, configSaved, tocSaved);
      }
    }
  }

  // ---------------------------------------------------------------------
  // rsync_book_task
  // ---------------------------------------------------------------------


  /** The notifications of the transfer. */
  datatype RsyncNotice =
    | NotRoboneurolibre
    | TransferStarted
    | CannotRetrieve(commitHash: string)
    | Synced(doiUrl: string, bareUrl: string)
    | CannotSync(output: string)

  /** A symbolic link from the DOI directory into the book. */
  datatype Link = Link(source: string, target: string, isDir: bool)

  /** The DOI directory once `mkdir` has run: whether it exists (made now
      or left by an earlier run), and the names it already holds. What
      `mkdir` prints is never posted. */
  datatype DoiDirectory = DoiDirectory(dirExists: bool, entries: set<string>)

  /** A run: the exception it ended with, its notifications, the remote path
      rsync was asked to copy, and the links made. */
  datatype RsyncRun = RsyncRun(error: Option<Error>, notices: seq<RsyncNotice>, remotePath: Option<string>, links: seq<Link>)

  /** The preview server's artifacts of a commit, as rsync is given them. */
  function RemotePath(p: Project, commitHash: string): string {
    PathJoin(PathJoin(PathJoin(PathJoin(PathJoin(PathJoin("neurolibre-preview:", "DATA"), "book-artifacts"),
      p.owner), p.provider), p.repo), commitHash + "*")
  }

  /** The HTML build of the transferred book on production. */
  function BookPath(p: Project, commitHash: string): string {
    PathJoin(PathJoin(PathJoin(PathJoin(PathJoin(PathJoin(PathJoin("/DATA", "book-artifacts"), p.owner),
      p.provider), p.repo), commitHash), "_build"), "html")
  }

  /** The DOI-formatted directory the web server serves. */
  function DoiPath(issueId: nat): string {
    PathJoin(PathJoin("/DATA", "10.55458"), "neurolibre." + Pad5(issueId))
  }

  lemma DoiPathIs(issueId: nat)
    ensures DoiPath(issueId) == "/DATA/10.55458/neurolibre." + Pad5(issueId)
    ensures DoiPath(issueId)[|DoiPath(issueId)| - 1] != '/'
  {
    var p := Pad5(issueId);
    var n := "neurolibre." + p;
    var d := PathJoin("/DATA", "10.55458");
    assert d == "/DATA/10.55458";
    assert n[0] == 'n' && d[|d| - 1] == '8';
    assert DoiPath(issueId) == d + "/" + n;
    assert n[|n| - 1] == p[|p| - 1];
    assert IsDigit(p[|p| - 1]);
  }

  /** The link for each entry of the book directory (`name`, is a
      directory). */
  function LinksFor(bookPath: string, doiPath: string, listing: seq<(string, bool)>): (r: seq<Link>)
    ensures |r| == |listing|
  {
    seq(|listing|, i requires 0 <= i < |listing| =>
      Link(PathJoin(bookPath, listing[i].0), PathJoin(doiPath, listing[i].0), listing[i].1))
  }

  /** Each entry is linked under its own name inside the target directory. */
  lemma LinksForTargets(bookPath: string, doiPath: string, listing: seq<(string, bool)>)
    requires doiPath != "" && doiPath[|doiPath| - 1] != '/'
    requires forall i :: 0 <= i < |listing| ==> listing[i].0 != "" && listing[i].0[0] != '/'
    ensures forall i :: 0 <= i < |listing| ==>
              LinksFor(bookPath, doiPath, listing)[i] ==
              Link(PathJoin(bookPath, listing[i].0), doiPath + "/" + listing[i].0, listing[i].1)
  {
  }

  /** No listed name is already in the directory, and no name is listed
      twice: every `os.symlink` of the loop then finds its target free. */
  predicate FreshNames(listing: seq<(string, bool)>, entries: set<string>) {
    && (forall i :: 0 <= i < |listing| ==> listing[i].0 !in entries)
    && (forall i, j :: 0 <= i < j < |listing| ==> listing[i].0 != listing[j].0)
  }

  /** The loop over `os.listdir(book_path)` as a value: the links made and
      the exception that ended it. `os.symlink` raises FileNotFoundError
      when the DOI directory is missing and FileExistsError when the name is
      already there; the first failure ends the task. */
  function Symlinks(bookPath: string, doiPath: string, listing: seq<(string, bool)>,
                    dirExists: bool, entries: set<string>): (r: (seq<Link>, Option<Error>))
    ensures |r.0| <= |listing|
    ensures r.1.None? <==> |r.0| == |listing|
    ensures r.1.Some? ==> r.1.value == if dirExists then Raised("FileExistsError") else Raised("FileNotFoundError")
    ensures !dirExists ==> r.0 == []
    decreases |listing|
  {
    if listing == [] then ([], None)
    else if !dirExists then ([], Some(Raised("FileNotFoundError")))
    else if listing[0].0 in entries then ([], Some(Raised("FileExistsError")))
    else
      var rest := Symlinks(bookPath, doiPath, listing[1..], dirExists, entries + {listing[0].0});
      ([Link(PathJoin(bookPath, listing[0].0), PathJoin(doiPath, listing[0].0), listing[0].1)] + rest.0, rest.1)
  }

  /** The links made are those of the first items of the listing, in
      order. */
  lemma {:induction false} SymlinksMakePrefix(bookPath: string, doiPath: string, listing: seq<(string, bool)>,
                                              dirExists: bool, entries: set<string>)
    ensures var r := Symlinks(bookPath, doiPath, listing, dirExists, entries);
            r.0 == LinksFor(bookPath, doiPath, listing[..|r.0|])
    decreases |listing|
  {
    var r := Symlinks(bookPath, doiPath, listing, dirExists, entries);
    if listing != [] && dirExists && listing[0].0 !in entries {
      var rest := Symlinks(bookPath, doiPath, listing[1..], dirExists, entries + {listing[0].0});
      SymlinksMakePrefix(bookPath, doiPath, listing[1..], dirExists, entries + {listing[0].0});
      assert listing[..|r.0|] == [listing[0]] + listing[1..][..|rest.0|];
    }
  }

  lemma FreshNamesCons(listing: seq<(string, bool)>, entries: set<string>)
    requires listing != []
    ensures FreshNames(listing, entries) <==>
              listing[0].0 !in entries && FreshNames(listing[1..], entries + {listing[0].0})
  {
    if listing[0].0 !in entries && FreshNames(listing[1..], entries + {listing[0].0}) {
      forall i, j | 0 <= i < j < |listing|
        ensures listing[i].0 != listing[j].0
      {
        if i > 0 {
          assert listing[i].0 == listing[1..][i - 1].0 && listing[j].0 == listing[1..][j - 1].0;
        } else {
          assert listing[j].0 == listing[1..][j - 1].0;
        }
      }
    }
    if FreshNames(listing, entries) {
      forall i | 0 <= i < |listing[1..]|
        ensures listing[1..][i].0 !in entries + {listing[0].0}
      {
        assert listing[1..][i] == listing[i + 1];
      }
    }
  }

  /** In an existing DOI directory every item is linked exactly when the
      names are fresh; otherwise the loop raises FileExistsError. */
  lemma {:induction false} SymlinksSucceedIffFresh(bookPath: string, doiPath: string, listing: seq<(string, bool)>,
                                                   entries: set<string>)
    ensures Symlinks(bookPath, doiPath, listing, true, entries).1.None? <==> FreshNames(listing, entries)
    ensures !FreshNames(listing, entries) ==>
              Symlinks(bookPath, doiPath, listing, true, entries).1 == Some(Raised("FileExistsError"))
    decreases |listing|
  {
    if listing != [] {
      FreshNamesCons(listing, entries);
      if listing[0].0 !in entries {
        SymlinksSucceedIffFresh(bookPath, doiPath, listing[1..], entries + {listing[0].0});
      }
    }
  }

  /** The links made point the DOI directory of the issue at the first
      items of the book, each under its own name. */
  lemma SymlinksIntoDoiPath(bookPath: string, issueId: nat, listing: seq<(string, bool)>,
                            dirExists: bool, entries: set<string>)
    requires forall i :: 0 <= i < |listing| ==> listing[i].0 != "" && listing[i].0[0] != '/'
    ensures var r := Symlinks(bookPath, DoiPath(issueId), listing, dirExists, entries);
            forall i :: 0 <= i < |r.0| ==>
              r.0[i] == Link(PathJoin(bookPath, listing[i].0),
                             "/DATA/10.55458/neurolibre." + Pad5(issueId) + "/" + listing[i].0, listing[i].1)
  {
    var r := Symlinks(bookPath, DoiPath(issueId), listing, dirExists, entries);
    var made := listing[..|r.0|];
    SymlinksMakePrefix(bookPath, DoiPath(issueId), listing, dirExists, entries);
    DoiPathIs(issueId);
    LinksForTargets(bookPath, DoiPath(issueId), made);
  }

  /** One turn of the loop, at the `i`-th item. */
  lemma SymlinksAt(bookPath: string, doiPath: string, listing: seq<(string, bool)>, i: nat,
                   dirExists: bool, present: set<string>)
    requires i < |listing|
    ensures var next := Symlinks(bookPath, doiPath, listing[i + 1..], dirExists, present + {listing[i].0});
            Symlinks(bookPath, doiPath, listing[i..], dirExists, present) ==
              if !dirExists then ([], Some(Raised("FileNotFoundError")))
              else if listing[i].0 in present then ([], Some(Raised("FileExistsError")))
              else ([Link(PathJoin(bookPath, listing[i].0), PathJoin(doiPath, listing[i].0), listing[i].1)] + next.0, next.1)
  {
    assert listing[i..][0] == listing[i];
    assert listing[i..][1..] == listing[i + 1..];
  }

  /** The loop over `os.listdir(book_path)`. */
  method SymlinkBook(bookPath: string, doiPath: string, listing: seq<(string, bool)>,
                     dirExists: bool, entries: set<string>) returns (links: seq<Link>, error: Option<Error>)
    ensures (links, error) == Symlinks(bookPath, doiPath, listing, dirExists, entries)
  {
    links := [];
    var present := entries;
    var i := 0;
    assert listing[i..] == listing;
    ghost var whole := Symlinks(bookPath, doiPath, listing, dirExists, entries);
    while i < |listing|
      invariant 0 <= i <= |listing|
      invariant whole.0 == links + Symlinks(bookPath, doiPath, listing[i..], dirExists, present).0
      invariant whole.1 == Symlinks(bookPath, doiPath, listing[i..], dirExists, present).1
    {
      var (item, isDir) := listing[i];
      SymlinksAt(bookPath, doiPath, listing, i, dirExists, present);
      if !dirExists {
        assert links + [] == links;
        return links, Some(Raised("FileNotFoundError"));
      }
      if item in present {
        assert links + [] == links;
        return links, Some(Raised("FileExistsError"));
      }
      var link := Link(PathJoin(bookPath, item), PathJoin(doiPath, item), isDir);
      ghost var rest := Symlinks(bookPath, doiPath, listing[i + 1..], dirExists, present + {item});
      AppendAssoc(links, [link], rest.0);
      links := links + [link];
      present := present + {item};
      i := i + 1;
    }
    assert listing[i..] == [];
    assert links + [] == links;
    return links, None;
  }

  /** The task as a value: `lsRemote` answers `git ls-remote` of the
      repository, `rsyncOutput` is what rsync printed (its standard output
      and error together), `books` is the inventory after the transfer,
      `listing` the book directory and `dir` the DOI directory after
      `mkdir`. */
  function RsyncBookOf(repoUrl: string, commitHash: string, issueId: nat, server: string,
                       lsRemote: string -> string, rsyncOutput: string, books: seq<Book>, listing: seq<(string, bool)>,
                       dir: DoiDirectory): (run: RsyncRun)
    ensures run.error.Some? && run.remotePath.None? ==> run.notices == [] && run.links == []
    ensures run.error.Some? && run.remotePath.Some? ==> run.notices == [TransferStarted]
    ensures |run.notices| <= 2
    ensures run.remotePath.Some? <==> run.notices != [] && run.notices[0] == TransferStarted
    ensures run.links != [] ==> run.remotePath.Some? && |run.links| <= |listing|
    ensures |run.notices| == 2 && run.notices[1].Synced? ==>
              run.error.None? && dir.dirExists && |run.links| == |listing|
    ensures |run.notices| == 2 && run.notices[1].CannotSync? ==>
              run.error.None? && !dir.dirExists && listing == [] && run.notices[1].output == rsyncOutput
  {
    match GetOwnerRepoProvider(repoUrl, true)
    case Err(e) => RsyncRun(Some(e), [], None, [])
    case Ok(p) =>
      if p.owner != "roboneurolibre" then RsyncRun(None, [NotRoboneurolibre], None, [])
      else
        match CommitOf(commitHash, lsRemote(repoUrl))
        case Err(e) => RsyncRun(Some(e), [], None, [])
        case Ok(c) =>
          var transfer := RsyncRun(None, [TransferStarted], Some(RemotePath(p, c)), []);
          if SelectBooks(books, None, Some(c), None) == [] then
            transfer.(notices := transfer.notices + [CannotRetrieve(c)])
          else
            var bookPath := BookPath(p, c);
            var made := Symlinks(bookPath, DoiPath(issueId), listing, dir.dirExists, dir.entries);
            if made.1.Some? then transfer.(error := made.1, links := made.0)
            else if dir.dirExists then
              transfer.(notices := transfer.notices + [Synced(server + "/10.55458/neurolibre." + Pad5(issueId), server + "/" + bookPath)],
                        links := made.0)
            else transfer.(notices := transfer.notices + [CannotSync(rsyncOutput)], links := made.0)
  }

  /** rsync_book_task. */
  method RsyncBookTask(repoUrl: string, commitHash: string, issueId: nat, server: string,
                       lsRemote: string -> string, rsyncOutput: string, books: seq<Book>, listing: seq<(string, bool)>,
                       dir: DoiDirectory) returns (run: RsyncRun)
    ensures run == RsyncBookOf(repoUrl, commitHash, issueId, server, lsRemote, rsyncOutput, books, listing, dir)
  {
    var parsed := GetOwnerRepoProvider(repoUrl, true);
    if parsed.Err? {
      return RsyncRun(Some(parsed.error), [], None, []);
    }
    var p := parsed.value;
    if p.owner != "roboneurolibre" {
      return RsyncRun(None, [NotRoboneurolibre], None, []);
    }
    var commit := FormatCommitHash(commitHash, lsRemote(repoUrl));
    if commit.Err? {
      return RsyncRun(Some(commit.error), [], None, []);
    }
    var c := commit.value;
    var remotePath := RemotePath(p, c);
    var notices := [TransferStarted];
    var results := BookGetByParams(books, None, Some(c), None);
    if results == [] {
      return RsyncRun(None, notices + [CannotRetrieve(c)], Some(remotePath), []);
    }
    var bookPath := BookPath(p, c);
    var doiPath := DoiPath(issueId);
    var links, error := SymlinkBook(bookPath, doiPath, listing, dir.dirExists, dir.entries);
    if error.Some? {
      return RsyncRun(error, notices, Some(remotePath), links);
    }
    if dir.dirExists {
      notices := notices + [Synced(server + "/10.55458/neurolibre." + Pad5(issueId), server + "/" + bookPath)];
    } else {
      notices := notices + [CannotSync(rsyncOutput)];
    }
    run := RsyncRun(None, notices, Some(remotePath), links);
  }

  /** Nothing is transferred or linked unless the repository belongs to
      roboneurolibre; a transfer starts exactly when it does and its
      commit resolves. */
  lemma OwnerGate(repoUrl: string, commitHash: string, issueId: nat, server: string,
                  lsRemote: string -> string, rsyncOutput: string, books: seq<Book>, listing: seq<(string, bool)>, dir: DoiDirectory)
    ensures var run := RsyncBookOf(repoUrl, commitHash, issueId, server, lsRemote, rsyncOutput, books, listing, dir);
            var parsed := GetOwnerRepoProvider(repoUrl, true);
            && (run.remotePath.Some? <==>
                  parsed.Ok? && parsed.value.owner == "roboneurolibre" && CommitOf(commitHash, lsRemote(repoUrl)).Ok?)
            && (parsed.Ok? && parsed.value.owner != "roboneurolibre" ==> run == RsyncRun(None, [NotRoboneurolibre], None, []))
            && (run.links != [] ==> run.remotePath.Some?)
  {
  }

  /** The links made point the DOI directory of the issue at the book's
      items, in listing order, each under its own name, and only once the
      book is found in the inventory. */
  lemma LinksUnderDoiPath(repoUrl: string, commitHash: string, issueId: nat, server: string,
                          lsRemote: string -> string, rsyncOutput: string, books: seq<Book>, listing: seq<(string, bool)>, dir: DoiDirectory)
    requires forall i :: 0 <= i < |listing| ==> listing[i].0 != "" && listing[i].0[0] != '/'
    ensures var run := RsyncBookOf(repoUrl, commitHash, issueId, server, lsRemote, rsyncOutput, books, listing, dir);
            run.links != [] ==>
              var p := GetOwnerRepoProvider(repoUrl, true).value;
              var c := CommitOf(commitHash, lsRemote(repoUrl)).value;
              && SelectBooks(books, None, Some(c), None) != []
              && |run.links| <= |listing|
              && forall i :: 0 <= i < |run.links| ==>
                   run.links[i] == Link(PathJoin(BookPath(p, c), listing[i].0),
                                        "/DATA/10.55458/neurolibre." + Pad5(issueId) + "/" + listing[i].0, listing[i].1)
  {
    var run := RsyncBookOf(repoUrl, commitHash, issueId, server, lsRemote, rsyncOutput, books, listing, dir);
    if run.links != [] {
      var parsed := GetOwnerRepoProvider(repoUrl, true);
      assert parsed.Ok? && parsed.value.owner == "roboneurolibre";
      var p := parsed.value;
      var commit := CommitOf(commitHash, lsRemote(repoUrl));
      assert commit.Ok?;
      var c := commit.value;
      assert SelectBooks(books, None, Some(c), None) != [];
      var made := Symlinks(BookPath(p, c), DoiPath(issueId), listing, dir.dirExists, dir.entries);
      assert run.links == made.0;
      SymlinksIntoDoiPath(BookPath(p, c), issueId, listing, dir.dirExists, dir.entries);
    }
  }

  /** Once the book is found, the success comment is posted exactly when the
      DOI directory exists and none of the book's names is already in it.
      On a re-run the first name already linked raises FileExistsError after
      the started notice, and no closing comment is posted; with the DOI
      directory missing, a non-empty book raises FileNotFoundError. */
  lemma SyncedExactlyWhenFresh(repoUrl: string, commitHash: string, issueId: nat, server: string,
                               lsRemote: string -> string, rsyncOutput: string, books: seq<Book>, listing: seq<(string, bool)>, dir: DoiDirectory)
    requires GetOwnerRepoProvider(repoUrl, true).Ok? && GetOwnerRepoProvider(repoUrl, true).value.owner == "roboneurolibre"
    requires CommitOf(commitHash, lsRemote(repoUrl)).Ok?
    requires SelectBooks(books, None, Some(CommitOf(commitHash, lsRemote(repoUrl)).value), None) != []
    ensures var run := RsyncBookOf(repoUrl, commitHash, issueId, server, lsRemote, rsyncOutput, books, listing, dir);
            && (|run.notices| == 2 && run.notices[1].Synced? <==> dir.dirExists && FreshNames(listing, dir.entries))
            && (dir.dirExists && !FreshNames(listing, dir.entries) ==>
                  run.error == Some(Raised("FileExistsError")) && run.notices == [TransferStarted])
            && (!dir.dirExists && listing != [] ==>
                  run.error == Some(Raised("FileNotFoundError")) && run.notices == [TransferStarted] && run.links == [])
  {
    var p := GetOwnerRepoProvider(repoUrl, true).value;
    var c := CommitOf(commitHash, lsRemote(repoUrl)).value;
    SymlinksSucceedIffFresh(BookPath(p, c), DoiPath(issueId), listing, dir.entries);
  }
}
