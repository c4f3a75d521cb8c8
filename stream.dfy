/** api/neurolibre_celery_tasks.py, the build path: binder_stream relays the
    BinderHub event stream to the caller and to the review issue, and
    preview_build_book_task runs admission, the stream, the book lookup,
    the lock release and the final comment.

    The stream is a sequence of frames, each a decoded line with the time
    at which it is read; the JSON parser is a parameter. Notifications to
    the issue (gh_template_respond) are appended to a sequence. */
module Relay {
  import opened Results
  import opened Strings
  import opened Common

  // ---------------------------------------------------------------------
  // Frames and events
  // ---------------------------------------------------------------------

  /** One line of the event stream, with the clock reading when it is read. */
  datatype Frame = Frame(time: int, line: string)

  /** The two fields binder_stream reads from a BinderHub event object. */
  datatype BuildEvent = BuildEvent(phase: Option<string>, message: Option<string>)

  /** A gh_template_respond call: its kind, its title and the message list
      handed over as its body. */
  datatype Notice = Notice(kind: string, title: string, body: seq<Option<string>>)

  /** Python truthiness of a message: present and not empty. */
  predicate Truthy(m: Option<string>) {
    m.Some? && m.value != ""
  }

  /** The event a line carries: empty lines, lines without `": "` and
      bodies that are not a JSON object (`parse` gives None) carry none. */
  function Decode(line: string, parse: string -> Option<BuildEvent>): (r: Option<BuildEvent>)
    ensures !Contains(line, ": ") ==> r.None?
    ensures r.Some? ==> exists j :: 2 <= j <= |line| && line[j - 2..j] == ": " && r == parse(line[j..])
  {
    if line == "" then None
    else
      match AfterFirst(line, ": ")
      case None => None
      case Some(body) =>
        FindSpec(line, ": ");
        var j := Find(line, ": ").value + 2;
        assert line[j - 2..j] == ": " && body == line[j..];
        parse(body)
  }

  predicate IsFailure(f: Frame, parse: string -> Option<BuildEvent>) {
    var e := Decode(f.line, parse);
    e.Some? && e.value.phase == Some("failed")
  }

  /** Whether a frame forwards a message: a truthy message of an event that
      is not a failure. */
  predicate Forwards(f: Frame, parse: string -> Option<BuildEvent>) {
    var e := Decode(f.line, parse);
    e.Some? && e.value.phase != Some("failed") && Truthy(e.value.message)
  }

  /** The messages a run of frames forwards, in arrival order. */
  function Forwarded(frames: seq<Frame>, parse: string -> Option<BuildEvent>): seq<string>
    decreases |frames|
  {
    if frames == [] then []
    else (if Forwards(frames[0], parse) then [Decode(frames[0].line, parse).value.message.value] else [])
         + Forwarded(frames[1..], parse)
  }

  /** Position of the first failure event, or the length when there is none. */
  function FirstFailure(frames: seq<Frame>, parse: string -> Option<BuildEvent>): (k: nat)
    ensures k <= |frames|
    ensures k < |frames| ==> IsFailure(frames[k], parse)
    ensures forall j :: 0 <= j < k ==> !IsFailure(frames[j], parse)
    decreases |frames|
  {
    if frames == [] then 0
    else if IsFailure(frames[0], parse) then 0
    else 1 + FirstFailure(frames[1..], parse)
  }

  function Wrap(ms: seq<string>): (r: seq<Option<string>>)
    ensures |r| == |ms| && forall i :: 0 <= i < |ms| ==> r[i] == Some(ms[i])
  {
    seq(|ms|, i requires 0 <= i < |ms| => Some(ms[i]))
  }

  // ---------------------------------------------------------------------
  // The relay as a state machine (binder_stream)
  // ---------------------------------------------------------------------

  /** binder_stream's variables (`start_time`, `messages`, `n_updates`),
      what it has yielded and sent, how many lines it has read, and whether
      it stopped on a failure. */
  datatype RelayState = RelayState(start: int, transcript: seq<Option<string>>, updates: nat,
                                   yielded: seq<string>, notices: seq<Notice>, read: nat, failed: bool)

  function Start(t0: int): RelayState {
    RelayState(t0, [], 0, [], [], 0, false)
  }

  const FailureTitle := "Binder build has failed &#129344;"

  /** The title of the n-th progress notification. */
  function ProgressTitle(taskTitle: string, n: nat): string {
    taskTitle + " " + NatToString(2 * n) + " minutes passed"
  }

  /** Reading one frame. */
  function Step(s: RelayState, f: Frame, parse: string -> Option<BuildEvent>, taskTitle: string): (n: RelayState)
    ensures n.read == s.read + 1
    ensures |n.yielded| <= |s.yielded| + 1 && |n.notices| <= |s.notices| + 1
  {
    var s := s.(read := s.read + 1);
    match Decode(f.line, parse)
    case None => s
    case Some(e) =>
      if e.phase == Some("failed") then
        var tr := s.transcript + [e.message];
        s.(transcript := tr, notices := s.notices + [Notice("failure", FailureTitle, tr)], failed := true)
      else if !Truthy(e.message) then s
      else
        var tr := s.transcript + [e.message];
        var y := s.yielded + [e.message.value];
        if f.time - s.start >= 120 then
          s.(transcript := tr, yielded := y, updates := s.updates + 1, start := f.time,
             notices := s.notices + [Notice("started", ProgressTitle(taskTitle, s.updates + 1), tr)])
        else s.(transcript := tr, yielded := y)
  }

  /** Reading frames until they run out or a failure stops the relay. */
  function Run(s: RelayState, frames: seq<Frame>, parse: string -> Option<BuildEvent>, taskTitle: string): (r: RelayState)
    ensures s.failed ==> r == s
    ensures s.read <= r.read <= s.read + |frames|
    decreases |frames|
  {
    if frames == [] || s.failed then s
    else Run(Step(s, frames[0], parse, taskTitle), frames[1..], parse, taskTitle)
  }

  /** Reading from the `i`-th frame on: one step, then the rest. */
  lemma RunAt(s: RelayState, frames: seq<Frame>, i: nat, parse: string -> Option<BuildEvent>, taskTitle: string)
    requires i < |frames| && !s.failed
    ensures Run(s, frames[i..], parse, taskTitle) == Run(Step(s, frames[i], parse, taskTitle), frames[i + 1..], parse, taskTitle)
  {
    assert frames[i..][0] == frames[i];
    assert frames[i..][1..] == frames[i + 1..];
  }

  /** binder_stream over a response whose lines are `frames`, started at
      `t0`. A failure event removes the lock; when it is already gone the
      FileNotFoundError is swallowed by the bare `except`, and the closed
      response delivers no further line. */
  method BinderStream(store: LockStore, lockName: string, frames: seq<Frame>, t0: int,
                      parse: string -> Option<BuildEvent>, taskTitle: string)
    returns (yielded: seq<string>, notices: seq<Notice>, read: nat, failed: bool)
    modifies store
    ensures var st := Run(Start(t0), frames, parse, taskTitle);
            yielded == st.yielded && notices == st.notices && read == st.read && failed == st.failed
    ensures store.locks == if failed then old(store.locks) - {lockName} else old(store.locks)
  {
    var startTime := t0;
    var messages: seq<Option<string>> := [];
    var nUpdates: nat := 0;
    yielded, notices, read, failed := [], [], 0, false;
    var i := 0;
    while i < |frames|
      invariant 0 <= i <= |frames| && read == i
      invariant Run(RelayState(startTime, messages, nUpdates, yielded, notices, read, false), frames[i..], parse, taskTitle)
             == Run(Start(t0), frames, parse, taskTitle)
      invariant store.locks == old(store.locks)
    {
      ghost var before := RelayState(startTime, messages, nUpdates, yielded, notices, read, false);
      RunAt(before, frames, i, parse, taskTitle);
      var f := frames[i];
      read := read + 1;
      i := i + 1;
      var event := Decode(f.line, parse);
      if event.None? {
        assert Step(before, f, parse, taskTitle) == RelayState(startTime, messages, nUpdates, yielded, notices, read, false);
        continue;
      }
      var e := event.value;
      if e.phase == Some("failed") {
        messages := messages + [e.message];
        notices := notices + [Notice("failure", FailureTitle, messages)];
        var _ := store.Remove(lockName);
        failed := true;
        assert Step(before, f, parse, taskTitle) == RelayState(startTime, messages, nUpdates, yielded, notices, read, true);
        return;
      }
      if Truthy(e.message) {
        messages := messages + [e.message];
        if f.time - startTime >= 120 {
          nUpdates := nUpdates + 1;
          notices := notices + [Notice("started", ProgressTitle(taskTitle, nUpdates), messages)];
          startTime := f.time;
        }
        yielded := yielded + [e.message.value];
      }
      assert Step(before, f, parse, taskTitle) == RelayState(startTime, messages, nUpdates, yielded, notices, read, false);
    }
    assert frames[i..] == [];
  }

  // ---------------------------------------------------------------------
  // What a run relays
  // ---------------------------------------------------------------------

  /** The message a forwarding frame carries. */
  function MessageOf(f: Frame, parse: string -> Option<BuildEvent>): string
    requires Forwards(f, parse)
  {
    Decode(f.line, parse).value.message.value
  }

  /** Whether reading `f` in state `s` sends a progress notification: a
      forwarded message two minutes or more after the last reset. */
  predicate Notifies(s: RelayState, f: Frame, parse: string -> Option<BuildEvent>) {
    Forwards(f, parse) && f.time - s.start >= 120
  }

  /** One step, field by field. */
  lemma StepFacts(s: RelayState, f: Frame, parse: string -> Option<BuildEvent>, taskTitle: string)
    requires !s.failed
    ensures var n := Step(s, f, parse, taskTitle);
      && n.read == s.read + 1
      && n.failed == IsFailure(f, parse)
      && n.yielded == s.yielded + (if Forwards(f, parse) then [MessageOf(f, parse)] else [])
      && n.transcript == s.transcript + (if IsFailure(f, parse) then [Decode(f.line, parse).value.message]
                                         else if Forwards(f, parse) then [Some(MessageOf(f, parse))] else [])
      && n.updates == s.updates + (if Notifies(s, f, parse) then 1 else 0)
      && n.start == (if Notifies(s, f, parse) then f.time else s.start)
      && n.notices == s.notices + (if IsFailure(f, parse) then [Notice("failure", FailureTitle, n.transcript)]
                                   else if Notifies(s, f, parse)
                                   then [Notice("started", ProgressTitle(taskTitle, s.updates + 1), n.transcript)]
                                   else [])
  {
  }

  /** The relay reads up to and including the first failure event and no
      further. */
  lemma {:induction false} RunStopsAtFailure(s: RelayState, frames: seq<Frame>, parse: string -> Option<BuildEvent>,
                                             taskTitle: string)
    requires !s.failed
    ensures var r := Run(s, frames, parse, taskTitle);
            var k := FirstFailure(frames, parse);
            && r.failed == (k < |frames|)
            && r.read == s.read + (if k < |frames| then k + 1 else |frames|)
    decreases |frames|
  {
    if frames != [] {
      var n := Step(s, frames[0], parse, taskTitle);
      assert Run(s, frames, parse, taskTitle) == Run(n, frames[1..], parse, taskTitle);
      StepFacts(s, frames[0], parse, taskTitle);
      if !IsFailure(frames[0], parse) {
        RunStopsAtFailure(n, frames[1..], parse, taskTitle);
      }
    }
  }

  /** The messages of the frames before the first failure that the relay
      forwards: `head` for the first frame, then those of the rest. */
  lemma ForwardedBeforeFailure(frames: seq<Frame>, parse: string -> Option<BuildEvent>)
    requires frames != [] && !IsFailure(frames[0], parse)
    ensures var k := FirstFailure(frames, parse);
            var k' := FirstFailure(frames[1..], parse);
            && k == k' + 1
            && Forwarded(frames[..k], parse)
               == (if Forwards(frames[0], parse) then [MessageOf(frames[0], parse)] else [])
                  + Forwarded(frames[1..][..k'], parse)
  {
    var k := FirstFailure(frames, parse);
    var k' := FirstFailure(frames[1..], parse);
    assert frames[..k] == [frames[0]] + frames[1..][..k'];
  }

  lemma WrapAppend(a: seq<string>, b: seq<string>)
    ensures Wrap(a + b) == Wrap(a) + Wrap(b)
  {
    assert forall i :: 0 <= i < |a + b| ==> Wrap(a + b)[i] == (Wrap(a) + Wrap(b))[i];
  }

  /** The relay forwards exactly the truthy messages of the events before
      the first failure, in arrival order. */
  lemma {:induction false} RunYields(s: RelayState, frames: seq<Frame>, parse: string -> Option<BuildEvent>,
                                     taskTitle: string)
    requires !s.failed
    ensures Run(s, frames, parse, taskTitle).yielded
            == s.yielded + Forwarded(frames[..FirstFailure(frames, parse)], parse)
    decreases |frames|
  {
    if frames != [] {
      var f := frames[0];
      var n := Step(s, f, parse, taskTitle);
      assert Run(s, frames, parse, taskTitle) == Run(n, frames[1..], parse, taskTitle);
      StepFacts(s, f, parse, taskTitle);
      if IsFailure(f, parse) {
        assert frames[..FirstFailure(frames, parse)] == [];
      } else {
        RunYields(n, frames[1..], parse, taskTitle);
        ForwardedBeforeFailure(frames, parse);
      }
    }
  }

  /** The transcript the relay keeps holds the forwarded messages followed
      by the failure event's message (None included); it is never
      cleared. */
  lemma {:induction false} RunTranscript(s: RelayState, frames: seq<Frame>, parse: string -> Option<BuildEvent>,
                                         taskTitle: string)
    requires !s.failed
    ensures var k := FirstFailure(frames, parse);
            Run(s, frames, parse, taskTitle).transcript
            == s.transcript + Wrap(Forwarded(frames[..k], parse))
               + (if k < |frames| then [Decode(frames[k].line, parse).value.message] else [])
    decreases |frames|
  {
    if frames != [] {
      var f := frames[0];
      var k := FirstFailure(frames, parse);
      var n := Step(s, f, parse, taskTitle);
      assert Run(s, frames, parse, taskTitle) == Run(n, frames[1..], parse, taskTitle);
      StepFacts(s, f, parse, taskTitle);
      if IsFailure(f, parse) {
        assert frames[..k] == [];
      } else {
        RunTranscript(n, frames[1..], parse, taskTitle);
        ForwardedBeforeFailure(frames, parse);
        var k' := FirstFailure(frames[1..], parse);
        var head := if Forwards(f, parse) then [MessageOf(f, parse)] else [];
        var rest := Forwarded(frames[1..][..k'], parse);
        var tail := if k < |frames| then [Decode(frames[k].line, parse).value.message] else [];
        assert k < |frames| ==> frames[k] == frames[1..][k'];
        assert n.transcript == s.transcript + Wrap(head);
        WrapAppend(head, rest);
        AppendAssoc(s.transcript, Wrap(head), Wrap(rest));
        calc {
          Run(s, frames, parse, taskTitle).transcript;
          n.transcript + Wrap(rest) + tail;
          s.transcript + Wrap(head) + Wrap(rest) + tail;
          s.transcript + Wrap(head + rest) + tail;
        }
      }
    }
  }

  predicate IsPrefix<T(==)>(a: seq<T>, b: seq<T>) {
    |a| <= |b| && b[..|a|] == a
  }

  /** How many progress (`started`) notifications a list holds. */
  function CountStarted(ns: seq<Notice>): nat
    decreases |ns|
  {
    if ns == [] then 0
    else CountStarted(ns[..|ns| - 1]) + if ns[|ns| - 1].kind == "started" then 1 else 0
  }

  /** Every notification carries a prefix of the transcript. */
  ghost predicate CarriesTranscript(ns: seq<Notice>, transcript: seq<Option<string>>) {
    forall i :: 0 <= i < |ns| ==> IsPrefix(ns[i].body, transcript)
  }

  /** The n-th progress notification is titled `{2n} minutes passed`. */
  ghost predicate NumberedInOrder(ns: seq<Notice>, taskTitle: string) {
    NumberedBy(ns, (n: nat) => ProgressTitle(taskTitle, n))
  }

  /** The n-th progress notification is titled `title(n)`: each progress
      notification's title numbers it among the progress notifications up
      to and including itself. */
  ghost predicate NumberedBy(ns: seq<Notice>, title: nat -> string)
    decreases |ns|
  {
    ns != [] ==>
      && NumberedBy(ns[..|ns| - 1], title)
      && (ns[|ns| - 1].kind == "started" ==> ns[|ns| - 1].title == title(CountStarted(ns)))
  }

  /** Apart from progress notifications there is at most the failure
      notification, sent last, with the whole transcript, when the relay
      has stopped. */
  ghost predicate FailureLast(s: RelayState) {
    && (forall i :: 0 <= i < |s.notices| && s.notices[i].kind != "started" ==>
          s.failed && i == |s.notices| - 1 && s.notices[i] == Notice("failure", FailureTitle, s.transcript))
    && (s.failed ==> |s.notices| > 0 && s.notices[|s.notices| - 1].kind == "failure")
  }

  /** What every state of the relay satisfies: `n_updates` counts the
      progress notifications, which are numbered in order; every
      notification carries a prefix of the transcript (which is only ever
      extended); and the failure notification, if any, comes last. */
  ghost predicate NoticesInvariant(s: RelayState, taskTitle: string) {
    && s.updates == CountStarted(s.notices)
    && CarriesTranscript(s.notices, s.transcript)
    && NumberedInOrder(s.notices, taskTitle)
    && FailureLast(s)
  }

  lemma CountStartedAppend(ns: seq<Notice>, extra: seq<Notice>)
    requires |extra| <= 1
    ensures CountStarted(ns + extra) == CountStarted(ns) + if extra != [] && extra[0].kind == "started" then 1 else 0
  {
    if extra != [] {
      assert (ns + extra)[..|ns|] == ns;
    } else {
      assert ns + extra == ns;
    }
  }

  lemma AppendCarriesTranscript(ns: seq<Notice>, extra: seq<Notice>, t: seq<Option<string>>, t': seq<Option<string>>)
    requires CarriesTranscript(ns, t) && IsPrefix(t, t')
    requires forall j :: 0 <= j < |extra| ==> extra[j].body == t'
    ensures CarriesTranscript(ns + extra, t')
  {
    forall i | 0 <= i < |ns + extra| ensures IsPrefix((ns + extra)[i].body, t') {
      if i < |ns| {
        var b := ns[i].body;
        assert t'[..|b|] == t'[..|t|][..|b|];
      }
    }
  }

  lemma AppendNumberedBy(ns: seq<Notice>, extra: seq<Notice>, title: nat -> string)
    requires NumberedBy(ns, title) && |extra| <= 1
    requires extra != [] && extra[0].kind == "started" ==> extra[0].title == title(CountStarted(ns) + 1)
    ensures NumberedBy(ns + extra, title)
  {
    if extra == [] {
      assert ns + extra == ns;
    } else {
      assert (ns + extra)[..|ns|] == ns;
      CountStartedAppend(ns, extra);
    }
  }

  /** A change of state that extends the transcript and sends at most one
      notification, numbered or final as the invariant demands, keeps the
      invariant. */
  lemma ExtendKeepsInvariant(s: RelayState, n: RelayState, extra: seq<Notice>, taskTitle: string)
    requires !s.failed && NoticesInvariant(s, taskTitle)
    requires IsPrefix(s.transcript, n.transcript)
    requires |extra| <= 1 && n.notices == s.notices + extra
    requires forall j :: 0 <= j < |extra| ==> extra[j].body == n.transcript
    requires n.updates == s.updates + if extra != [] && extra[0].kind == "started" then 1 else 0
    requires extra != [] && extra[0].kind == "started" ==> extra[0].title == ProgressTitle(taskTitle, s.updates + 1)
    requires extra != [] && extra[0].kind != "started" ==> n.failed && extra[0] == Notice("failure", FailureTitle, n.transcript)
    requires n.failed ==> extra != [] && extra[0].kind == "failure"
    ensures NoticesInvariant(n, taskTitle)
  {
    CountStartedAppend(s.notices, extra);
    AppendCarriesTranscript(s.notices, extra, s.transcript, n.transcript);
    AppendNumberedBy(s.notices, extra, (k: nat) => ProgressTitle(taskTitle, k));
    assert FailureLast(n) by {
      forall i | 0 <= i < |n.notices| && n.notices[i].kind != "started"
        ensures n.failed && i == |n.notices| - 1 && n.notices[i] == Notice("failure", FailureTitle, n.transcript)
      {
        if i < |s.notices| {
          assert false;
        }
      }
    }
  }

  /** Reading one frame keeps the invariant. */
  lemma StepKeepsInvariant(s: RelayState, f: Frame, parse: string -> Option<BuildEvent>, taskTitle: string)
    requires !s.failed && NoticesInvariant(s, taskTitle)
    ensures NoticesInvariant(Step(s, f, parse, taskTitle), taskTitle)
  {
    var n := Step(s, f, parse, taskTitle);
    StepFacts(s, f, parse, taskTitle);
    var extra := n.notices[|s.notices|..];
    assert n.notices == s.notices + extra;
    ExtendKeepsInvariant(s, n, extra, taskTitle);
  }

  /** A run keeps the invariant. */
  lemma {:induction false} RunKeepsInvariant(s: RelayState, frames: seq<Frame>, parse: string -> Option<BuildEvent>,
                                             taskTitle: string)
    requires NoticesInvariant(s, taskTitle)
    ensures NoticesInvariant(Run(s, frames, parse, taskTitle), taskTitle)
    decreases |frames|
  {
    if frames != [] && !s.failed {
      StepKeepsInvariant(s, frames[0], parse, taskTitle);
      RunKeepsInvariant(Step(s, frames[0], parse, taskTitle), frames[1..], parse, taskTitle);
    }
  }

  /** The notifications of a whole relay: progress notifications numbered
      in order, each carrying all messages since the stream started, and a
      failure notification exactly when the relay stopped on a failure. */
  lemma RelayNotices(t0: int, frames: seq<Frame>, parse: string -> Option<BuildEvent>, taskTitle: string)
    ensures NoticesInvariant(Run(Start(t0), frames, parse, taskTitle), taskTitle)
  {
    RunKeepsInvariant(Start(t0), frames, parse, taskTitle);
  }

  /** No progress notification is sent while every frame arrives less than
      two minutes after the last reset. */
  lemma {:induction false} NoProgressWithinTwoMinutes(s: RelayState, frames: seq<Frame>,
                                                      parse: string -> Option<BuildEvent>, taskTitle: string)
    requires !s.failed
    requires forall i :: 0 <= i < |frames| ==> frames[i].time - s.start < 120
    ensures var r := Run(s, frames, parse, taskTitle);
            r.updates == s.updates && |s.notices| <= |r.notices| <= |s.notices| + 1 && r.notices[..|s.notices|] == s.notices
    decreases |frames|
  {
    if frames != [] {
      var n := Step(s, frames[0], parse, taskTitle);
      StepFacts(s, frames[0], parse, taskTitle);
      if !n.failed {
        assert n.notices == s.notices;
        assert forall i :: 0 <= i < |frames[1..]| ==> frames[1..][i] == frames[i + 1];
        NoProgressWithinTwoMinutes(n, frames[1..], parse, taskTitle);
      } else {
        assert n.notices[..|s.notices|] == s.notices;
      }
    }
  }

  // ---------------------------------------------------------------------
  // preview_build_book_task
  // ---------------------------------------------------------------------

  /** The fields of the task payload the build path reads. */
  datatype BuildPayload = BuildPayload(repoUrl: string, commitHash: string, rateLimit: nat,
                                       binderName: string, domainName: string, taskTitle: string)

  /** What the task finds outside itself: the working directory, the clock
      at admission, the `git ls-remote` listing, whether BinderHub answered
      the build request with a success status, the frames of its event
      stream and the clock when the stream starts, the book inventory after
      the stream, and the build logs the failure comment collects. */
  datatype BuildWorld = BuildWorld(cwd: string, now: int, lsRemote: string, responseOk: bool,
                                   frames: seq<Frame>, streamStart: int, books: seq<Book>,
                                   mainLog: Option<seq<string>>, reports: Option<seq<LogFile>>)

  /** The parts of the failure report: the relayed BinderHub log, the book
      build logs book_log_collector gathered, and the debugging hint. */
  datatype ReportPart = BinderLog(logs: string) | BookLogs(sections: seq<LogSection>) | DebuggingHint

  /** The comment posted on the review issue at the end: the failure
      report, or the URL of the built book. */
  datatype Comment = FailureComment(parts: seq<ReportPart>) | BookComment(url: string)

  /** What a run of the task did: the exception it ended with, the messages
      relayed to the caller, the notifications sent while streaming and the
      final comment. */
  datatype BuildTaskRun = BuildTaskRun(error: Option<Error>, yielded: seq<string>, notices: seq<Notice>,
                                       comment: Option<Comment>)

  /** The text of a report part as posted. */
  function PartText(part: ReportPart): string {
    match part
    case BinderLog(logs) =>
      "<p>&#129344; We ran into a problem building your book. Please see the log files below.</p><details><summary> <b>BinderHub build log</b> </summary><pre><code>"
      + logs
      + "</code></pre></details><p>If the BinderHub build looks OK, please see the Jupyter Book build log(s) below.</p>"
    case BookLogs(sections) => LogsText(sections)
    case DebuggingHint => DebugFooter
  }

  /** The comment closing a stream that did not fail, for the book of
      `commit`: the URL of the first book built from it, or the three-part
      failure report (the relayed BinderHub log, the book build logs, the
      debugging hint). */
  function CommentAt(commit: string, p: BuildPayload, w: BuildWorld, yielded: seq<string>): (r: Result<Comment>)
    ensures r.Ok? ==> (r.value.BookComment? <==> exists b :: b in w.books && b.commitHash == commit)
  {
    var found := SelectBooks(w.books, None, Some(commit), None);
    if found != [] then Ok(BookComment(found[0].bookUrl))
    else
      match GetOwnerRepoProvider(p.repoUrl, true)
      case Err(e) => Err(e)
      case Ok(proj) =>
        Ok(FailureComment([BinderLog(Join(yielded, "")),
                           BookLogs(LogSections(proj.owner, proj.repo, commit, w.mainLog, w.reports)),
                           DebuggingHint]))
  }

  /** The final comment as the task computes it: looked up at the payload's
      commit, as given and not resolved. */
  function FinalComment(p: BuildPayload, w: BuildWorld, yielded: seq<string>): (r: Result<Comment>)
    ensures r.Ok? ==> (r.value.BookComment? <==> exists b :: b in w.books && b.commitHash == p.commitHash)
  {
    CommentAt(p.commitHash, p, w, yielded)
  }

  /** The commit the preflight builds: `HEAD` resolved through
      `git ls-remote`, any other commit as given. */
  function BuiltCommit(p: BuildPayload, w: BuildWorld): (c: string)
    ensures p.commitHash != "HEAD" ==> c == p.commitHash
    ensures CommitOf(p.commitHash, w.lsRemote).Ok? ==> c == CommitOf(p.commitHash, w.lsRemote).value
  {
    match CommitOf(p.commitHash, w.lsRemote)
    case Ok(c) => c
    case Err(_) => p.commitHash
  }

  /** The final comment as evidently intended: looked up at the commit that
      was built. */
  function FinalCommentResolved(p: BuildPayload, w: BuildWorld, yielded: seq<string>): (r: Result<Comment>)
    ensures r.Ok? ==> (r.value.BookComment? <==> exists b :: b in w.books && b.commitHash == BuiltCommit(p, w))
    ensures p.commitHash != "HEAD" ==> r == FinalComment(p, w, yielded)
  {
    CommentAt(BuiltCommit(p, w), p, w, yielded)
  }

  /** A build requested at `HEAD` never announces its book: the inventory
      names books by their resolved commit, and the lookup uses the literal
      `HEAD`. So even when the book of the resolved commit is there, the
      failure report is posted instead. */
  lemma HeadBuildNeverAnnouncesBook(p: BuildPayload, w: BuildWorld, yielded: seq<string>)
    requires p.commitHash == "HEAD"
    requires forall b :: b in w.books ==> b.commitHash != "HEAD"
    ensures FinalComment(p, w, yielded).Ok? ==> FinalComment(p, w, yielded).value.FailureComment?
    ensures FinalCommentResolved(p, w, yielded).Ok? && CommitOf("HEAD", w.lsRemote).Ok? ==>
              (FinalCommentResolved(p, w, yielded).value.BookComment? <==>
                 exists b :: b in w.books && b.commitHash == CommitOf("HEAD", w.lsRemote).value)
  {
  }

  /** The book lookup and the comment it leads to. */
  method ComposeComment(p: BuildPayload, w: BuildWorld, yielded: seq<string>) returns (r: Result<Comment>)
    ensures r == FinalComment(p, w, yielded)
  {
    var found := BookGetByParams(w.books, None, Some(p.commitHash), None);
    if found != [] {
      return Ok(BookComment(found[0].bookUrl));
    }
    var parsed := GetOwnerRepoProvider(p.repoUrl, true);
    if parsed.Err? {
      return Err(parsed.error);
    }
    var sections := BookLogCollector(parsed.value.owner, parsed.value.repo, p.commitHash, w.mainLog, w.reports);
    r := Ok(FailureComment([BinderLog(Join(yielded, "")), BookLogs(sections), DebuggingHint]));
  }

  /** preview_build_book_task as a value: its run and the lock directory
      after it. */
  function PreviewBuildOf(locks: map<string, int>, p: BuildPayload, w: BuildWorld,
                          parse: string -> Option<BuildEvent>): (res: (BuildTaskRun, map<string, int>))
    ensures forall k :: GetLockFilename(p.repoUrl, w.cwd) != Ok(k) ==>
              (k in res.1 <==> k in locks) && (k in locks ==> res.1[k] == locks[k])
    ensures res.0.comment.Some? ==> res.0.error.None? && w.responseOk
  {
    var (pre, admitted) := Preflight(locks, p.repoUrl, p.commitHash, p.rateLimit, p.binderName,
                                     p.domainName, w.cwd, w.now, w.lsRemote);
    if pre.Err? then (BuildTaskRun(Some(pre.error), [], [], None), admitted)
    else
      match GetLockFilename(p.repoUrl, w.cwd)
      case Err(e) => (BuildTaskRun(Some(e), [], [], None), admitted)
      case Ok(lockName) =>
        if !w.responseOk then (BuildTaskRun(None, [], [], None), admitted)
        else
          var st := Run(Start(w.streamStart), w.frames, parse, p.taskTitle);
          var streamed := if st.failed then admitted - {lockName} else admitted;
          if lockName !in streamed then
            (BuildTaskRun(Some(Raised("FileNotFoundError")), st.yielded, st.notices, None), streamed)
          else
            var released := streamed - {lockName};
            match FinalComment(p, w, st.yielded)
            case Err(e) => (BuildTaskRun(Some(e), st.yielded, st.notices, None), released)
            case Ok(c) => (BuildTaskRun(None, st.yielded, st.notices, Some(c)), released)
  }

  /** preview_build_book_task over the lock store. */
  method PreviewBuildBookTask(store: LockStore, p: BuildPayload, w: BuildWorld,
                              parse: string -> Option<BuildEvent>) returns (run: BuildTaskRun)
    modifies store
    ensures (run, store.locks) == PreviewBuildOf(old(store.locks), p, w, parse)
  {
    var pre := RunPreflight(store, p.repoUrl, p.commitHash, p.rateLimit, p.binderName, p.domainName,
                            w.cwd, w.now, w.lsRemote);
    if pre.Err? {
      return BuildTaskRun(Some(pre.error), [], [], None);
    }
    var named := GetLockFilename(p.repoUrl, w.cwd);
    if named.Err? {
      return BuildTaskRun(Some(named.error), [], [], None);
    }
    var lockName := named.value;
    if !w.responseOk {
      return BuildTaskRun(None, [], [], None);
    }
    var yielded, notices, read, failed := BinderStream(store, lockName, w.frames, w.streamStart, parse, p.taskTitle);
    ghost var streamed := store.locks;
    var removed := store.Remove(lockName);
    if removed.Err? {
      assert store.locks == streamed;
      return BuildTaskRun(Some(removed.error), yielded, notices, None);
    }
    var comment := ComposeComment(p, w, yielded);
    if comment.Err? {
      return BuildTaskRun(Some(comment.error), yielded, notices, None);
    }
    run := BuildTaskRun(None, yielded, notices, Some(comment.value));
  }

  /** The admission step of the task. */
  function Admit(locks: map<string, int>, p: BuildPayload, w: BuildWorld): (Result<string>, map<string, int>) {
    Preflight(locks, p.repoUrl, p.commitHash, p.rateLimit, p.binderName, p.domainName, w.cwd, w.now, w.lsRemote)
  }

  /** A refused admission ends the task with the preflight's exception: no
      stream, no comment, and the lock store as the preflight left it. */
  lemma PreviewBuildRefused(locks: map<string, int>, p: BuildPayload, w: BuildWorld,
                            parse: string -> Option<BuildEvent>)
    requires Admit(locks, p, w).0.Err?
    ensures var (run, after) := PreviewBuildOf(locks, p, w, parse);
            run == BuildTaskRun(Some(Admit(locks, p, w).0.error), [], [], None) && after == Admit(locks, p, w).1
  {
  }

  /** When BinderHub answers the build request with an error status, the
      task ends quietly and the lock the preflight took stays held. */
  lemma PreviewBuildKeepsLockOnRefusedRequest(locks: map<string, int>, p: BuildPayload, w: BuildWorld,
                                              parse: string -> Option<BuildEvent>)
    requires Admit(locks, p, w).0.Ok? && !w.responseOk
    ensures GetLockFilename(p.repoUrl, w.cwd).Ok?
    ensures var (run, after) := PreviewBuildOf(locks, p, w, parse);
            var name := GetLockFilename(p.repoUrl, w.cwd).value;
            run == BuildTaskRun(None, [], [], None) && after == locks[name := w.now]
  {
    PreflightLockOutcome(locks, p.repoUrl, p.commitHash, p.rateLimit, p.binderName, p.domainName,
                         w.cwd, w.now, w.lsRemote);
  }

  /** An accepted request whose stream fails: the lock is gone before the
      task's own removal, which therefore raises. */
  lemma PreviewBuildFailed(locks: map<string, int>, p: BuildPayload, w: BuildWorld,
                           parse: string -> Option<BuildEvent>)
    requires Admit(locks, p, w).0.Ok? && w.responseOk
    requires Run(Start(w.streamStart), w.frames, parse, p.taskTitle).failed
    ensures GetLockFilename(p.repoUrl, w.cwd).Ok?
    ensures var st := Run(Start(w.streamStart), w.frames, parse, p.taskTitle);
            var name := GetLockFilename(p.repoUrl, w.cwd).value;
            PreviewBuildOf(locks, p, w, parse)
              == (BuildTaskRun(Some(Raised("FileNotFoundError")), st.yielded, st.notices, None), locks - {name})
  {
    var name := GetLockFilename(p.repoUrl, w.cwd).value;
    PreflightLockOutcome(locks, p.repoUrl, p.commitHash, p.rateLimit, p.binderName, p.domainName,
                         w.cwd, w.now, w.lsRemote);
    assert locks[name := w.now] - {name} == locks - {name};
  }

  /** When the build fails, binder_stream has already removed the lock, so
      the task's own removal raises FileNotFoundError: no comment is posted,
      and the only word on the issue is the failure notification, which
      carries the whole transcript. */
  lemma PreviewBuildFailedStreamRaises(locks: map<string, int>, p: BuildPayload, w: BuildWorld,
                                       parse: string -> Option<BuildEvent>)
    requires Admit(locks, p, w).0.Ok? && w.responseOk
    requires FirstFailure(w.frames, parse) < |w.frames|
    ensures GetLockFilename(p.repoUrl, w.cwd).Ok?
    ensures var (run, after) := PreviewBuildOf(locks, p, w, parse);
            var name := GetLockFilename(p.repoUrl, w.cwd).value;
            && run.error == Some(Raised("FileNotFoundError")) && run.comment.None?
            && after == locks - {name}
            && |run.notices| > 0 && run.notices[|run.notices| - 1].kind == "failure"
  {
    RunStopsAtFailure(Start(w.streamStart), w.frames, parse, p.taskTitle);
    RelayNotices(w.streamStart, w.frames, parse, p.taskTitle);
    PreviewBuildFailed(locks, p, w, parse);
  }

  /** The final comment: the URL of the first book built from the
      payload's commit, or else the failure report, whose first part quotes
      every relayed message and whose second part holds the build logs. */
  lemma FinalCommentCases(p: BuildPayload, w: BuildWorld, yielded: seq<string>)
    requires GetOwnerRepoProvider(p.repoUrl, false).Ok?
    ensures var found := SelectBooks(w.books, None, Some(p.commitHash), None);
            var c := FinalComment(p, w, yielded);
            var proj := GetOwnerRepoProvider(p.repoUrl, true).value;
            && c.Ok?
            && (found != [] ==> c.value == BookComment(found[0].bookUrl))
            && (found == [] ==> c.value.FailureComment? && |c.value.parts| == 3
                                && c.value.parts[0] == BinderLog(Join(yielded, ""))
                                && c.value.parts[1] == BookLogs(LogSections(proj.owner, proj.repo, p.commitHash,
                                                                            w.mainLog, w.reports))
                                && c.value.parts[2] == DebuggingHint)
  {
  }

  /** An accepted request whose stream does not fail: the lock is released
      and the run carries the stream's messages and the final comment. */
  lemma PreviewBuildUnfailed(locks: map<string, int>, p: BuildPayload, w: BuildWorld,
                             parse: string -> Option<BuildEvent>)
    requires Admit(locks, p, w).0.Ok? && w.responseOk
    requires !Run(Start(w.streamStart), w.frames, parse, p.taskTitle).failed
    ensures GetLockFilename(p.repoUrl, w.cwd).Ok?
    ensures var st := Run(Start(w.streamStart), w.frames, parse, p.taskTitle);
            var name := GetLockFilename(p.repoUrl, w.cwd).value;
            var (run, after) := PreviewBuildOf(locks, p, w, parse);
            && after == locks - {name} && run.yielded == st.yielded
            && (FinalComment(p, w, st.yielded).Ok? ==>
                  run.error.None? && run.comment == Some(FinalComment(p, w, st.yielded).value))
  {
    var name := GetLockFilename(p.repoUrl, w.cwd).value;
    PreflightLockOutcome(locks, p.repoUrl, p.commitHash, p.rateLimit, p.binderName, p.domainName,
                         w.cwd, w.now, w.lsRemote);
    assert locks[name := w.now] - {name} == locks - {name};
  }

  /** A build that does not fail releases the lock, relays every forwarded
      message and ends with the final comment. */
  lemma PreviewBuildReleasesLock(locks: map<string, int>, p: BuildPayload, w: BuildWorld,
                                 parse: string -> Option<BuildEvent>)
    requires Admit(locks, p, w).0.Ok? && w.responseOk
    requires FirstFailure(w.frames, parse) == |w.frames|
    ensures GetLockFilename(p.repoUrl, w.cwd).Ok? && FinalComment(p, w, Forwarded(w.frames, parse)).Ok?
    ensures var (run, after) := PreviewBuildOf(locks, p, w, parse);
            var name := GetLockFilename(p.repoUrl, w.cwd).value;
            && run.error.None? && after == locks - {name}
            && run.yielded == Forwarded(w.frames, parse)
            && run.comment == Some(FinalComment(p, w, run.yielded).value)
  {
    RunStopsAtFailure(Start(w.streamStart), w.frames, parse, p.taskTitle);
    RunYields(Start(w.streamStart), w.frames, parse, p.taskTitle);
    assert w.frames[..|w.frames|] == w.frames;
    assert GetOwnerRepoProvider(p.repoUrl, true).Ok?;
    PreviewBuildUnfailed(locks, p, w, parse);
  }

  /** preview_build_book_task as evidently intended: once admitted, the
      lock is released on every path, whether BinderHub refused the request,
      the build failed (and binder_stream already removed it) or it
      succeeded, and an accepted request always ends with the comment,
      which looks the book up at the commit that was built. */
  function PreviewBuildFixedOf(locks: map<string, int>, p: BuildPayload, w: BuildWorld,
                               parse: string -> Option<BuildEvent>): (res: (BuildTaskRun, map<string, int>))
    ensures forall k :: GetLockFilename(p.repoUrl, w.cwd) != Ok(k) ==>
              (k in res.1 <==> k in locks) && (k in locks ==> res.1[k] == locks[k])
    ensures res.0.comment.Some? ==> res.0.error.None? && w.responseOk
  {
    var (pre, admitted) := Admit(locks, p, w);
    if pre.Err? then (BuildTaskRun(Some(pre.error), [], [], None), admitted)
    else
      match GetLockFilename(p.repoUrl, w.cwd)
      case Err(e) => (BuildTaskRun(Some(e), [], [], None), admitted)
      case Ok(lockName) =>
        var released := admitted - {lockName};
        if !w.responseOk then (BuildTaskRun(None, [], [], None), released)
        else
          var st := Run(Start(w.streamStart), w.frames, parse, p.taskTitle);
          match FinalCommentResolved(p, w, st.yielded)
          case Err(e) => (BuildTaskRun(Some(e), st.yielded, st.notices, None), released)
          case Ok(c) => (BuildTaskRun(None, st.yielded, st.notices, Some(c)), released)
  }

  /** The corrected task never leaves a lock behind after an admission and
      never ends in an exception once admitted; it comments whenever
      BinderHub accepted the request, and agrees with the task as written on
      every build that does not fail and was not requested at `HEAD`. */
  lemma PreviewBuildFixedAlwaysReleases(locks: map<string, int>, p: BuildPayload, w: BuildWorld,
                                        parse: string -> Option<BuildEvent>)
    requires Admit(locks, p, w).0.Ok?
    ensures GetLockFilename(p.repoUrl, w.cwd).Ok?
    ensures var (run, after) := PreviewBuildFixedOf(locks, p, w, parse);
            var name := GetLockFilename(p.repoUrl, w.cwd).value;
            && after == locks - {name} && run.error.None?
            && (run.comment.Some? <==> w.responseOk)
            && (w.responseOk && FirstFailure(w.frames, parse) == |w.frames| && p.commitHash != "HEAD"
                ==> (run, after) == PreviewBuildOf(locks, p, w, parse))
  {
    var name := GetLockFilename(p.repoUrl, w.cwd).value;
    PreflightLockOutcome(locks, p.repoUrl, p.commitHash, p.rateLimit, p.binderName, p.domainName,
                         w.cwd, w.now, w.lsRemote);
    assert locks[name := w.now] - {name} == locks - {name};
    if w.responseOk && FirstFailure(w.frames, parse) == |w.frames| && p.commitHash != "HEAD" {
      RunStopsAtFailure(Start(w.streamStart), w.frames, parse, p.taskTitle);
      var st := Run(Start(w.streamStart), w.frames, parse, p.taskTitle);
      assert FinalCommentResolved(p, w, st.yielded) == FinalComment(p, w, st.yielded);
    }
  }
}
