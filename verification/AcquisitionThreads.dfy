/** What main's two companions do in a call: the reporter's messages and the listener's answers, read off the messages
    and the events of a run. */
module AcquisitionThreads {
  import opened Acquisition
  import opened AcquisitionInvariant
  import opened AcquisitionPreservation
  import opened AcquisitionAnswers

  // ----- the reporter

  function FromReporter(messages: seq<Message>): seq<Message> {
    if messages == [] then []
    else
      var last := messages[|messages| - 1];
      FromReporter(messages[..|messages| - 1]) + if IsReport(last) then [last] else []
  }

  lemma FromReporterAfter(messages: seq<Message>, m: Message)
    ensures FromReporter(messages + [m]) == if IsReport(m) then FromReporter(messages) + [m] else FromReporter(messages)
  {
    assert (messages + [m])[..|messages|] == messages;
  }

  /** Where the account of a series stands: the image it is at, and whether that one has just been called finished, so
      that progress on another one is due. */
  datatype Account = At(image: int, finished: bool) | Broken

  /** A series is told in turn: progress on image 1 first, then always on the same image until that is finished; the
      next report then is progress on the next image to be shown. */
  function Next(a: Account, m: Message): Account {
    match a
    case Broken => Broken
    case At(image, finished) =>
      match m
      case Progress(i) => if finished || i == image then At(i, false) else Broken
      case ImageFinished(i) => if !finished && i == image then At(i, true) else Broken
      case _ => a
  }

  function AccountOf(reports: seq<Message>): Account {
    if reports == [] then At(1, false) else Next(AccountOf(reports[..|reports| - 1]), reports[|reports| - 1])
  }

  lemma AccountAfter(reports: seq<Message>, m: Message)
    ensures AccountOf(reports + [m]) == Next(AccountOf(reports), m)
  {
    assert (reports + [m])[..|reports|] == reports;
  }

  /** What the account has come to where the reporter is. */
  ghost predicate InTurn(r: ReporterPc, shown: int, a: Account) {
    a.At?
    && match r
       case NoReporter => true
       case CopyImage => a.finished
       case SendProgress => a.finished || a.image == shown
       case _ => a == At(shown, false)
  }

  ghost predicate Accounted(s: State) {
    && InTurn(s.reporter, s.local.shown, AccountOf(FromReporter(s.log.messages)))
    && (BeforeLoop(s.main) ==> FromReporter(s.log.messages) == [])
  }

  lemma ReporterTakesTurns(s: State, spurious: bool, t: State, a: Account)
    requires StepReporter(s, spurious, t) && InTurn(s.reporter, s.local.shown, a)
    ensures InTurn(t.reporter, t.local.shown,
                   if s.reporter == SendFinished then Next(a, ImageFinished(s.local.shown))
                   else if s.reporter == SendProgress then Next(a, Progress(s.local.shown))
                   else a)
  {
  }

  lemma ReporterKeepsAccount(s: State, spurious: bool, t: State)
    requires Inv(s) && Accounted(s) && StepReporter(s, spurious, t)
    ensures Accounted(t)
  {
    ReporterRunsInLoop(s);
    ReporterTouches(s, spurious, t);
    var reports := FromReporter(s.log.messages);
    ReporterTakesTurns(s, spurious, t, AccountOf(reports));
    FromReporterAfter(s.log.messages, ImageFinished(s.local.shown));
    FromReporterAfter(s.log.messages, Progress(s.local.shown));
    AccountAfter(reports, ImageFinished(s.local.shown));
    AccountAfter(reports, Progress(s.local.shown));
    hide Inv, StepReporter, FromReporter, AccountOf, BeforeLoop, Next, InTurn;
  }

  lemma QuietReports(messages: seq<Message>, more: seq<Message>)
    requires SaysNothing(messages, more)
    ensures FromReporter(more) == FromReporter(messages)
  {
    hide FromReporter;
    if m :| !IsReport(m) && more == messages + [m] {
      FromReporterAfter(messages, m);
    }
  }

  lemma QuietKeepsAccount(s: State, t: State)
    requires Accounted(s) && Quiet(s, t)
    ensures Accounted(t)
  {
    QuietReports(s.log.messages, t.log.messages);
    hide FromReporter, AccountOf, BeforeLoop, SaysNothing;
  }

  lemma ExposureKeepsAccount(s: State, answer: Answer, t: State)
    requires Accounted(s) && StepExpose(s, answer, t)
    ensures Accounted(t)
  {
    ExposureCounts(s, answer, t);
    assert s.main == SpawnReporter ==> BeforeLoop(s.main);
    assert AccountOf([]) == At(1, false);
    hide StepExpose, FromReporter, AccountOf, BeforeLoop;
  }

  lemma MainKeepsAccount(s: State, answer: Answer, text: string, t: State)
    requires Inv(s) && Accounted(s) && StepMain(s, answer, text, t)
    ensures Accounted(t)
  {
    assert s.main != Idle ==> PlaceExists(s.main, s.job.kind);
    hide Inv, PlaceExists, Accounted, Quiet, StepPrelude, StepExpose, StepSave, StepRelease, StepFinish;
    if InExposure(s.main) {
      ExposureKeepsAccount(s, answer, t);
    } else {
      if InPrelude(s.main) {
        PreludeIsQuiet(s, t);
      } else if InSave(s.main) {
        SaveIsQuiet(s, answer, text, t);
      } else if InRelease(s.main) {
        ReleaseIsQuiet(s, answer, t);
      } else {
        FinishIsQuiet(s, t);
      }
      QuietKeepsAccount(s, t);
    }
  }

  lemma BeginAccounts(s: State, job: Job)
    requires s.reporter == NoReporter
    ensures Accounted(Begin(s, job))
  {
  }

  lemma StepKeepsAccount(s: State, e: Event, t: State)
    requires Inv(s) && Step(s, e, t) && t.main != Idle && (s.main != Idle ==> Accounted(s))
    ensures Accounted(t)
  {
    assert s.main == Idle ==> s.reporter == NoReporter && s.listener == NoListener;
    hide Inv, Accounted, Begin, StepMain, StepReporter, StepListener;
    match e {
      case StartCall(job) => BeginAccounts(s, job);
      case MainStep(answer, text) =>
        IdleMainDoesNothing(s, answer, text, t);
        MainKeepsAccount(s, answer, text, t);
      case ReporterStep(spurious) =>
        ReporterTouches(s, spurious, t);
        ReporterKeepsAccount(s, spurious, t);
      case ListenerStep(answer, newFd) =>
        ListenerTouches(s, answer, newFd, t);
        ListenerIsQuiet(s, answer, newFd, t);
        QuietKeepsAccount(s, t);
    }
  }

  lemma {:induction false} RunIsAccounted(states: seq<State>, events: seq<Event>, n: nat)
    requires IsRun(states, events) && n <= |events| && states[n].main != Idle
    ensures Accounted(states[n])
  {
    hide Inv, Accounted, Step;
    if n == 0 {
    } else {
      RunKeepsInv(states, events, n - 1);
      if states[n - 1].main != Idle {
        RunIsAccounted(states, events, n - 1);
      }
      StepKeepsAccount(states[n - 1], events[n - 1], states[n]);
    }
  }

  /** In every interleaving the reporter tells its call in turn. */
  lemma ReportsAreInTurn(s: State)
    requires Reachable(s) && s.main != Idle
    ensures AccountOf(FromReporter(s.log.messages)) != Broken
  {
    hide Step, AccountOf, FromReporter, BeforeLoop;
    var states, events :| RunEndsIn(states, events, s);
    RunIsAccounted(states, events, |events|);
  }

  // ----- the listener

  /** The listener asks for its socket, for a connection, and for a message. */
  predicate ListenerAsks(l: ListenerPc) {
    l.OpenSocket? || l.Accept? || l.Receive?
  }

  /** What it has been answered in the current call. */
  ghost function Heard(states: seq<State>, events: seq<Event>, n: nat): seq<bool>
    requires IsRun(states, events) && n <= |events|
  {
    if n == 0 then [] else HeardAfter(states[n - 1].listener, events[n - 1], Heard(states, events, n - 1))
  }

  function HeardAfter(l: ListenerPc, e: Event, heard: seq<bool>): seq<bool> {
    match e
    case StartCall(_) => []
    case ListenerStep(answer, _) => if ListenerAsks(l) then heard + [answer == Good] else heard
    case _ => heard
  }

  /** It ends with the first refusal, or with three good answers, which are an abort. */
  predicate IsFinal(heard: seq<bool>) {
    1 <= |heard| <= 3 && (forall i :: 0 <= i < |heard| - 1 ==> heard[i]) && (|heard| < 3 ==> !heard[|heard| - 1])
  }

  predicate AllTrue(heard: seq<bool>, n: nat) {
    |heard| == n && forall i :: 0 <= i < n ==> heard[i]
  }

  ghost predicate Follows(l: ListenerPc, main: MainPc, heard: seq<bool>) {
    match l
    case NoListener => if main == ResetFd || main == SpawnListener then heard == [] else IsFinal(heard)
    case ClearFlag | LockForFd | OpenSocket => heard == []
    case PublishFd | UnlockForAccept | Accept => AllTrue(heard, 1)
    case Receive => AllTrue(heard, 2)
    case SetFlag | CancelWait => AllTrue(heard, 3)
    case PublishFailure | UnlockAfterFailure => |heard| == 1 && !heard[0]
    case ListenerEnded => IsFinal(heard)
  }

  lemma ListenerFollows(s: State, answer: Answer, newFd: int, t: State, heard: seq<bool>)
    requires StepListener(s, answer, newFd, t) && Follows(s.listener, s.main, heard)
    ensures Follows(t.listener, t.main, HeardAfter(s.listener, ListenerStep(answer, newFd), heard))
  {
  }

  /** Main creates the listener and joins it once it has ended. */
  lemma MainLeavesListener(s: State, answer: Answer, text: string, t: State)
    requires StepMain(s, answer, text, t)
    ensures || t.listener == s.listener
            || (s.main == SpawnListener && t.listener == ClearFlag)
            || (s.listener == ListenerEnded && t.listener == NoListener)
    ensures t.main == SpawnListener ==> s.main == ResetFd
    ensures t.main != ResetFd && (s.main == ResetFd ==> t.main == SpawnListener)
    ensures s.main == SpawnListener ==> t.listener == ClearFlag
  {
    hide StepExpose, StepSave, StepRelease, StepFinish;
    if InExposure(s.main) {
      ExposureTouches(s, answer, t);
    } else if InSave(s.main) {
      SaveStaysInPlace(s, answer, text, t);
    } else if InRelease(s.main) {
      ReleaseTouches(s, answer, t);
    } else if !InPrelude(s.main) {
      FinishTouches(s, t);
    }
  }

  lemma StepFollows(s: State, e: Event, t: State, heard: seq<bool>)
    requires Inv(s) && Step(s, e, t) && t.main != Idle && (s.main != Idle ==> Follows(s.listener, s.main, heard))
    ensures Follows(t.listener, t.main, HeardAfter(s.listener, e, heard))
  {
    assert s.main == Idle || s.main == ResetFd || s.main == SpawnListener ==> s.listener == NoListener;
    hide Inv, StepMain, StepReporter, StepListener;
    match e {
      case StartCall(_) =>
      case MainStep(answer, text) =>
        IdleMainDoesNothing(s, answer, text, t);
        MainLeavesListener(s, answer, text, t);
      case ReporterStep(spurious) => ReporterTouches(s, spurious, t);
      case ListenerStep(answer, newFd) =>
        ListenerTouches(s, answer, newFd, t);
        ListenerFollows(s, answer, newFd, t, heard);
    }
  }

  lemma {:induction false} RunFollows(states: seq<State>, events: seq<Event>, n: nat)
    requires IsRun(states, events) && n <= |events| && states[n].main != Idle
    ensures Follows(states[n].listener, states[n].main, Heard(states, events, n))
  {
    hide Inv, Step, Follows, HeardAfter;
    if n == 0 {
    } else {
      RunKeepsInv(states, events, n - 1);
      if states[n - 1].main != Idle {
        RunFollows(states, events, n - 1);
      }
      StepFollows(states[n - 1], events[n - 1], states[n], Heard(states, events, n - 1));
    }
  }

  /** A returning call's listener has asked for a socket, a connection and a message, in that order, and stopped at the
      first refusal. */
  lemma {:induction false} ListenerStopsAtRefusal(states: seq<State>, events: seq<Event>)
    requires IsRun(states, events) && states[|events|].main.Return?
    ensures IsFinal(Heard(states, events, |events|))
  {
    RunFollows(states, events, |events|);
    RunKeepsInv(states, events, |events|);
    NobodyListensAtReturn(states[|events|]);
    hide IsRun, Heard, Inv, IsFinal;
  }

  lemma NobodyListensAtReturn(s: State)
    requires Inv(s) && s.main.Return?
    ensures s.listener == NoListener
  {
    hide Counters, Records, Signals;
  }
}
