/** What the acquisition protocol guarantees, in every interleaving of every sequence of calls. */
module AcquisitionTheorems {
  import opened Acquisition
  import opened AcquisitionInvariant
  import opened AcquisitionPreservation
  import FitsFilenames

  // ----- mutual exclusion and thread lifetimes

  /** Neither mutex is ever held twice, and whoever is about to unlock one owns it. */
  lemma MutualExclusion(s: State)
    requires Reachable(s)
    ensures !(HoldsSeries(s.main, s.job.kind) && s.reporter == Release)
    ensures !((s.main == CheckFd || s.main == UnlockFd) && HoldsFdLock(s.listener))
    ensures s.main.UnlockSeries? ==> s.shared.series == Main
    ensures s.reporter == Release ==> s.shared.series == Reporter
    ensures s.main == UnlockFd ==> s.shared.fdLock == Main
    ensures s.listener == UnlockForAccept || s.listener == UnlockAfterFailure ==> s.shared.fdLock == Listener
  {
    ReachableInv(s);
  }

  /** Main creates and joins the reporter, and does nothing else to it. */
  lemma MainLeavesReporter(s: State, answer: Answer, text: string, t: State)
    requires StepMain(s, answer, text, t)
    ensures t.reporter == s.reporter || t.reporter == Enter || t.reporter == NoReporter
  {
    hide StepSave;
    if InSave(s.main) {
      SaveStaysInPlace(s, answer, text, t);
    }
  }

  /** The reporter leaves its loop only after main has released the mutex; a bias frame's reporter has no loop. */
  lemma ReporterStaysUntilRelease(s: State, e: Event, t: State)
    requires Reachable(s) && Step(s, e, t)
    requires s.reporter != ReporterEnded && s.reporter != Release
    requires t.reporter == ReporterEnded || t.reporter == Release
    ensures !HoldsSeries(s.main, s.job.kind) || (s.reporter == Enter && s.job.kind == SingleScan && s.job.zeroExposure)
  {
    ReachableInv(s);
    hide Reachable, StepMain, StepListener, Lifetimes, Counters, Records, Signals;
    match e {
      case StartCall(_) =>
      case MainStep(answer, text) => MainLeavesReporter(s, answer, text, t);
      case ReporterStep(_) =>
      case ListenerStep(answer, newFd) => ListenerTouches(s, answer, newFd, t);
    }
  }

  /** Every return leaves both mutexes free, both threads joined and the camera stopped. */
  lemma CleanReturn(s: State)
    requires Reachable(s) && (s.main.Return? || s.main == Idle)
    ensures s.shared.series == Free && s.shared.fdLock == Free
    ensures s.reporter == NoReporter && s.listener == NoListener
    ensures !s.world.exposing && !s.world.cancelled
  {
    ReachableInv(s);
  }

  /** So between calls the daemon is in a state it could have started in: nothing of earlier calls can be told from the
      threads, the locks and the camera. */
  lemma EveryCallStartsClean(s: State)
    requires s.main == Idle
    ensures Reachable(s) <==> Initial(s)
  {
    hide Reachable;
    if Initial(s) {
      InitialIsReachable(s);
    }
    if Reachable(s) {
      CleanReturn(s);
    }
  }

  // ----- the "done" message

  /** A returning call has sent exactly one "done", and it is the last message unless a series failed to save. That of
      a series names the image it was on, counted by what it has fetched; its last image; or, without images, the
      number it found. */
  lemma ExactlyOneDone(s: State)
    requires Reachable(s) && s.main.Return?
    ensures Dones(s.log.messages) == 1
    ensures s.main.cause == SaveFailed ==> Done(SaveFailed, false, 0) in s.log.messages
    ensures s.job.kind == SingleScan ==> EndsWithDone(s.log.messages, s.main.cause, 0)
    ensures s.job.kind == RunTillAbort ==>
              match s.main.cause
              case StartFailed => EndsWithDone(s.log.messages, StartFailed, 1)
              case WaitFailed | NoNewData | FetchFailed =>
                EndsWithDone(s.log.messages, s.main.cause, |s.log.fetched| + 1)
              case Completed =>
                EndsWithDone(s.log.messages, Completed, if s.job.images >= 1 then s.job.images else s.log.imageBefore)
              case SaveFailed => true
  {
    ReachableInv(s);
    hide Reachable, Threads, Announced, Files, AbortFlag, Descriptor, Orderly, InScope, AllInScope;
  }

  lemma MainSilentAfterDone(s: State, answer: Answer, text: string, t: State)
    requires DoneSent(s.main) && StepMain(s, answer, text, t)
    ensures t.log.messages == s.log.messages
  {
    hide StepPrelude, StepExpose, StepSave;
  }

  /** No step of any thread sends anything after the "done", unless a series failed to save. */
  lemma NothingAfterDone(s: State, e: Event, t: State)
    requires Reachable(s) && Step(s, e, t)
    requires DoneSent(s.main) && (s.job.kind == SingleScan || s.main.cause != SaveFailed) && t.main != ResetFd
    ensures t.log.messages == s.log.messages
  {
    ReachableInv(s);
    hide Reachable, StepMain, StepReporter, StepListener, Threads, Counters, Records, Signals;
    match e {
      case StartCall(_) =>
      case MainStep(answer, text) => MainSilentAfterDone(s, answer, text, t);
      case ReporterStep(spurious) =>
        ReporterTouches(s, spurious, t);
        DoneMeansReporterGone(s);
      case ListenerStep(answer, newFd) => ListenerTouches(s, answer, newFd, t);
    }
  }

  // ----- aborts

  /** When main classifies a failed wait, `abort_set` says exactly whether this call's listener has received
      something; a wait ended by CancelWait is one of those. */
  lemma AbortIsClassifiedCorrectly(s: State)
    requires Reachable(s) && s.main == SendDone(WaitFailed)
    ensures s.listener == NoListener
    ensures s.shared.abortSet != 0 <==> s.log.abortReceived
    ensures s.log.cancelEndedWait ==> s.shared.abortSet != 0
  {
    ReachableInv(s);
  }

  /** A returning call has told the client of a user abort exactly when it ended in a failed wait and its listener had
      received something; that includes every wait ended by CancelWait. */
  lemma AbortIsReportedExactlyWhen(s: State)
    requires Reachable(s) && s.main.Return?
    ensures (exists m :: m in s.log.messages && m.Done? && m.byUser)
       <==> s.main.cause == WaitFailed && s.log.abortReceived
    ensures s.log.cancelEndedWait ==> s.main.cause == WaitFailed && s.log.abortReceived
  {
    ReachableInv(s);
    hide Reachable, Threads, Counters, Announced, Files, Descriptor, Numbers, Orderly;
    var messages, c := s.log.messages, s.main.cause;
    var done := if c == WaitFailed then Done(c, s.log.abortReceived, DoneImage(s, c))
                else if c == SaveFailed then Done(c, false, 0)
                else messages[|messages| - 1];
    assert done in messages && done.Done?;
    forall m | m in messages && m.Done? ensures m == done {
      OnlyDone(messages, m, done);
    }
  }

  lemma {:induction false} DonesOf(messages: seq<Message>, i: nat)
    requires i < |messages| && messages[i].Done?
    ensures Dones(messages) >= 1
    ensures forall j :: 0 <= j < |messages| && j != i && messages[j].Done? ==> Dones(messages) >= 2
  {
    var last := |messages| - 1;
    if i == last {
      forall j | 0 <= j < last && messages[j].Done? ensures Dones(messages[..last]) >= 1 {
        DonesOf(messages[..last], j);
      }
    } else {
      DonesOf(messages[..last], i);
      forall j | 0 <= j < last && j != i && messages[j].Done? ensures Dones(messages) >= 2 {
        assert messages[..last][j] == messages[j];
      }
    }
  }

  lemma OnlyDone(messages: seq<Message>, a: Message, b: Message)
    requires Dones(messages) == 1 && a in messages && b in messages && a.Done? && b.Done?
    ensures a == b
  {
    hide Dones;
    var i :| 0 <= i < |messages| && messages[i] == a;
    var j :| 0 <= j < |messages| && messages[j] == b;
    DonesOf(messages, i);
  }

  /** CancelWait reaches main exactly when main is waiting: an abort that comes in at any other place cancels
      nothing. */
  lemma CancelHitsExactlyWhen(s: State, newFd: int, t: State)
    requires Reachable(s) && s.listener == CancelWait && StepListener(s, Good, newFd, t)
    ensures t.world.cancelled <==> s.main == WaitForAcquisition
  {
    ReachableInv(s);
  }

  /** A cancelled wait ends the acquisition: the only way on for main is the exit for a failed wait. */
  lemma CancelledWaitFails(s: State, answer: Answer, text: string, t: State)
    requires Reachable(s) && s.world.cancelled && StepMain(s, answer, text, t)
    ensures t.main == AbortAcquisition(WaitFailed) && t.log.cancelEndedWait && t.log.abortReceived
  {
    ReachableInv(s);
  }

  // ----- the series

  lemma {:induction false} OneToAt(n: nat, i: nat)
    requires i < n
    ensures OneTo(n)[i] == i + 1
  {
    if i == n - 1 {
    } else {
      OneToAt(n - 1, i);
    }
  }

  /** A successful series of n images: images 1..n fetched in order, n files under new and pairwise distinct
      names, each announced once and in order, and a "done" that says n. */
  lemma SuccessfulSeries(s: State)
    requires Reachable(s) && s.job.kind == RunTillAbort && s.main == Return(Completed) && s.job.images >= 1
    ensures s.log.fetched == OneTo(s.job.images)
    ensures |s.log.written| == s.job.images && NewFiles(s.log.filesBefore, s.world.files, s.log.written)
    ensures Created(s.log.messages) == s.log.written
    ensures EndsWith(s.log.messages, Done(Completed, false, s.job.images))
  {
    ReachableInv(s);
    assert s.log.written[..s.local.saved] == s.log.written;
  }

  /** A series that fails at image i has completed exactly the i - 1 saves before it. */
  lemma FailedSeries(s: State)
    requires Reachable(s) && s.job.kind == RunTillAbort && s.main.Return?
    requires s.main.cause != Completed && s.main.cause != StartFailed
    ensures var i := s.shared.imageNumber;
            && 1 <= i <= s.job.images
            && |s.log.written| == i - 1
            && NewFiles(s.log.filesBefore, s.world.files, s.log.written)
            && Created(s.log.messages) == s.log.written
            && s.log.fetched == OneTo(if s.main.cause == SaveFailed then i else i - 1)
  {
    ReachableInv(s);
    assert s.log.written[..s.local.saved] == s.log.written;
  }

  /** A generic name without '/' never leads to a file that already exists, so no write is refused for that. */
  lemma AllocatedNameIsFree(s: State)
    requires Reachable(s) && s.main == SaveWrite && !FitsFilenames.HasSlash(s.local.name)
    ensures s.local.name !in s.world.files
  {
    ReachableInv(s);
  }

  // ----- the image numbers in progress messages

  /** A report names image 1, the image main is on or an earlier one of this series, or the number an earlier series
      left behind. */
  lemma ProgressNumbers(s: State, m: Message)
    requires Reachable(s) && s.main != Idle && m in s.log.messages && IsReport(m)
    ensures || m.image == 1
            || (s.job.kind == RunTillAbort
                && (m.image == s.log.imageBefore || (1 <= m.image <= |s.log.fetched| + 1 && m.image <= s.job.images)))
  {
    ReachableInv(s);
  }

  /** A series that found 1 in `cur_img_in_series` never reports ahead of the camera: an image reported finished has
      been fetched, progress is on the next image at most, and the numbers reported never go down. */
  lemma ReportsFollowCamera(s: State)
    requires Reachable(s) && s.main != Idle && s.job.kind == RunTillAbort && s.log.imageBefore == 1
    ensures AllTruthful(|s.log.fetched|, s.log.messages) && Nondecreasing(Reports(s.log.messages))
  {
    ReachableInv(s);
  }

  // ----- no thread is stuck, with two exceptions

  /** Main's next step does not have to wait for another thread. */
  predicate MainReady(s: State) {
    match s.main
    case Idle => false
    case LockFd => s.shared.fdLock == Free
    case Asleep => false
    case LockSeries => s.shared.series == Free
    case JoinReporter(_) => s.reporter == ReporterEnded
    case JoinListener(_) => s.listener == ListenerEnded
    case _ => true
  }

  predicate ReporterReady(s: State) {
    s.reporter != NoReporter && s.reporter != ReporterEnded
  }

  /** The listener's next step does not have to wait: SDK calls return, a connected client sends or closes,
      and `accept` returns once the socket is shut. */
  predicate ListenerReady(s: State) {
    match s.listener
    case NoListener | ListenerEnded => false
    case LockForFd => s.shared.fdLock == Free
    case Accept => s.world.socketShut
    case _ => true
  }

  /** A call is in progress and nothing is certain to happen any more. */
  predicate Stuck(s: State) {
    s.main != Idle && !MainReady(s) && !ReporterReady(s) && !ListenerReady(s)
  }

  /** Readiness of main is real: there is an answer with which it moves to another place. */
  lemma MainReadyMoves(s: State)
    requires Reachable(s) && MainReady(s)
    ensures exists answer, t :: StepMain(s, answer, "", t) && t.main != s.main
  {
    ReachableInv(s);
    if InPrelude(s.main) {
      PreludeMoves(s);
    } else if InExposure(s.main) {
      ExposureMoves(s);
    } else if InSave(s.main) {
      SaveMoves(s);
    } else {
      ExitMoves(s);
    }
  }

  lemma PreludeMoves(s: State)
    requires InPrelude(s.main) && MainReady(s)
    ensures exists answer, t :: StepMain(s, answer, "", t) && t.main != s.main
  {
    var locked := s.shared.(fdLock := Main);
    var t := match s.main
      case ResetFd => s.(main := SpawnListener, shared := s.shared.(fd := FD_UNSET))
      case SpawnListener =>
        s.(main := LockFd, listener := ClearFlag, world := s.world.(socketShut := false),
           log := s.log.(abortReceived := false))
      case LockFd => s.(main := CheckFd, shared := locked)
      case CheckFd =>
        if s.shared.fd != 0 then s.(main := UnlockFd) else s.(main := Asleep, shared := s.shared.(fdLock := Free))
      case _ => s.(main := StartAcquisition, shared := s.shared.(fdLock := Free));
    assert StepMain(s, Good, "", t);
  }

  lemma ExposureMoves(s: State)
    requires InExposure(s.main) && MainReady(s)
    ensures exists answer, t :: StepMain(s, answer, "", t) && t.main != s.main
  {
    var rta := s.job.kind == RunTillAbort;
    var t := match s.main
      case StartAcquisition => s.(main := SendDone(StartFailed))
      case LockSeries => s.(main := SpawnReporter, shared := s.shared.(series := Main))
      case SpawnReporter =>
        s.(main := if rta then NextImage else WaitForAcquisition, reporter := Enter,
           local := s.local.(shown := 1))
      case NextImage =>
        if s.local.saved < s.job.images then
          s.(main := WaitForAcquisition, shared := s.shared.(imageNumber := s.local.saved + 1))
        else s.(main := UnlockSeries(Completed))
      case WaitForAcquisition =>
        s.(main := AbortAcquisition(WaitFailed), world := s.world.(cancelled := false),
           log := s.log.(cancelEndedWait := s.world.cancelled))
      case PollNewImages => s.(main := FetchImage)
      case _ => s.(main := AbortAcquisition(FetchFailed));
    assert StepMain(s, Bad, "", t);
  }

  lemma SaveMoves(s: State)
    requires InSave(s.main)
    ensures exists answer, t :: StepMain(s, answer, "", t) && t.main != s.main
  {
    var rta := s.job.kind == RunTillAbort;
    var t := match s.main
      case SaveName => s.(main := SaveNameFailed)
      case SaveNameFailed => s.(main := SaveError, world := s.world.(exposing := false))
      case SaveWrite => s.(main := SaveError)
      case SaveError =>
        Emit(s, Done(SaveFailed, false, DoneImage(s, SaveFailed))).(
          main := if rta then AbortAcquisition(SaveFailed) else Return(SaveFailed))
      case SaveReport =>
        Emit(s, FileCreated(s.local.name)).(
          main := if rta then NextImage else SendDone(Completed), local := s.local.(saved := s.local.saved + 1))
      case _ => s;
    assert StepMain(s, Bad, "", t);
  }

  lemma ExitMoves(s: State)
    requires !InPrelude(s.main) && !InExposure(s.main) && !InSave(s.main) && MainReady(s)
    ensures exists answer, t :: StepMain(s, answer, "", t) && t.main != s.main
  {
    var kind := s.job.kind;
    var t := match s.main
      case AbortAcquisition(c) => s.(main := AfterAbort(kind, c), world := s.world.(exposing := false))
      case UnlockSeries(c) => s.(main := Shutdown(c), shared := s.shared.(series := Free))
      case Shutdown(c) =>
        var hit := SocketOpen(s.listener) && s.shared.fd == s.world.socketFd;
        s.(main := AfterShutdown(kind, c), world := s.world.(socketShut := s.world.socketShut || hit),
           log := s.log.(blindShutdown := s.shared.fd == FD_UNSET))
      case GetAcquiredData => s.(main := JoinReporter(Completed))
      case JoinReporter(c) => s.(main := JoinListener(c), reporter := NoReporter)
      case JoinListener(c) => s.(main := AfterJoins(kind, c), listener := NoListener)
      case SendDataAcquired => Emit(s, DataAcquired).(main := SaveName)
      case SendDone(c) =>
        Emit(s, Done(c, c == WaitFailed && s.shared.abortSet != 0, DoneImage(s, c))).(main := AfterDone(kind, c))
      case _ => s.(main := Idle);
    assert StepMain(s, Good, "", t);
  }

  /** A blocked main really is: no answer lets it do anything but wake up and go back to sleep. */
  lemma MainNotReadyWaits(s: State, answer: Answer, text: string, t: State)
    requires Reachable(s) && !MainReady(s) && StepMain(s, answer, text, t)
    ensures s.main == Asleep && t.main == CheckFd && t.shared.fd == 0
  {
    ReachableInv(s);
  }

  /** Exactly two situations are stuck: main joins a listener whose socket it did not shut, or main sleeps on a
      descriptor that is 0. */
  lemma StuckExactlyWhen(s: State)
    requires Reachable(s)
    ensures Stuck(s) <==>
              || (s.main.JoinListener? && s.listener == Accept && !s.world.socketShut)
              || (s.main == Asleep && s.shared.fd == 0 && (s.listener == Accept || s.listener == ListenerEnded))
  {
    ReachableInv(s);
  }

  /** The first situation needs a shutdown issued before the listener had published its descriptor. */
  lemma NotStuckOncePublished(s: State)
    requires Reachable(s) && s.shared.fd != 0 && !s.log.blindShutdown
    ensures !Stuck(s)
  {
    ReachableInv(s);
  }

  /** A shutdown misses the listener's socket exactly when the listener has not yet published a descriptor. */
  lemma ShutdownIsBlindExactlyWhen(s: State, answer: Answer, text: string, t: State)
    requires Reachable(s) && s.main.Shutdown? && StepMain(s, answer, text, t)
    ensures t.log.blindShutdown <==> BeforePublish(s.listener)
    ensures !t.log.blindShutdown && Published(s.listener) ==> t.world.socketShut
  {
    ReachableInv(s);
  }

  // ----- after the mutex is released the call winds down in a bounded number of steps

  /** Main holds no mutex any more and is on its way out. */
  predicate WindingDown(pc: MainPc, kind: Kind) {
    match pc
    case Shutdown(_) | GetAcquiredData | JoinReporter(_) | JoinListener(_) | SendDataAcquired => true
    case SendDone(_) | Return(_) => true
    case SaveName | SaveNameFailed | SaveWrite | SaveError | SaveReport => kind == SingleScan
    case AbortAcquisition(_) => !HoldsSeries(pc, kind)
    case _ => false
  }

  function MainRank(pc: MainPc): nat {
    match pc
    case SendDone(c) => if c == StartFailed then 16 else 3
    case AbortAcquisition(c) => if c == StartFailed then 15 else if c == FetchFailed then 4 else 2
    case Shutdown(_) => 14
    case GetAcquiredData => 13
    case JoinReporter(_) => 12
    case JoinListener(_) => 11
    case SendDataAcquired => 10
    case SaveName => 9
    case SaveWrite => 8
    case SaveNameFailed => 7
    case SaveReport => 6
    case SaveError => 5
    case Return(_) => 1
    case _ => 0
  }

  function ReporterRank(pc: ReporterPc): nat {
    match pc
    case NoReporter => 0
    case ReporterEnded => 1
    case Release => 2
    case TryLock => 3
    case SendProgress => 4
    case CopyImage => 5
    case SendFinished => 6
    case CompareImage => 7
    case Enter => 8
  }

  function ListenerRank(pc: ListenerPc): nat {
    match pc
    case NoListener => 0
    case ListenerEnded => 1
    case UnlockAfterFailure => 2
    case PublishFailure => 3
    case CancelWait => 4
    case SetFlag => 5
    case Receive => 6
    case Accept => 7
    case UnlockForAccept => 8
    case PublishFd => 9
    case OpenSocket => 10
    case LockForFd => 11
    case ClearFlag => 12
  }

  function Rank(s: State): (r: nat)
    ensures r <= 36
  {
    MainRank(s.main) + ReporterRank(s.reporter) + ListenerRank(s.listener)
  }

  lemma MainWindsDown(s: State, answer: Answer, text: string, t: State)
    requires PlaceExists(s.main, s.job.kind) && WindingDown(s.main, s.job.kind) && StepMain(s, answer, text, t)
    ensures MainRank(t.main) < MainRank(s.main) && t.job == s.job
    ensures WindingDown(t.main, t.job.kind) || t.main == Idle
    ensures t.reporter == s.reporter || t.reporter == NoReporter
    ensures t.listener == s.listener || t.listener == NoListener
  {
    hide StepSave, StepRelease, StepFinish, StepPrelude, StepExpose;
    if InSave(s.main) {
      SaveStaysInPlace(s, answer, text, t);
      SaveWindsDown(s, answer, text, t);
    } else if InRelease(s.main) {
      ReleaseTouches(s, answer, t);
    } else {
      FinishTouches(s, t);
    }
  }

  lemma SaveWindsDown(s: State, answer: Answer, text: string, t: State)
    requires s.job.kind == SingleScan && StepSave(s, answer, text, t)
    ensures MainRank(t.main) < MainRank(s.main) && (WindingDown(t.main, SingleScan))
  {
    hide Listing, FitsFilenames.NextName, FitsFilenames.NoOverflow, DoneImage;
  }

  lemma OthersWindDown(s: State, e: Event, t: State)
    requires Threads(s) && !HoldsSeries(s.main, s.job.kind) && Step(s, e, t)
    requires e.ListenerStep? || (e.ReporterStep? && !(s.reporter == TryLock && e.spurious))
    ensures t.main == s.main && t.job == s.job
    ensures ReporterRank(t.reporter) + ListenerRank(t.listener) < ReporterRank(s.reporter) + ListenerRank(s.listener)
  {
    hide HoldsSeries, ReporterAlive, ListenerAlive, PlaceExists, MayExpose;
  }

  lemma WindingDownIsReleased(pc: MainPc, kind: Kind)
    requires PlaceExists(pc, kind) && WindingDown(pc, kind)
    ensures !HoldsSeries(pc, kind) && pc != Idle
  {
  }

  /** Every step of every thread, spurious `try_lock` failures aside, brings the call closer to its return. */
  lemma WindingDownDecreases(s: State, e: Event, t: State)
    requires Reachable(s) && WindingDown(s.main, s.job.kind) && Step(s, e, t)
    requires !(s.reporter == TryLock && e == ReporterStep(true))
    ensures Rank(t) < Rank(s)
    ensures t.job == s.job && (WindingDown(t.main, t.job.kind) || t.main == Idle)
  {
    hide Lifetimes, Counters, Records, Signals, StepMain, StepReporter, StepListener, MainRank, WindingDown, Reachable;
    ReachableInv(s);
    WindingDownIsReleased(s.main, s.job.kind);
    if e.MainStep? {
      MainWindsDown(s, e.answer, e.text, t);
    } else {
      OthersWindDown(s, e, t);
    }
  }

  /** A run from s during one winding down, without spurious failures. */
  ghost predicate IsWindingDown(states: seq<State>, events: seq<Event>) {
    && |states| == |events| + 1
    && Reachable(states[0])
    && forall i :: 0 <= i < |events| ==>
         && Step(states[i], events[i], states[i + 1])
         && WindingDown(states[i].main, states[i].job.kind)
         && !(states[i].reporter == TryLock && events[i] == ReporterStep(true))
  }

  /** So all threads together take at most 36 steps from the release of the mutex to the return. */
  lemma {:induction false} WindingDownIsBounded(states: seq<State>, events: seq<Event>)
    requires IsWindingDown(states, events)
    ensures Reachable(states[|events|])
    ensures |events| <= Rank(states[0]) - Rank(states[|events|]) <= 36
  {
    if events == [] {
    } else {
      var n := |events| - 1;
      assert IsWindingDown(states[..n + 1], events[..n]);
      WindingDownIsBounded(states[..n + 1], events[..n]);
      WindingDownDecreases(states[n], events[n], states[n + 1]);
      ReachableStep(states[n], events[n], states[n + 1]);
    }
  }

  // ----- and it does return

  /** Readiness of the reporter is real. */
  lemma ReporterReadyMoves(s: State)
    requires ReporterReady(s)
    ensures exists t :: StepReporter(s, false, t) && t.reporter != s.reporter
  {
    var rta := s.job.kind == RunTillAbort;
    var t := match s.reporter
      case Enter => s.(reporter := if !rta && s.job.zeroExposure then ReporterEnded else TryLock)
      case TryLock =>
        if s.shared.series == Free then s.(reporter := Release, shared := s.shared.(series := Reporter))
        else s.(reporter := if rta then CompareImage else SendProgress)
      case CompareImage =>
        s.(reporter := if s.local.shown != s.shared.imageNumber then SendFinished else SendProgress)
      case SendFinished => Emit(s, ImageFinished(s.local.shown)).(reporter := CopyImage)
      case CopyImage => s.(reporter := SendProgress, local := s.local.(shown := s.shared.imageNumber))
      case SendProgress => Emit(s, Progress(s.local.shown)).(reporter := TryLock)
      case _ => s.(reporter := ReporterEnded, shared := s.shared.(series := Free));
    assert StepReporter(s, false, t);
  }

  /** Readiness of the listener is real, even if no client ever connects. */
  lemma ListenerReadyMoves(s: State)
    requires ListenerReady(s)
    ensures exists answer, t :: StepListener(s, answer, 0, t) && t.listener != s.listener
  {
    var t := match s.listener
      case ClearFlag => s.(listener := LockForFd, shared := s.shared.(abortSet := 0))
      case LockForFd => s.(listener := OpenSocket, shared := s.shared.(fdLock := Listener))
      case OpenSocket => s.(listener := PublishFailure)
      case PublishFd => s.(listener := UnlockForAccept, shared := s.shared.(fd := s.world.socketFd))
      case UnlockForAccept => s.(listener := Accept, shared := s.shared.(fdLock := Free))
      case Accept | Receive => s.(listener := ListenerEnded)
      case SetFlag => s.(listener := CancelWait, shared := s.shared.(abortSet := 1))
      case CancelWait => s.(listener := ListenerEnded)
      case PublishFailure => s.(listener := UnlockAfterFailure, shared := s.shared.(fd := FD_FAILED))
      case _ => s.(listener := ListenerEnded, shared := s.shared.(fdLock := Free));
    assert StepListener(s, Bad, 0, t);
  }

  /** A step that does not depend on luck: of a thread that is ready, and without a spurious failure. */
  predicate Certain(s: State, e: Event) {
    match e
    case StartCall(_) => false
    case MainStep(_, _) => MainReady(s)
    case ReporterStep(spurious) => ReporterReady(s) && !spurious
    case ListenerStep(_, _) => ListenerReady(s)
  }

  /** While a call winds down and no shutdown has gone astray, some thread has a certain step after which this is still
      so: listener first, main last. */
  lemma CertainStep(s: State) returns (e: Event, t: State)
    requires Reachable(s) && WindingDown(s.main, s.job.kind) && !s.log.blindShutdown
    ensures Step(s, e, t) && Certain(s, e) && !t.log.blindShutdown
  {
    hide Reachable, StepMain, StepReporter, StepListener, MainReady, ReporterReady, ListenerReady;
    if ListenerReady(s) {
      ListenerReadyMoves(s);
      var answer; answer, t :| StepListener(s, answer, 0, t);
      e := ListenerStep(answer, 0);
      ListenerTouches(s, answer, 0, t);
    } else if ReporterReady(s) {
      ReporterReadyMoves(s);
      t :| StepReporter(s, false, t);
      e := ReporterStep(false);
      ReporterTouches(s, false, t);
    } else {
      QuietMainIsReady(s);
      MainReadyMoves(s);
      var answer; answer, t :| StepMain(s, answer, "", t);
      e := MainStep(answer, "");
      ShutdownNotBlind(s, answer, t);
    }
  }

  lemma QuietMainIsReady(s: State)
    requires Reachable(s) && WindingDown(s.main, s.job.kind) && !s.log.blindShutdown
    requires !ListenerReady(s) && !ReporterReady(s)
    ensures MainReady(s)
  {
    StuckExactlyWhen(s);
    ReachableInv(s);
    hide Reachable, Locks, Lifetimes, Counters, Records, AbortFlag, Numbers, Orderly;
  }

  lemma ShutdownNotBlind(s: State, answer: Answer, t: State)
    requires Reachable(s) && WindingDown(s.main, s.job.kind) && !s.log.blindShutdown
    requires !ListenerReady(s) && StepMain(s, answer, "", t)
    ensures !t.log.blindShutdown
  {
    ReachableInv(s);
    hide Reachable, StepPrelude, StepExpose, StepSave, StepRelease, StepFinish, Counters, Records, Signals;
    if s.main.Shutdown? {
      ShutdownIsBlindExactlyWhen(s, answer, "", t);
    } else if InSave(s.main) {
      SaveStaysInPlace(s, answer, "", t);
    } else if InRelease(s.main) {
      OnlyShutdownIsBlind(s, answer, t);
    } else {
      FinishTouches(s, t);
    }
  }

  lemma OnlyShutdownIsBlind(s: State, answer: Answer, t: State)
    requires StepRelease(s, answer, t) && !s.main.Shutdown?
    ensures t.log == s.log
  {
  }

  /** From every state in which a call winds down and no shutdown has gone astray, certain steps alone end the call,
      after at most 36 of them. */
  lemma {:induction false} CallReturns(s: State) returns (states: seq<State>, events: seq<Event>)
    requires Reachable(s) && WindingDown(s.main, s.job.kind) && !s.log.blindShutdown
    ensures IsWindingDown(states, events) && states[0] == s && 0 < |events| <= 36
    ensures forall i :: 0 <= i < |events| ==> Certain(states[i], events[i])
    ensures states[|events|].main == Idle
    decreases Rank(s)
  {
    hide Reachable, Step, WindingDown, Certain, Rank;
    var e, t := CertainStep(s);
    NotSpurious(s, e);
    WindingDownDecreases(s, e, t);
    ReachableStep(s, e, t);
    if t.main == Idle {
      states, events := [s, t], [e];
    } else {
      var later, rest := CallReturns(t);
      states, events := [s] + later, [e] + rest;
      RunFrom(s, e, later, rest);
    }
    WindingDownIsBounded(states, events);
  }

  lemma NotSpurious(s: State, e: Event)
    requires Certain(s, e)
    ensures !(s.reporter == TryLock && e == ReporterStep(true))
  {
  }

  lemma RunFrom(s: State, e: Event, later: seq<State>, rest: seq<Event>)
    requires IsWindingDown(later, rest) && Reachable(s) && Step(s, e, later[0]) && WindingDown(s.main, s.job.kind)
    requires !(s.reporter == TryLock && e == ReporterStep(true))
    ensures IsWindingDown([s] + later, [e] + rest)
  {
    hide Reachable, Step, WindingDown;
    var states, events := [s] + later, [e] + rest;
    forall i | 0 <= i < |events|
      ensures && Step(states[i], events[i], states[i + 1]) && WindingDown(states[i].main, states[i].job.kind)
              && !(states[i].reporter == TryLock && events[i] == ReporterStep(true))
    {
      if i > 0 {
        assert states[i] == later[i - 1] && events[i] == rest[i - 1] && states[i + 1] == later[i];
      }
    }
  }
}
