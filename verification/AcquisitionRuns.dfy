/** Runs that show where the acquisition protocol falls short of its documentation. Each starts from an arbitrary
    idle daemon, so none of them depends on a particular history. */
module AcquisitionRuns {
  import opened Acquisition
  import opened AcquisitionInvariant
  import opened AcquisitionPreservation
  import opened AcquisitionTheorems
  import FitsFilenames

  /** Main about to start the acquisition while the listener has not taken its first step: the wait for the
      descriptor has let main through. */
  function AtStart(s: State, job: Job): State {
    Begin(s, job).(
      main := StartAcquisition, listener := ClearFlag,
      shared := s.shared.(fd := FD_UNSET), world := s.world.(socketShut := false))
  }

  lemma WaitDoesNotWait(s: State, job: Job)
    requires Reachable(s) && s.main == Idle
    ensures Reachable(AtStart(s, job))
  {
    EveryCallStartsClean(s);
    var s1 := Begin(s, job);
    var s2 := s1.(main := SpawnListener, shared := s1.shared.(fd := FD_UNSET));
    var s3 := s2.(main := LockFd, listener := ClearFlag, world := s2.world.(socketShut := false));
    var s4 := s3.(main := CheckFd, shared := s3.shared.(fdLock := Main));
    var s5 := s4.(main := UnlockFd);
    ReachableStep(s, StartCall(job), s1);
    ReachableStep(s1, MainStep(Good, ""), s2);
    ReachableStep(s2, MainStep(Good, ""), s3);
    ReachableStep(s3, MainStep(Good, ""), s4);
    ReachableStep(s4, MainStep(Good, ""), s5);
    ReachableStep(s5, MainStep(Good, ""), AtStart(s, job));
  }

  /** Because of that, any call can end up joining a listener nobody wakes: the acquisition fails to start, the
      shutdown goes to the unpublished descriptor, and the listener then waits for a connection for ever. */
  lemma BlindShutdownCanHang(s: State, job: Job) returns (t: State)
    requires Reachable(s) && s.main == Idle
    ensures Reachable(t) && t.job == job && Stuck(t) && t.log.blindShutdown && t.main == JoinListener(StartFailed)
  {
    WaitDoesNotWait(s, job);
    EveryCallStartsClean(s);
    hide StepPrelude, StepExpose, StepSave, StepRelease, StepFinish, StepReporter, StepListener;
    var failed := StartFails(AtStart(s, job));
    var blind := ShutsDownBlindly(failed);
    t := ListenerReachesAccept(blind);
  }

  lemma StartFails(s: State) returns (t: State)
    requires Reachable(s) && s.main == StartAcquisition
    ensures Reachable(t) && t.main == AbortAcquisition(StartFailed)
    ensures t.shared == s.shared && t.reporter == s.reporter && t.listener == s.listener
    ensures t.job == s.job && t.world == s.world
  {
    hide StepPrelude, StepSave, StepRelease, StepReporter, StepListener;
    var s1 := s.(main := SendDone(StartFailed));
    ReachableStep(s, MainStep(Bad, ""), s1);
    t := Emit(s1, Done(StartFailed, false, DoneImage(s1, StartFailed))).(main := AbortAcquisition(StartFailed));
    ReachableStep(s1, MainStep(Good, ""), t);
  }

  lemma ShutsDownBlindly(s: State) returns (t: State)
    requires Reachable(s) && s.main == AbortAcquisition(StartFailed)
    requires s.listener == ClearFlag && s.shared.fd == FD_UNSET && !s.world.socketShut && !s.world.exposing
    ensures Reachable(t) && t.main == JoinListener(StartFailed) && t.log.blindShutdown
    ensures t.shared == s.shared && t.reporter == s.reporter && t.listener == s.listener
    ensures t.job == s.job && t.world == s.world
  {
    hide StepPrelude, StepSave, StepExpose, StepFinish, StepReporter, StepListener;
    var s1 := s.(main := Shutdown(StartFailed));
    ReachableStep(s, MainStep(Good, ""), s1);
    t := s1.(main := JoinListener(StartFailed), log := s1.log.(blindShutdown := true));
    ReachableStep(s1, MainStep(Good, ""), t);
  }

  lemma ListenerReachesAccept(s: State) returns (t: State)
    requires Reachable(s) && s.listener == ClearFlag && s.shared.fdLock == Free
    ensures Reachable(t) && t.listener == Accept
    ensures t == s.(listener := Accept, shared := s.shared.(abortSet := 0, fd := 7), world := s.world.(socketFd := 7))
  {
    t := ListenerPublishes(s, 7);
  }

  lemma ListenerPublishes(s: State, fd: nat) returns (t: State)
    requires Reachable(s) && s.listener == ClearFlag && s.shared.fdLock == Free
    ensures Reachable(t)
    ensures t == s.(listener := Accept, shared := s.shared.(abortSet := 0, fd := fd), world := s.world.(socketFd := fd))
  {
    var s1 := s.(listener := LockForFd, shared := s.shared.(abortSet := 0));
    var s2 := s1.(listener := OpenSocket, shared := s1.shared.(fdLock := Listener));
    var s3 := s2.(listener := PublishFd, world := s2.world.(socketFd := fd));
    var s4 := s3.(listener := UnlockForAccept, shared := s3.shared.(fd := fd));
    t := s4.(listener := Accept, shared := s4.shared.(fdLock := Free));
    ReachableStep(s, ListenerStep(Good, 0), s1);
    ReachableStep(s1, ListenerStep(Good, 0), s2);
    ReachableStep(s2, ListenerStep(Good, fd), s3);
    ReachableStep(s3, ListenerStep(Good, 0), s4);
    ReachableStep(s4, ListenerStep(Good, 0), t);
  }

  lemma ListenerIsSpawned(s: State, job: Job) returns (t: State)
    requires Reachable(s) && s.main == Idle
    ensures Reachable(t)
    ensures t == Begin(s, job).(main := LockFd, listener := ClearFlag, shared := s.shared.(fd := FD_UNSET),
                                world := s.world.(socketShut := false))
  {
    hide StepReporter, StepListener, StepExpose, StepSave, StepRelease, StepFinish;
    var s1 := Begin(s, job);
    var s2 := s1.(main := SpawnListener, shared := s1.shared.(fd := FD_UNSET));
    t := s2.(main := LockFd, listener := ClearFlag, world := s2.world.(socketShut := false));
    ReachableStep(s, StartCall(job), s1);
    ReachableStep(s1, MainStep(Good, ""), s2);
    ReachableStep(s2, MainStep(Good, ""), t);
  }

  /** A descriptor of 0 counts as none: from any idle state there is a call whose main sleeps for ever although the
      listener has published its socket and waits for a connection. */
  lemma ZeroDescriptorHangs(s: State, job: Job) returns (t: State)
    requires Reachable(s) && s.main == Idle
    ensures Reachable(t) && t.job == job && Stuck(t) && t.main == Asleep && t.shared.fd == 0 && t.listener == Accept
  {
    EveryCallStartsClean(s);
    var spawned := ListenerIsSpawned(s, job);
    var s4 := ListenerPublishes(spawned, 0);
    hide StepReporter, StepListener, StepExpose, StepSave, StepRelease, StepFinish;
    var s5 := s4.(main := CheckFd, shared := s4.shared.(fdLock := Main));
    t := s5.(main := Asleep, shared := s5.shared.(fdLock := Free));
    ReachableStep(s4, MainStep(Good, ""), s5);
    ReachableStep(s5, MainStep(Good, ""), t);
  }

  /** A series whose acquisition has started and whose reporter has found the mutex taken once. */
  function Started(s: State, job: Job): State {
    var s0 := AtStart(s, job);
    s0.(main := NextImage, reporter := CompareImage, shared := s0.shared.(series := Main),
        local := s0.local.(shown := 1), world := s0.world.(exposing := true))
  }

  lemma SeriesStarts(s: State, job: Job)
    requires Reachable(s) && s.main == Idle && job.kind == RunTillAbort
    ensures Reachable(Started(s, job))
  {
    WaitDoesNotWait(s, job);
    EveryCallStartsClean(s);
    var s0 := AtStart(s, job);
    var s1 := s0.(main := LockSeries, world := s0.world.(exposing := true));
    var s2 := s1.(main := SpawnReporter, shared := s1.shared.(series := Main));
    var s3 := s2.(main := NextImage, reporter := Enter, local := s2.local.(shown := 1));
    var s4 := s3.(reporter := TryLock);
    ReachableStep(s0, MainStep(Good, ""), s1);
    ReachableStep(s1, MainStep(Good, ""), s2);
    ReachableStep(s2, MainStep(Good, ""), s3);
    ReachableStep(s3, ReporterStep(false), s4);
    ReachableStep(s4, ReporterStep(false), Started(s, job));
  }

  /** Whatever number an earlier series left behind, a new series can report it: the reporter may run before main
      first sets the image number. */
  lemma StaleNumberIsReported(s: State, job: Job) returns (t: State)
    requires Reachable(s) && s.main == Idle && job.kind == RunTillAbort && s.shared.imageNumber != 1
    ensures Reachable(t) && t.main == NextImage && t.job == job && t.log.imageBefore == s.shared.imageNumber
    ensures t.log.fetched == [] && t.log.messages == [ImageFinished(1), Progress(s.shared.imageNumber)]
  {
    SeriesStarts(s, job);
    var s0 := Started(s, job);
    var s1 := s0.(reporter := SendFinished);
    var s2 := Emit(s1, ImageFinished(1)).(reporter := CopyImage);
    var s3 := s2.(reporter := SendProgress, local := s2.local.(shown := s2.shared.imageNumber));
    t := Emit(s3, Progress(s3.local.shown)).(reporter := TryLock);
    ReachableStep(s0, ReporterStep(false), s1);
    ReachableStep(s1, ReporterStep(false), s2);
    ReachableStep(s2, ReporterStep(false), s3);
    ReachableStep(s3, ReporterStep(false), t);
  }

  /** No report of the call is ahead of the camera, and their numbers never go down. */
  ghost predicate FollowsCamera(t: State) {
    AllTruthful(|t.log.fetched|, t.log.messages) && Nondecreasing(Reports(t.log.messages))
  }

  /** A series follows the camera in its reports, in every interleaving, exactly when the number left in
      `cur_img_in_series` is 1. */
  lemma ReportsFollowCameraExactlyWhen(s: State, job: Job)
    requires Reachable(s) && s.main == Idle && job.kind == RunTillAbort
    ensures (forall t :: Reachable(t) && t.main != Idle && t.job == job && t.log.imageBefore == s.shared.imageNumber ==>
               FollowsCamera(t))
            <==> s.shared.imageNumber == 1
  {
    hide Reachable, Reports, Nondecreasing;
    if s.shared.imageNumber == 1 {
      forall t | Reachable(t) && t.main != Idle && t.job == job && t.log.imageBefore == s.shared.imageNumber
        ensures FollowsCamera(t)
      {
        ReportsFollowCamera(t);
      }
    } else {
      var t := StaleNumberIsReported(s, job);
      assert t.log.messages[0] in t.log.messages && !Truthful(|t.log.fetched|, t.log.messages[0]);
    }
  }

  /** A series that cannot name its file says "done" while the reporter is still talking. */
  lemma DoneBeforeProgress(s: State, job: Job) returns (t: State)
    requires Reachable(s) && s.main == Idle && job.kind == RunTillAbort && job.images >= 1
    ensures Reachable(t) && t.job == job && t.main == AbortAcquisition(SaveFailed)
    ensures |t.log.messages| > 1 && t.log.messages[0] == Done(SaveFailed, false, 0)
    ensures t.log.messages[|t.log.messages| - 1] == Progress(1)
  {
    SeriesStarts(s, job);
    EveryCallStartsClean(s);
    hide StepPrelude, StepExpose, StepSave, StepRelease, StepFinish, StepReporter, StepListener;
    var fetched := FirstImageArrives(Started(s, job));
    t := SaveFailsUnderReporter(fetched);
  }

  lemma FirstImageArrives(s: State) returns (t: State)
    requires Reachable(s) && s.main == NextImage && s.job.kind == RunTillAbort && s.local.saved == 0 < s.job.images
    requires !s.world.cancelled
    ensures Reachable(t) && t.main == SaveName && t.job == s.job && t.reporter == s.reporter
    ensures t.local == s.local && t.shared.imageNumber == 1 && t.log.messages == s.log.messages
  {
    hide StepMain, StepReporter, StepListener;
    var polling := ImageIsAwaited(s);
    t := ImageIsFetched(polling);
  }

  lemma ImageIsAwaited(s: State) returns (t: State)
    requires Reachable(s) && s.main == NextImage && s.job.kind == RunTillAbort && s.local.saved < s.job.images
    requires !s.world.cancelled
    ensures Reachable(t) && t == s.(main := PollNewImages, shared := s.shared.(imageNumber := s.local.saved + 1))
  {
    hide StepPrelude, StepSave, StepRelease, StepFinish, StepReporter, StepListener;
    var s1 := s.(main := WaitForAcquisition, shared := s.shared.(imageNumber := s.local.saved + 1));
    t := s1.(main := PollNewImages);
    ReachableStep(s, MainStep(Good, ""), s1);
    ReachableStep(s1, MainStep(Good, ""), t);
  }

  lemma ImageIsFetched(s: State) returns (t: State)
    requires Reachable(s) && s.main == PollNewImages
    ensures Reachable(t)
    ensures t == s.(main := SaveName, log := s.log.(fetched := s.log.fetched + [s.shared.imageNumber]))
  {
    hide StepPrelude, StepSave, StepRelease, StepFinish, StepReporter, StepListener;
    var s1 := s.(main := FetchImage);
    t := s1.(main := SaveName, log := s1.log.(fetched := s1.log.fetched + [s1.shared.imageNumber]));
    ReachableStep(s, MainStep(Good, ""), s1);
    ReachableStep(s1, MainStep(Good, ""), t);
  }

  lemma SaveFailsUnderReporter(s: State) returns (t: State)
    requires Reachable(s) && s.main == SaveName && s.job.kind == RunTillAbort && s.reporter == CompareImage
    requires s.local.shown == s.shared.imageNumber == 1 && s.log.messages == []
    ensures Reachable(t) && t.job == s.job && t.main == AbortAcquisition(SaveFailed)
    ensures t.log.messages == [Done(SaveFailed, false, 0), Progress(1)]
  {
    hide StepPrelude, StepExpose, StepSave, StepRelease, StepFinish, StepReporter, StepListener;
    var failed := SaveFails(s);
    t := ReporterGoesOn(failed);
  }

  lemma SaveFails(s: State) returns (t: State)
    requires Reachable(s) && s.main == SaveName && s.job.kind == RunTillAbort
    ensures Reachable(t) && t.main == AbortAcquisition(SaveFailed) && t.reporter == s.reporter && t.job == s.job
    ensures t.shared == s.shared && t.local == s.local
    ensures t.log.messages == s.log.messages + [Done(SaveFailed, false, 0)]
  {
    hide StepPrelude, StepExpose, StepRelease, StepFinish, StepReporter, StepListener, FitsFilenames.NextName,
      FitsFilenames.NoOverflow, Listing;
    var s1 := s.(main := SaveNameFailed);
    var s2 := s1.(main := SaveError, world := s1.world.(exposing := false));
    ReachableStep(s, MainStep(Bad, ""), s1);
    ReachableStep(s1, MainStep(Good, ""), s2);
    t := SaveErrorIsSent(s2);
  }

  lemma SaveErrorIsSent(s: State) returns (t: State)
    requires Reachable(s) && s.main == SaveError && s.job.kind == RunTillAbort
    ensures Reachable(t) && t == Emit(s, Done(SaveFailed, false, 0)).(main := AbortAcquisition(SaveFailed))
  {
    hide StepPrelude, StepExpose, StepRelease, StepFinish, StepReporter, StepListener, FitsFilenames.NextName,
      FitsFilenames.NoOverflow, Listing;
    t := Emit(s, Done(SaveFailed, false, 0)).(main := AbortAcquisition(SaveFailed));
    ReachableStep(s, MainStep(Good, ""), t);
  }

  lemma ReporterGoesOn(s: State) returns (t: State)
    requires Reachable(s) && s.job.kind == RunTillAbort && s.reporter == CompareImage
    requires s.local.shown == s.shared.imageNumber == 1
    ensures Reachable(t) && t.main == s.main && t.job == s.job && t.log.messages == s.log.messages + [Progress(1)]
  {
    hide StepMain, StepListener;
    var s1 := s.(reporter := SendProgress);
    t := Emit(s1, Progress(1)).(reporter := TryLock);
    ReachableStep(s, ReporterStep(false), s1);
    ReachableStep(s1, ReporterStep(false), t);
  }

  // ----- how such a call ends

  /** What a step of a call that winds down keeps of its record. */
  ghost predicate Carries(s: State, t: State) {
    && t.job == s.job && s.log.messages <= t.log.messages
    && (s.log.abortReceived ==> t.log.abortReceived)
    && (s.job.kind == RunTillAbort && HasCause(s.main) && t.main != Idle ==> Exits(t.main, s.main.cause))
  }

  lemma WindingCarries(s: State, e: Event, t: State)
    requires WindingDown(s.main, s.job.kind) && Step(s, e, t)
    ensures Carries(s, t)
  {
    hide StepPrelude, StepExpose, StepSave, StepReporter, StepListener;
    match e {
      case StartCall(_) =>
      case MainStep(answer, text) =>
        if InSave(s.main) {
          SaveSays(s, answer, text, t);
          SaveStaysInPlace(s, answer, text, t);
        }
      case ReporterStep(spurious) => ReporterTouches(s, spurious, t);
      case ListenerStep(answer, newFd) => ListenerTouches(s, answer, newFd, t);
    }
  }

  lemma {:induction false} RunCarries(states: seq<State>, events: seq<Event>, n: nat)
    requires IsWindingDown(states, events) && n <= |events|
    requires forall i :: 0 < i <= n ==> states[i].main != Idle
    requires states[0].job.kind == RunTillAbort && HasCause(states[0].main)
    ensures Carries(states[0], states[n]) && Exits(states[n].main, states[0].main.cause)
  {
    hide Step, WindingDown, Reachable;
    if n == 0 {
      assert states[0].log.messages <= states[n].log.messages;
    } else {
      RunCarries(states, events, n - 1);
      WindingCarries(states[n - 1], events[n - 1], states[n]);
    }
  }

  lemma {:induction false} RunReaches(states: seq<State>, events: seq<Event>, n: nat)
    requires IsWindingDown(states, events) && n <= |events|
    ensures Reachable(states[n])
  {
    hide Step, WindingDown, Reachable;
    if n == 0 {
    } else {
      RunReaches(states, events, n - 1);
      ReachableStep(states[n - 1], events[n - 1], states[n]);
    }
  }

  /** A series that winds down without a stray shutdown gets to its return, with its cause, all its messages, and the
      abort it has received. */
  lemma SeriesReturns(s: State) returns (t: State)
    requires Reachable(s) && s.job.kind == RunTillAbort && HasCause(s.main)
    requires WindingDown(s.main, s.job.kind) && !s.log.blindShutdown
    ensures Reachable(t) && t.main == Return(s.main.cause) && Carries(s, t)
  {
    hide Reachable, WindingDown, Carries;
    var states, events := CallReturns(s);
    var n := |events| - 1;
    forall i | 0 < i <= n ensures states[i].main != Idle {
      NeverIdle(states[i]);
    }
    RunCarries(states, events, n);
    RunReaches(states, events, n);
    t := states[n];
    OnlyReturnGoesIdle(t, events[n], states[n + 1]);
  }

  lemma NeverIdle(s: State)
    requires WindingDown(s.main, s.job.kind)
    ensures s.main != Idle
  {
  }

  lemma OnlyReturnGoesIdle(s: State, e: Event, t: State)
    requires WindingDown(s.main, s.job.kind) && HasCause(s.main) && Step(s, e, t) && t.main == Idle
    ensures s.main == Return(s.main.cause)
  {
    hide StepPrelude, StepExpose, StepSave, StepReporter, StepListener;
    match e {
      case StartCall(_) =>
      case MainStep(answer, text) =>
      case ReporterStep(spurious) => ReporterTouches(s, spurious, t);
      case ListenerStep(answer, newFd) => ListenerTouches(s, answer, newFd, t);
    }
  }

  /** A call of a job ends with its "done", in every interleaving and whatever the environment answers, exactly when it
      is a single scan or a series without images. */
  lemma DoneIsLastExactlyWhen(s: State, job: Job)
    requires Reachable(s) && s.main == Idle
    ensures (forall t :: Reachable(t) && t.main.Return? && t.job == job ==> EndsInDone(t.log.messages))
       <==> job.kind == SingleScan || job.images < 1
  {
    hide Reachable;
    if job.kind == SingleScan || job.images < 1 {
      forall t | Reachable(t) && t.main.Return? && t.job == job ensures EndsInDone(t.log.messages) {
        ExactlyOneDone(t);
        if job.kind == RunTillAbort && t.main.cause == SaveFailed {
          SaveNeedsAnImage(t);
        }
      }
    } else {
      var t := EarlyDoneReturns(s, job);
    }
  }

  ghost predicate EndsInDone(messages: seq<Message>) {
    messages != [] && messages[|messages| - 1].Done?
  }

  lemma SaveNeedsAnImage(s: State)
    requires Reachable(s) && s.job.kind == RunTillAbort && s.main == Return(SaveFailed)
    ensures s.job.images >= 1
  {
    ReachableInv(s);
    hide Reachable, Threads, Records, Signals;
  }

  lemma EarlyDoneReturns(s: State, job: Job) returns (t: State)
    requires Reachable(s) && s.main == Idle && job.kind == RunTillAbort && job.images >= 1
    ensures Reachable(t) && t.main == Return(SaveFailed) && t.job == job && !EndsInDone(t.log.messages)
  {
    hide Reachable, StepMain, StepReporter, StepListener, Dones;
    var failed := DoneBeforeProgress(s, job);
    var released := SeriesIsReleased(failed);
    t := SeriesReturns(released);
    ExactlyOneDone(t);
    assert t.log.messages[0] == Done(SaveFailed, false, 0);
    DonesOf(t.log.messages, 0);
  }

  lemma NotBlindYet(s: State)
    requires Reachable(s) && s.job.kind == RunTillAbort
    requires s.main == NextImage || s.main == AbortAcquisition(SaveFailed)
    ensures !s.log.blindShutdown
  {
    ReachableInv(s);
    hide Reachable, Locks, Counters, Records, AbortFlag, Numbers, Orderly;
  }

  lemma SeriesIsReleased(s: State) returns (t: State)
    requires Reachable(s) && s.job.kind == RunTillAbort && s.main == AbortAcquisition(SaveFailed)
    ensures Reachable(t) && t.main == Shutdown(SaveFailed) && t.job == s.job && t.log == s.log && !t.log.blindShutdown
  {
    NotBlindYet(s);
    hide StepPrelude, StepExpose, StepSave, StepFinish, StepReporter, StepListener;
    var s1 := s.(main := UnlockSeries(SaveFailed), world := s.world.(exposing := false));
    t := s1.(main := Shutdown(SaveFailed), shared := s1.shared.(series := Free));
    ReachableStep(s, MainStep(Good, ""), s1);
    ReachableStep(s1, MainStep(Good, ""), t);
  }

  // ----- an abort that gets lost

  /** An abort that comes in while main is not waiting for the camera is lost: from any idle state in which a file name
      can be allocated, there is a series whose client aborts it and is told that it completed. */
  lemma AbortGetsLost(s: State, text: string) returns (t: State)
    requires Reachable(s) && s.main == Idle
    requires !FitsFilenames.HasSlash(text) && FitsFilenames.NoOverflow(text, Listing(s.world.files))
    ensures Reachable(t) && t.main == Return(Completed) && t.log.abortReceived && t.job == Job(RunTillAbort, 1, false)
    ensures EndsWith(t.log.messages, Done(Completed, false, 1))
    ensures !exists m :: m in t.log.messages && m.Done? && m.byUser
  {
    hide Reachable, StepMain, StepReporter, StepListener, Listing, FitsFilenames.NoOverflow, FitsFilenames.NextName;
    var job := Job(RunTillAbort, 1, false);
    EveryCallStartsClean(s);
    WaitDoesNotWait(s, job);
    var listening := ListenerReachesAccept(AtStart(s, job));
    var started := ExposureStarts(listening);
    var polling := ImageIsAwaited(started);
    var aborted := AbortComesIn(polling);
    var fetched := ImageIsFetched(aborted);
    var saved := ImageIsSaved(fetched, text);
    var done := LastImageWasSaved(saved);
    t := SeriesReturns(done);
    SuccessfulSeries(t);
    AbortIsReportedExactlyWhen(t);
  }

  lemma ExposureStarts(s: State) returns (t: State)
    requires Reachable(s) && s.main == StartAcquisition && s.job.kind == RunTillAbort && s.shared.series == Free
    ensures Reachable(t)
    ensures t == s.(main := NextImage, reporter := Enter, shared := s.shared.(series := Main),
                    local := s.local.(shown := 1), world := s.world.(exposing := true))
  {
    hide StepPrelude, StepSave, StepRelease, StepFinish, StepReporter, StepListener;
    var s1 := s.(main := LockSeries, world := s.world.(exposing := true));
    var s2 := s1.(main := SpawnReporter, shared := s1.shared.(series := Main));
    t := s2.(main := NextImage, reporter := Enter, local := s2.local.(shown := 1));
    ReachableStep(s, MainStep(Good, ""), s1);
    ReachableStep(s1, MainStep(Good, ""), s2);
    ReachableStep(s2, MainStep(Good, ""), t);
  }

  lemma AbortComesIn(s: State) returns (t: State)
    requires Reachable(s) && s.main == PollNewImages && s.listener == Accept && !s.world.socketShut
    ensures Reachable(t)
    ensures t == s.(listener := ListenerEnded, shared := s.shared.(abortSet := 1), log := s.log.(abortReceived := true))
  {
    hide StepMain, StepReporter;
    var s1 := s.(listener := Receive);
    var s2 := s1.(listener := SetFlag, log := s1.log.(abortReceived := true));
    var s3 := s2.(listener := CancelWait, shared := s2.shared.(abortSet := 1));
    t := s3.(listener := ListenerEnded);
    ReachableStep(s, ListenerStep(Good, 0), s1);
    ReachableStep(s1, ListenerStep(Good, 0), s2);
    ReachableStep(s2, ListenerStep(Good, 0), s3);
    ReachableStep(s3, ListenerStep(Good, 0), t);
  }

  lemma ImageIsSaved(s: State, text: string) returns (t: State)
    requires Reachable(s) && s.main == SaveName && s.job.kind == RunTillAbort
    requires !FitsFilenames.HasSlash(text) && FitsFilenames.NoOverflow(text, Listing(s.world.files))
    ensures Reachable(t) && t.main == NextImage && t.job == s.job && t.local.saved == s.local.saved + 1
    ensures t.shared == s.shared && t.listener == s.listener && t.log.abortReceived == s.log.abortReceived
  {
    hide StepPrelude, StepExpose, StepRelease, StepFinish, StepReporter, StepListener, Listing, Reachable,
      FitsFilenames.NoOverflow, FitsFilenames.NextName;
    var name := FitsFilenames.NextName(text, Listing(s.world.files));
    var s1 := s.(main := SaveWrite, local := s.local.(name := name));
    ReachableStep(s, MainStep(Good, text), s1);
    NameIsFree(text, s.world.files);
    var s2 := s1.(main := SaveReport, world := s1.world.(files := s1.world.files + [name]),
                  log := s1.log.(written := s1.log.written + [name]));
    ReachableStep(s1, MainStep(Good, text), s2);
    t := Emit(s2, FileCreated(name)).(main := NextImage, local := s2.local.(saved := s2.local.saved + 1));
    ReachableStep(s2, MainStep(Good, text), t);
  }

  lemma NameIsFree(text: string, files: seq<string>)
    requires !FitsFilenames.HasSlash(text) && FitsFilenames.NoOverflow(text, Listing(files))
    ensures FitsFilenames.NextName(text, Listing(files)) !in files
  {
    FitsFilenames.NextNameIsFresh(text, Listing(files));
    FitsFilenames.NameHasSlashIffPrefixHas(text, FitsFilenames.NextIndex(text, Listing(files)));
  }

  lemma LastImageWasSaved(s: State) returns (t: State)
    requires Reachable(s) && s.main == NextImage && s.job.kind == RunTillAbort && s.local.saved >= s.job.images
    ensures Reachable(t) && t.main == Shutdown(Completed) && t.job == s.job
    ensures t.log.abortReceived == s.log.abortReceived && !t.log.blindShutdown
  {
    NotBlindYet(s);
    hide StepPrelude, StepSave, StepFinish, StepReporter, StepListener;
    var s1 := s.(main := UnlockSeries(Completed));
    t := s1.(main := Shutdown(Completed), shared := s1.shared.(series := Free));
    ReachableStep(s, MainStep(Good, ""), s1);
    ReachableStep(s1, MainStep(Good, ""), t);
  }
}
