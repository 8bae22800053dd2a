/** The invariant of the acquisition protocol is inductive: one lemma for each of its parts and each group of steps. */
module AcquisitionPreservation {
  import opened Acquisition
  import opened AcquisitionInvariant
  import FitsFilenames

  lemma InitialInv(s: State)
    requires Initial(s)
    ensures Inv(s)
  {
  }

  // ----- each part is kept by each step

  lemma BeginKeepsInv(s: State, job: Job)
    requires Inv(s) && s.main == Idle
    ensures Inv(Begin(s, job))
  {
  }

  lemma PreludeKeepsThreads(s: State, t: State)
    requires Threads(s) && StepPrelude(s, t)
    ensures Threads(t)
  {
  }

  lemma PreludeKeepsCounters(s: State, t: State)
    requires Threads(s) && Counters(s) && StepPrelude(s, t)
    ensures Counters(t)
  {
    hide Locks, Lifetimes;
  }

  lemma PreludeKeepsRecords(s: State, t: State)
    requires Threads(s) && Counters(s) && Records(s) && StepPrelude(s, t)
    ensures Records(t)
  {
    hide Locks, Lifetimes, OneTo, NewFiles, Created, Dones;
  }

  lemma PreludeKeepsAbortFlag(s: State, t: State)
    requires Threads(s) && AbortFlag(s) && StepPrelude(s, t)
    ensures AbortFlag(t)
  {
  }

  lemma PreludeKeepsDescriptor(s: State, t: State)
    requires Threads(s) && Descriptor(s) && StepPrelude(s, t)
    ensures Descriptor(t)
  {
  }

  /** What a step of the reporter can change. */
  lemma ReporterTouches(s: State, spurious: bool, t: State)
    requires StepReporter(s, spurious, t)
    ensures s.reporter != NoReporter && t.reporter != NoReporter
    ensures t.log.messages == if s.reporter == SendFinished then s.log.messages + [ImageFinished(s.local.shown)]
                              else if s.reporter == SendProgress then s.log.messages + [Progress(s.local.shown)]
                              else s.log.messages
    ensures t.local.shown == if s.reporter == CopyImage then s.shared.imageNumber else s.local.shown
    ensures t.reporter == SendFinished ==> s.reporter == CompareImage && s.local.shown != s.shared.imageNumber
    ensures s.reporter == CopyImage ==> t.reporter == SendProgress
    ensures t == s.(reporter := t.reporter, shared := s.shared.(series := t.shared.series),
                    local := s.local.(shown := t.local.shown), log := s.log.(messages := t.log.messages))
  {
  }

  lemma ReporterKeepsThreads(s: State, spurious: bool, t: State)
    requires Threads(s) && StepReporter(s, spurious, t)
    ensures Threads(t)
  {
  }

  /** While the reporter runs, only a series that failed to save has sent its "done". */
  lemma DoneMeansReporterGone(s: State)
    requires Threads(s) && s.reporter != NoReporter && DoneSent(s.main)
    ensures s.job.kind == RunTillAbort && s.main.cause == SaveFailed
  {
  }

  lemma ReporterKeepsMessages(s: State, spurious: bool, t: State)
    requires Threads(s) && Messages(s) && StepReporter(s, spurious, t)
    ensures Messages(t)
  {
    ReporterTouches(s, spurious, t);
    if DoneSent(s.main) {
      DoneMeansReporterGone(s);
    }
    AfterEmit(s.log.messages, ImageFinished(s.local.shown));
    AfterEmit(s.log.messages, Progress(s.local.shown));
    hide StepReporter, Threads, DoneSent, Dones, DoneImage;
  }

  lemma ReporterKeepsCounters(s: State, spurious: bool, t: State)
    requires Counters(s) && StepReporter(s, spurious, t)
    ensures Counters(t)
  {
    ReporterTouches(s, spurious, t);
    hide StepReporter, BeforeLoop, OnImage, InSave, Exits;
  }

  lemma ReporterKeepsAnnounced(s: State, spurious: bool, t: State)
    requires Announced(s) && StepReporter(s, spurious, t)
    ensures Announced(t)
  {
    ReporterTouches(s, spurious, t);
    AfterEmit(s.log.messages, ImageFinished(s.local.shown));
    AfterEmit(s.log.messages, Progress(s.local.shown));
    hide StepReporter, Created, Dones, OneTo;
  }

  lemma ReporterKeepsFiles(s: State, spurious: bool, t: State)
    requires Files(s) && StepReporter(s, spurious, t)
    ensures Files(t)
  {
    ReporterTouches(s, spurious, t);
    hide StepReporter, NewFiles;
  }

  lemma ReporterKeepsAbortFlag(s: State, spurious: bool, t: State)
    requires Threads(s) && AbortFlag(s) && StepReporter(s, spurious, t)
    ensures AbortFlag(t)
  {
    ReporterTouches(s, spurious, t);
    hide StepReporter, PlaceExists, MayExpose;
  }

  lemma ReporterKeepsDescriptor(s: State, spurious: bool, t: State)
    requires Threads(s) && Descriptor(s) && StepReporter(s, spurious, t)
    ensures Descriptor(t)
  {
    ReporterTouches(s, spurious, t);
    hide StepReporter, Threads;
  }

  /** What a step of the listener can change, and when it changes the flag. */
  lemma ListenerTouches(s: State, answer: Answer, newFd: int, t: State)
    requires StepListener(s, answer, newFd, t)
    ensures s.listener != NoListener && s.listener != ListenerEnded && t.listener != NoListener
    ensures t.main == s.main && t.job == s.job && t.reporter == s.reporter && t.local == s.local
    ensures t.shared.imageNumber == s.shared.imageNumber && t.world.files == s.world.files
    ensures t.log == s.log.(abortReceived := s.log.abortReceived || t.listener == SetFlag)
    ensures t.listener != ClearFlag
    ensures t.listener == SetFlag ==> s.listener == Receive
    ensures t.listener == CancelWait <==> s.listener == SetFlag
    ensures t.shared.abortSet
         == if s.listener == ClearFlag then 0 else if s.listener == SetFlag then 1 else s.shared.abortSet
    ensures t.world.cancelled
         == (s.world.cancelled || (s.listener == CancelWait && answer == Good && s.main == WaitForAcquisition))
    ensures s.listener == CancelWait ==> t.listener == ListenerEnded
  {
  }

  lemma ListenerKeepsThreads(s: State, answer: Answer, newFd: int, t: State)
    requires Threads(s) && StepListener(s, answer, newFd, t)
    ensures Threads(t)
  {
  }

  lemma ListenerKeepsCounters(s: State, answer: Answer, newFd: int, t: State)
    requires Threads(s) && Counters(s) && StepListener(s, answer, newFd, t)
    ensures Counters(t)
  {
    ListenerTouches(s, answer, newFd, t);
    hide StepListener, Threads, BeforeLoop, OnImage, InSave, Exits;
  }

  lemma ListenerKeepsMessages(s: State, answer: Answer, newFd: int, t: State)
    requires Messages(s) && StepListener(s, answer, newFd, t)
    ensures Messages(t)
  {
    ListenerTouches(s, answer, newFd, t);
    hide StepListener, DoneSent, Dones, EndsWithDone;
  }

  lemma ListenerKeepsAnnounced(s: State, answer: Answer, newFd: int, t: State)
    requires Announced(s) && StepListener(s, answer, newFd, t)
    ensures Announced(t)
  {
    ListenerTouches(s, answer, newFd, t);
    hide StepListener, OneTo, Created;
  }

  lemma ListenerKeepsFiles(s: State, answer: Answer, newFd: int, t: State)
    requires Files(s) && StepListener(s, answer, newFd, t)
    ensures Files(t)
  {
    ListenerTouches(s, answer, newFd, t);
    hide StepListener, NewFiles;
  }

  lemma ListenerKeepsAbortFlag(s: State, answer: Answer, newFd: int, t: State)
    requires Threads(s) && AbortFlag(s) && StepListener(s, answer, newFd, t)
    ensures AbortFlag(t)
  {
    ListenerTouches(s, answer, newFd, t);
    hide StepListener, PlaceExists, MayExpose;
  }

  lemma ListenerKeepsDescriptor(s: State, answer: Answer, newFd: int, t: State)
    requires Threads(s) && Descriptor(s) && StepListener(s, answer, newFd, t)
    ensures Descriptor(t)
  {
  }

  /** Where a step of the exposures leads, and what it leaves alone. */
  lemma ExposureTouches(s: State, answer: Answer, t: State)
    requires StepExpose(s, answer, t)
    ensures InExposure(s.main) && t.listener == s.listener && t.shared.fd == s.shared.fd
    ensures t.world.socketFd == s.world.socketFd && t.world.socketShut == s.world.socketShut
    ensures t.log.blindShutdown == s.log.blindShutdown && t.log.abortReceived == s.log.abortReceived
    ensures t.shared.abortSet == s.shared.abortSet
    ensures if s.main == WaitForAcquisition && t.main == AbortAcquisition(WaitFailed)
            then !t.world.cancelled && t.log.cancelEndedWait == s.world.cancelled
            else t.world.cancelled == s.world.cancelled && t.log.cancelEndedWait == s.log.cancelEndedWait
                 && (s.world.cancelled ==> s.main != WaitForAcquisition)
    ensures || InExposure(t.main) || t.main == SaveName || t.main == UnlockSeries(Completed)
            || t.main == SendDone(StartFailed) || t.main.AbortAcquisition?
  {
  }

  /** What a step of the exposures does to the numbers. */
  lemma ExposureCounts(s: State, answer: Answer, t: State)
    requires StepExpose(s, answer, t)
    ensures t.job == s.job && t.log.messages == s.log.messages && t.log.imageBefore == s.log.imageBefore
    ensures |t.log.fetched| >= |s.log.fetched| && (BeforeLoop(t.main) ==> BeforeLoop(s.main))
    ensures if s.main == SpawnReporter then t.local.shown == 1 && t.reporter == Enter
            else t.local.shown == s.local.shown && t.reporter == s.reporter
    ensures || t.shared.imageNumber == s.shared.imageNumber
            || (s.main == NextImage && t.shared.imageNumber == s.local.saved + 1 <= s.job.images)
  {
  }

  lemma ExposureKeepsLocks(s: State, answer: Answer, t: State)
    requires Locks(s) && Lifetimes(s) && StepExpose(s, answer, t)
    ensures Locks(t)
  {
    ExposureTouches(s, answer, t);
    hide StepExpose, Locks, Lifetimes;
    if s.main == StartAcquisition || s.main == LockSeries || s.main == SpawnReporter {
      StartKeepsLocks(s, answer, t);
    } else {
      LoopKeepsLocks(s, answer, t);
    }
  }

  lemma StartKeepsLocks(s: State, answer: Answer, t: State)
    requires s.main == StartAcquisition || s.main == LockSeries || s.main == SpawnReporter
    requires Locks(s) && Lifetimes(s) && StepExpose(s, answer, t)
    ensures Locks(t)
  {
  }

  lemma LoopKeepsLocks(s: State, answer: Answer, t: State)
    requires s.main == NextImage || s.main == WaitForAcquisition || s.main == PollNewImages || s.main == FetchImage
    requires Locks(s) && StepExpose(s, answer, t)
    ensures Locks(t)
  {
  }

  lemma ExposureKeepsLifetimes(s: State, answer: Answer, t: State)
    requires Locks(s) && Lifetimes(s) && StepExpose(s, answer, t)
    ensures Lifetimes(t)
  {
    ExposureTouches(s, answer, t);
    assert PlaceExists(s.main, s.job.kind);
    hide StepExpose, Locks, Lifetimes, PlaceExists;
    if s.main == StartAcquisition || s.main == LockSeries || s.main == SpawnReporter {
      StartKeepsLifetimes(s, answer, t);
    } else {
      LoopKeepsLifetimes(s, answer, t);
    }
  }

  lemma StartKeepsLifetimes(s: State, answer: Answer, t: State)
    requires s.main == StartAcquisition || s.main == LockSeries || s.main == SpawnReporter
    requires Lifetimes(s) && StepExpose(s, answer, t)
    ensures Lifetimes(t)
  {
  }

  lemma LoopKeepsLifetimes(s: State, answer: Answer, t: State)
    requires s.main == NextImage || s.main == WaitForAcquisition || s.main == PollNewImages || s.main == FetchImage
    requires PlaceExists(s.main, s.job.kind) && Lifetimes(s) && StepExpose(s, answer, t)
    ensures Lifetimes(t)
  {
  }

  lemma ExposureKeepsMessages(s: State, answer: Answer, t: State)
    requires Locks(s) && Lifetimes(s) && Messages(s) && StepExpose(s, answer, t)
    ensures Messages(t)
  {
  }

  lemma ExposureKeepsCounters(s: State, answer: Answer, t: State)
    requires Locks(s) && Counters(s) && StepExpose(s, answer, t)
    ensures Counters(t)
  {
    ExposureTouches(s, answer, t);
    hide HoldsSeries, HoldsFdLock;
    if s.main == NextImage {
      NextImageKeepsCounters(s, answer, t);
    } else if s.main == WaitForAcquisition {
      WaitKeepsCounters(s, answer, t);
    } else if s.main == PollNewImages || s.main == FetchImage {
      FetchKeepsCounters(s, answer, t);
    }
  }

  lemma NextImageKeepsCounters(s: State, answer: Answer, t: State)
    requires s.job.kind == RunTillAbort && s.main == NextImage && Counters(s) && StepExpose(s, answer, t)
    ensures Counters(t)
  {
  }

  lemma WaitKeepsCounters(s: State, answer: Answer, t: State)
    requires s.main == WaitForAcquisition && Counters(s) && StepExpose(s, answer, t)
    ensures Counters(t)
  {
  }

  lemma FetchKeepsCounters(s: State, answer: Answer, t: State)
    requires s.job.kind == RunTillAbort && (s.main == PollNewImages || s.main == FetchImage)
    requires Counters(s) && StepExpose(s, answer, t)
    ensures Counters(t)
  {
  }

  lemma ExposureKeepsAnnounced(s: State, answer: Answer, t: State)
    requires Locks(s) && Counters(s) && Announced(s) && Files(s) && StepExpose(s, answer, t)
    ensures Announced(t)
  {
  }

  lemma ExposureKeepsFiles(s: State, answer: Answer, t: State)
    requires Locks(s) && Files(s) && StepExpose(s, answer, t)
    ensures Files(t)
  {
    hide NewFiles, Locks;
  }

  lemma ExposureKeepsAbortFlag(s: State, answer: Answer, t: State)
    requires Threads(s) && AbortFlag(s) && StepExpose(s, answer, t)
    ensures AbortFlag(t)
  {
    ExposureTouches(s, answer, t);
    hide StepExpose, Locks;
  }

  lemma ExposureKeepsDescriptor(s: State, answer: Answer, t: State)
    requires Threads(s) && Descriptor(s) && StepExpose(s, answer, t)
    ensures Descriptor(t)
  {
    ExposureTouches(s, answer, t);
    hide StepExpose, Threads;
  }

  /** Where a step of `save_as_fits` leads: it touches no lock and no other thread. */
  lemma SaveStaysInPlace(s: State, answer: Answer, text: string, t: State)
    requires StepSave(s, answer, text, t)
    ensures InSave(s.main) && t.job == s.job && t.shared == s.shared && t.reporter == s.reporter
    ensures t.listener == s.listener && (t.world.exposing ==> s.world.exposing)
    ensures t.world.cancelled == s.world.cancelled && t.log.abortReceived == s.log.abortReceived
    ensures t.log.cancelEndedWait == s.log.cancelEndedWait && t.log.blindShutdown == s.log.blindShutdown
    ensures t.world.socketFd == s.world.socketFd && t.world.socketShut == s.world.socketShut
    ensures || InSave(t.main)
            || (s.job.kind == RunTillAbort && (t.main == NextImage || t.main == AbortAcquisition(SaveFailed)))
            || (s.job.kind == SingleScan && (t.main == SendDone(Completed) || t.main == Return(SaveFailed)))
  {
    hide Listing, FitsFilenames.NextName, FitsFilenames.NoOverflow, DoneImage;
  }

  /** Where main holds the mutex, and which threads exist, around `save_as_fits`. */
  lemma SaveRegions(pc: MainPc, kind: Kind)
    requires || InSave(pc)
             || (kind == RunTillAbort && (pc == NextImage || pc == AbortAcquisition(SaveFailed)))
             || (kind == SingleScan && (pc == SendDone(Completed) || pc == Return(SaveFailed)))
    ensures PlaceExists(pc, kind) && !InPrelude(pc) && !AfterShut(pc)
    ensures HoldsSeries(pc, kind) == ReporterAlive(pc, kind) == ListenerAlive(pc, kind) == (kind == RunTillAbort)
    ensures MayExpose(pc, kind) == (kind == RunTillAbort)
    ensures DoneSent(pc) == (pc == AbortAcquisition(SaveFailed) || pc == Return(SaveFailed))
    ensures !BeforeLoop(pc) && OnImage(pc) == (pc != NextImage && pc != SendDone(Completed))
    ensures pc == SendDone(Completed) || !Exits(pc, Completed)
    ensures Exits(pc, SaveFailed) == (pc == AbortAcquisition(SaveFailed) || pc == Return(SaveFailed))
  {
  }

  lemma SaveKeepsLocks(s: State, answer: Answer, text: string, t: State)
    requires Locks(s) && Lifetimes(s) && StepSave(s, answer, text, t)
    ensures Locks(t)
  {
    SaveStaysInPlace(s, answer, text, t);
    SaveRegions(s.main, s.job.kind);
    SaveRegions(t.main, s.job.kind);
    hide StepSave, Lifetimes, HoldsSeries, PlaceExists, HoldsFdLock;
  }

  lemma SaveKeepsLifetimes(s: State, answer: Answer, text: string, t: State)
    requires Locks(s) && Lifetimes(s) && StepSave(s, answer, text, t)
    ensures Lifetimes(t)
  {
    SaveStaysInPlace(s, answer, text, t);
    SaveRegions(s.main, s.job.kind);
    SaveRegions(t.main, s.job.kind);
    hide StepSave, Locks, HoldsSeries, ReporterAlive, ListenerAlive, MayExpose;
  }

  lemma SaveSays(s: State, answer: Answer, text: string, t: State)
    requires StepSave(s, answer, text, t)
    ensures t.log.messages
         == if s.main == SaveReport then s.log.messages + [FileCreated(s.local.name)]
            else if s.main == SaveError then s.log.messages + [Done(SaveFailed, false, DoneImage(s, SaveFailed))]
            else s.log.messages
    ensures s.main != SaveError ==> InSave(t.main) || t.main == NextImage || t.main == SendDone(Completed)
    ensures s.main == SaveError ==>
              t.main == if s.job.kind == RunTillAbort then AbortAcquisition(SaveFailed) else Return(SaveFailed)
  {
    hide Listing, FitsFilenames.NextName, FitsFilenames.NoOverflow;
  }

  lemma SaveKeepsMessages(s: State, answer: Answer, text: string, t: State)
    requires Locks(s) && Lifetimes(s) && Messages(s) && StepSave(s, answer, text, t)
    ensures Messages(t)
  {
    SaveStaysInPlace(s, answer, text, t);
    SaveSays(s, answer, text, t);
    SaveRegions(s.main, s.job.kind);
    SaveRegions(t.main, s.job.kind);
    AfterEmit(s.log.messages, FileCreated(s.local.name));
    AfterEmit(s.log.messages, Done(SaveFailed, false, DoneImage(s, SaveFailed)));
    hide StepSave, Dones, Locks, Lifetimes, DoneSent;
  }

  lemma SaveCounts(s: State, answer: Answer, text: string, t: State)
    requires StepSave(s, answer, text, t)
    ensures t.log.fetched == s.log.fetched
    ensures |t.log.written| == |s.log.written| + if s.main == SaveWrite && t.main == SaveReport then 1 else 0
    ensures t.local.saved == s.local.saved + if s.main == SaveReport then 1 else 0
    ensures s.main == SaveReport ==> t.main == if s.job.kind == RunTillAbort then NextImage else SendDone(Completed)
    ensures s.main != SaveReport ==> t.main != NextImage && t.main != SendDone(Completed)
    ensures t.main == SaveReport ==> s.main == SaveWrite
  {
    hide Listing, FitsFilenames.NextName, FitsFilenames.NoOverflow, DoneImage;
  }

  lemma SaveKeepsCounters(s: State, answer: Answer, text: string, t: State)
    requires Locks(s) && Counters(s) && StepSave(s, answer, text, t)
    ensures Counters(t)
  {
    SaveStaysInPlace(s, answer, text, t);
    SaveCounts(s, answer, text, t);
    SaveRegions(s.main, s.job.kind);
    SaveRegions(t.main, s.job.kind);
    hide StepSave, Locks, BeforeLoop, OnImage, Exits;
  }

  lemma OneMoreAnnounced(written: seq<string>, n: nat)
    requires |written| == n + 1
    ensures written[..n + 1] == written[..n] + [written[n]]
  {
  }

  lemma SameAnnounced(written: seq<string>, more: seq<string>, n: nat)
    requires n <= |written| && written <= more
    ensures more[..n] == written[..n]
  {
  }

  lemma SaveWrites(s: State, answer: Answer, text: string, t: State)
    requires StepSave(s, answer, text, t)
    ensures s.log.written <= t.log.written && InSave(s.main)
    ensures s.main == SaveReport ==> t.log.written == s.log.written
  {
    hide Listing, FitsFilenames.NextName, FitsFilenames.NoOverflow, DoneImage;
  }

  lemma SaveKeepsAnnounced(s: State, answer: Answer, text: string, t: State)
    requires Locks(s) && Counters(s) && Announced(s) && Files(s) && StepSave(s, answer, text, t)
    ensures Announced(t)
  {
    SaveCounts(s, answer, text, t);
    SaveSays(s, answer, text, t);
    SaveWrites(s, answer, text, t);
    if s.main == SaveReport {
      AfterEmit(s.log.messages, FileCreated(s.local.name));
      assert |s.log.written| == s.local.saved + 1;
      OneMoreAnnounced(s.log.written, s.local.saved);
    } else {
      AfterEmit(s.log.messages, Done(SaveFailed, false, DoneImage(s, SaveFailed)));
      SameAnnounced(s.log.written, t.log.written, s.local.saved);
    }
    hide StepSave, Locks, Counters, NewFiles, Created, Dones, OneTo;
  }

  lemma SaveKeepsFiles(s: State, answer: Answer, text: string, t: State)
    requires Locks(s) && Files(s) && StepSave(s, answer, text, t)
    ensures Files(t)
  {
    hide Listing, FitsFilenames.NextName, FitsFilenames.NoOverflow, FitsFilenames.Matches;
    if s.main == SaveName && answer == Good {
      FitsFilenames.NextNameIsFresh(text, Listing(s.world.files));
    }
  }

  lemma SaveKeepsAbortFlag(s: State, answer: Answer, text: string, t: State)
    requires Threads(s) && AbortFlag(s) && StepSave(s, answer, text, t)
    ensures AbortFlag(t)
  {
    SaveStaysInPlace(s, answer, text, t);
    hide StepSave, PlaceExists, MayExpose, ReporterAlive, HoldsSeries;
  }

  lemma SaveKeepsDescriptor(s: State, answer: Answer, text: string, t: State)
    requires Threads(s) && Descriptor(s) && StepSave(s, answer, text, t)
    ensures Descriptor(t)
  {
    SaveStaysInPlace(s, answer, text, t);
    SaveRegions(s.main, s.job.kind);
    SaveRegions(t.main, s.job.kind);
    hide StepSave, Threads, BeforePublish, Published, AfterShut;
  }

  /** Where a step of the first half of an exit leads, and what it leaves alone. */
  lemma ReleaseTouches(s: State, answer: Answer, t: State)
    requires StepRelease(s, answer, t)
    ensures InRelease(s.main) && t.job == s.job && t.reporter == s.reporter && t.listener == s.listener
    ensures t.local == s.local && t.world.files == s.world.files && t.world.cancelled == s.world.cancelled
    ensures t.log == s.log.(blindShutdown := t.log.blindShutdown)
    ensures t.shared == s.shared.(series := if s.main.UnlockSeries? then Free else s.shared.series)
    ensures t.world.exposing ==> s.world.exposing && !s.main.AbortAcquisition?
    ensures t.main == if s.main.AbortAcquisition? then AfterAbort(s.job.kind, s.main.cause)
                      else if s.main.UnlockSeries? then Shutdown(s.main.cause)
                      else if s.main.Shutdown? then AfterShutdown(s.job.kind, s.main.cause)
                      else JoinReporter(if answer == Good then Completed else FetchFailed)
  {
  }

  lemma ReleaseKeepsLocks(s: State, answer: Answer, t: State)
    requires Locks(s) && Lifetimes(s) && StepRelease(s, answer, t)
    ensures Locks(t)
  {
    ReleaseTouches(s, answer, t);
    hide StepRelease, Lifetimes;
  }

  lemma ReleaseKeepsLifetimes(s: State, answer: Answer, t: State)
    requires Locks(s) && Lifetimes(s) && StepRelease(s, answer, t)
    ensures Lifetimes(t)
  {
    ReleaseTouches(s, answer, t);
    hide StepRelease, HoldsFdLock;
  }

  lemma ReleaseKeepsMessages(s: State, answer: Answer, t: State)
    requires Locks(s) && Lifetimes(s) && Messages(s) && StepRelease(s, answer, t)
    ensures Messages(t)
  {
    ReleaseTouches(s, answer, t);
    hide StepRelease, Lifetimes, HoldsFdLock, Dones;
  }

  lemma ReleaseKeepsCounters(s: State, answer: Answer, t: State)
    requires Locks(s) && Counters(s) && StepRelease(s, answer, t)
    ensures Counters(t)
  {
    ReleaseTouches(s, answer, t);
    hide StepRelease, HoldsSeries, HoldsFdLock;
  }

  lemma ReleaseKeepsAnnounced(s: State, answer: Answer, t: State)
    requires Locks(s) && Counters(s) && Announced(s) && Files(s) && StepRelease(s, answer, t)
    ensures Announced(t)
  {
  }

  lemma ReleaseKeepsFiles(s: State, answer: Answer, t: State)
    requires Locks(s) && Files(s) && StepRelease(s, answer, t)
    ensures Files(t)
  {
    hide NewFiles, Locks;
  }

  lemma ReleaseKeepsAbortFlag(s: State, answer: Answer, t: State)
    requires Threads(s) && AbortFlag(s) && StepRelease(s, answer, t)
    ensures AbortFlag(t)
  {
  }

  lemma ReleaseKeepsDescriptor(s: State, answer: Answer, t: State)
    requires Threads(s) && Descriptor(s) && StepRelease(s, answer, t)
    ensures Descriptor(t)
  {
  }

  /** Where a step of the second half of an exit leads, and what it leaves alone. */
  lemma FinishTouches(s: State, t: State)
    requires StepFinish(s, t)
    ensures t.job == s.job && t.shared == s.shared && t.local == s.local && t.world == s.world
    ensures t.log == s.log.(messages := t.log.messages)
    ensures s.main.JoinReporter? || s.main.JoinListener? || s.main.SendDataAcquired? || s.main.SendDone?
         || s.main.Return?
    ensures t.main == if s.main.JoinReporter? then JoinListener(s.main.cause)
                      else if s.main.JoinListener? then AfterJoins(s.job.kind, s.main.cause)
                      else if s.main.SendDataAcquired? then SaveName
                      else if s.main.SendDone? then AfterDone(s.job.kind, s.main.cause)
                      else Idle
    ensures s.main.JoinReporter? ==> s.reporter == ReporterEnded
    ensures s.main.JoinListener? ==> s.listener == ListenerEnded
    ensures t.reporter == if s.main.JoinReporter? then NoReporter else s.reporter
    ensures t.listener == if s.main.JoinListener? then NoListener else s.listener
  {
  }

  lemma FinishKeepsLocks(s: State, t: State)
    requires Locks(s) && Lifetimes(s) && StepFinish(s, t)
    ensures Locks(t)
  {
    FinishTouches(s, t);
    hide StepFinish, Lifetimes;
  }

  lemma FinishKeepsLifetimes(s: State, t: State)
    requires Locks(s) && Lifetimes(s) && StepFinish(s, t)
    ensures Lifetimes(t)
  {
    FinishTouches(s, t);
    hide StepFinish, HoldsFdLock;
  }

  lemma FinishKeepsMessages(s: State, t: State)
    requires Locks(s) && Lifetimes(s) && Messages(s) && StepFinish(s, t)
    ensures Messages(t)
  {
    hide Created, Dones;
    if s.main.SendDataAcquired? {
      AfterEmit(s.log.messages, DataAcquired);
    } else if s.main.SendDone? {
      var c := s.main.cause;
      AfterEmit(s.log.messages, Done(c, c == WaitFailed && s.shared.abortSet != 0, DoneImage(s, c)));
    }
  }

  lemma FinishKeepsCounters(s: State, t: State)
    requires Locks(s) && Counters(s) && StepFinish(s, t)
    ensures Counters(t)
  {
    FinishTouches(s, t);
    hide StepFinish, HoldsSeries, HoldsFdLock;
  }

  lemma FinishKeepsAnnounced(s: State, t: State)
    requires Locks(s) && Counters(s) && Announced(s) && Files(s) && StepFinish(s, t)
    ensures Announced(t)
  {
    hide Created, Dones;
    if s.main.SendDataAcquired? {
      AfterEmit(s.log.messages, DataAcquired);
    } else if s.main.SendDone? {
      var c := s.main.cause;
      AfterEmit(s.log.messages, Done(c, c == WaitFailed && s.shared.abortSet != 0, DoneImage(s, c)));
    }
  }

  lemma FinishKeepsFiles(s: State, t: State)
    requires Locks(s) && Files(s) && StepFinish(s, t)
    ensures Files(t)
  {
    hide NewFiles, Locks;
  }

  lemma FinishKeepsAbortFlag(s: State, t: State)
    requires Threads(s) && AbortFlag(s) && StepFinish(s, t)
    ensures AbortFlag(t)
  {
    FinishTouches(s, t);
    hide HoldsFdLock, MayExpose;
  }

  lemma FinishKeepsDescriptor(s: State, t: State)
    requires Threads(s) && Descriptor(s) && StepFinish(s, t)
    ensures Descriptor(t)
  {
    FinishTouches(s, t);
    hide StepFinish, HoldsFdLock;
  }

  /** A step that fetches nothing, reports no image, and leaves the numbers alone. */
  ghost predicate Quiet(s: State, t: State) {
    && t.job == s.job && t.shared.imageNumber == s.shared.imageNumber && t.local.shown == s.local.shown
    && t.log.fetched == s.log.fetched && t.log.imageBefore == s.log.imageBefore
    && (t.reporter == s.reporter || t.reporter == NoReporter)
    && (BeforeLoop(t.main) ==> BeforeLoop(s.main)) && s.main != Idle
    && SaysNothing(s.log.messages, t.log.messages)
  }

  ghost predicate SaysNothing(messages: seq<Message>, more: seq<Message>) {
    more == messages || exists m :: !IsReport(m) && more == messages + [m]
  }

  lemma SaysNothingKeeps(messages: seq<Message>, more: seq<Message>)
    requires SaysNothing(messages, more)
    ensures Reports(more) == Reports(messages)
    ensures forall m :: m in more && IsReport(m) ==> m in messages
  {
    hide Reports;
    if m :| !IsReport(m) && more == messages + [m] {
      AfterReport(messages, m);
    }
  }

  lemma QuietKeepsNumbers(s: State, t: State)
    requires Quiet(s, t) && Numbers(s) && Orderly(s)
    ensures Numbers(t) && Orderly(t)
  {
    hide BeforeLoop, Reports, SaysNothing, Nondecreasing, AllAtMost, InScope;
    SaysNothingKeeps(s.log.messages, t.log.messages);
  }

  lemma PreludeIsQuiet(s: State, t: State)
    requires StepPrelude(s, t)
    ensures Quiet(s, t)
  {
  }

  lemma ListenerIsQuiet(s: State, answer: Answer, newFd: int, t: State)
    requires s.main != Idle && StepListener(s, answer, newFd, t)
    ensures Quiet(s, t)
  {
    ListenerTouches(s, answer, newFd, t);
    hide StepListener, BeforeLoop;
  }

  lemma SaveIsQuiet(s: State, answer: Answer, text: string, t: State)
    requires StepSave(s, answer, text, t)
    ensures Quiet(s, t)
  {
    hide Listing, FitsFilenames.NextName, FitsFilenames.NoOverflow, DoneImage;
    if s.main.SaveReport? {
      assert !IsReport(FileCreated(s.local.name));
    } else if s.main.SaveError? {
      assert !IsReport(Done(SaveFailed, false, DoneImage(s, SaveFailed)));
    }
  }

  lemma ReleaseIsQuiet(s: State, answer: Answer, t: State)
    requires PlaceExists(s.main, s.job.kind) && StepRelease(s, answer, t)
    ensures Quiet(s, t)
  {
  }

  lemma FinishIsQuiet(s: State, t: State)
    requires StepFinish(s, t)
    ensures Quiet(s, t)
  {
    if s.main.SendDataAcquired? {
      assert !IsReport(DataAcquired);
    } else if s.main.SendDone? {
      var c := s.main.cause;
      assert !IsReport(Done(c, c == WaitFailed && s.shared.abortSet != 0, DoneImage(s, c)));
    }
  }

  /** Fetching more images leaves what was true of the reports true. */
  lemma FetchingKeepsReports(job: Job, before: int, fetched: nat, more: nat, messages: seq<Message>)
    requires fetched <= more
    ensures AllInScope(job, before, fetched, messages) ==> AllInScope(job, before, more, messages)
    ensures AllTruthful(fetched, messages) ==> AllTruthful(more, messages)
  {
  }

  lemma ExposureKeepsNumbers(s: State, answer: Answer, t: State)
    requires Locks(s) && Counters(s) && Numbers(s) && StepExpose(s, answer, t)
    ensures Numbers(t)
  {
    ExposureCounts(s, answer, t);
    FetchingKeepsReports(s.job, s.log.imageBefore, |s.log.fetched|, |t.log.fetched|, s.log.messages);
    assert s.main == NextImage ==> s.job.kind == RunTillAbort && s.local.saved == |s.log.fetched|;
    hide StepExpose, AllInScope, Counters, Locks;
  }

  lemma ExposureKeepsOrder(s: State, answer: Answer, t: State)
    requires Locks(s) && Counters(s) && Orderly(s) && StepExpose(s, answer, t)
    ensures Orderly(t)
  {
    ExposureCounts(s, answer, t);
    FetchingKeepsReports(s.job, s.log.imageBefore, |s.log.fetched|, |t.log.fetched|, s.log.messages);
    assert s.main == NextImage ==> s.job.kind == RunTillAbort && s.local.saved == |s.log.fetched|;
    hide StepExpose, AllTruthful, Counters, Locks, Reports, Nondecreasing;
  }

  lemma ReporterKeepsNumbers(s: State, spurious: bool, t: State)
    requires Lifetimes(s) && Numbers(s) && StepReporter(s, spurious, t)
    ensures Numbers(t)
  {
    ReporterTouches(s, spurious, t);
    hide StepReporter, Lifetimes, InScope;
  }

  lemma ReporterKeepsOrder(s: State, spurious: bool, t: State)
    requires PlaceExists(s.main, s.job.kind) && Lifetimes(s) && Orderly(s) && StepReporter(s, spurious, t)
    ensures Orderly(t)
  {
    ReporterRunsInLoop(s);
    ReporterTouches(s, spurious, t);
    AfterReport(s.log.messages, ImageFinished(s.local.shown));
    AfterReport(s.log.messages, Progress(s.local.shown));
    hide StepReporter, Lifetimes, BeforeLoop, Reports, PlaceExists;
  }

  lemma ReporterRunsInLoop(s: State)
    requires PlaceExists(s.main, s.job.kind) && Lifetimes(s) && s.reporter != NoReporter
    ensures s.main != Idle && !BeforeLoop(s.main)
  {
  }

  lemma PreludeKeepsInv(s: State, t: State)
    requires Inv(s) && StepPrelude(s, t)
    ensures Inv(t)
  {
    PreludeKeepsThreads(s, t);
    PreludeKeepsCounters(s, t);
    PreludeKeepsRecords(s, t);
    PreludeKeepsAbortFlag(s, t);
    PreludeKeepsDescriptor(s, t);
    PreludeIsQuiet(s, t);
    QuietKeepsNumbers(s, t);
  }

  lemma ReporterKeepsInv(s: State, spurious: bool, t: State)
    requires Inv(s) && StepReporter(s, spurious, t)
    ensures Inv(t)
  {
    ReporterKeepsThreads(s, spurious, t);
    ReporterKeepsMessages(s, spurious, t);
    ReporterKeepsCounters(s, spurious, t);
    ReporterKeepsAnnounced(s, spurious, t);
    ReporterKeepsFiles(s, spurious, t);
    ReporterKeepsAbortFlag(s, spurious, t);
    ReporterKeepsDescriptor(s, spurious, t);
    ReporterKeepsNumbers(s, spurious, t);
    ReporterKeepsOrder(s, spurious, t);
  }

  lemma ListenerKeepsInv(s: State, answer: Answer, newFd: int, t: State)
    requires Inv(s) && StepListener(s, answer, newFd, t)
    ensures Inv(t)
  {
    ListenerKeepsThreads(s, answer, newFd, t);
    ListenerKeepsCounters(s, answer, newFd, t);
    ListenerKeepsMessages(s, answer, newFd, t);
    ListenerKeepsAnnounced(s, answer, newFd, t);
    ListenerKeepsFiles(s, answer, newFd, t);
    ListenerKeepsAbortFlag(s, answer, newFd, t);
    ListenerKeepsDescriptor(s, answer, newFd, t);
    if s.main != Idle {
      ListenerIsQuiet(s, answer, newFd, t);
      QuietKeepsNumbers(s, t);
    }
  }

  lemma ExposureKeepsInv(s: State, answer: Answer, t: State)
    requires Inv(s) && StepExpose(s, answer, t)
    ensures Inv(t)
  {
    ExposureKeepsLocks(s, answer, t);
    ExposureKeepsLifetimes(s, answer, t);
    ExposureKeepsMessages(s, answer, t);
    ExposureKeepsCounters(s, answer, t);
    ExposureKeepsAnnounced(s, answer, t);
    ExposureKeepsFiles(s, answer, t);
    ExposureKeepsAbortFlag(s, answer, t);
    ExposureKeepsDescriptor(s, answer, t);
    ExposureKeepsNumbers(s, answer, t);
    ExposureKeepsOrder(s, answer, t);
  }

  lemma SaveKeepsInv(s: State, answer: Answer, text: string, t: State)
    requires Inv(s) && StepSave(s, answer, text, t)
    ensures Inv(t)
  {
    SaveKeepsLocks(s, answer, text, t);
    SaveKeepsLifetimes(s, answer, text, t);
    SaveKeepsMessages(s, answer, text, t);
    SaveKeepsCounters(s, answer, text, t);
    SaveKeepsAnnounced(s, answer, text, t);
    SaveKeepsFiles(s, answer, text, t);
    SaveKeepsAbortFlag(s, answer, text, t);
    SaveKeepsDescriptor(s, answer, text, t);
    SaveIsQuiet(s, answer, text, t);
    QuietKeepsNumbers(s, t);
  }

  lemma ReleaseKeepsInv(s: State, answer: Answer, t: State)
    requires Inv(s) && StepRelease(s, answer, t)
    ensures Inv(t)
  {
    ReleaseKeepsLocks(s, answer, t);
    ReleaseKeepsLifetimes(s, answer, t);
    ReleaseKeepsMessages(s, answer, t);
    ReleaseKeepsCounters(s, answer, t);
    ReleaseKeepsAnnounced(s, answer, t);
    ReleaseKeepsFiles(s, answer, t);
    ReleaseKeepsAbortFlag(s, answer, t);
    ReleaseKeepsDescriptor(s, answer, t);
    ReleaseIsQuiet(s, answer, t);
    QuietKeepsNumbers(s, t);
  }

  lemma FinishKeepsInv(s: State, t: State)
    requires Inv(s) && StepFinish(s, t)
    ensures Inv(t)
  {
    FinishKeepsLocks(s, t);
    FinishKeepsLifetimes(s, t);
    FinishKeepsMessages(s, t);
    FinishKeepsCounters(s, t);
    FinishKeepsAnnounced(s, t);
    FinishKeepsFiles(s, t);
    FinishKeepsAbortFlag(s, t);
    FinishKeepsDescriptor(s, t);
    FinishIsQuiet(s, t);
    QuietKeepsNumbers(s, t);
  }

  lemma StepKeepsInv(s: State, e: Event, t: State)
    requires Inv(s) && Step(s, e, t)
    ensures Inv(t)
  {
    hide Inv, StepPrelude, StepExpose, StepSave, StepRelease, StepFinish, StepReporter, StepListener, Begin;
    match e {
      case StartCall(job) => BeginKeepsInv(s, job);
      case MainStep(answer, text) =>
        if InPrelude(s.main) {
          PreludeKeepsInv(s, t);
        } else if InExposure(s.main) {
          ExposureKeepsInv(s, answer, t);
        } else if InSave(s.main) {
          SaveKeepsInv(s, answer, text, t);
        } else if InRelease(s.main) {
          ReleaseKeepsInv(s, answer, t);
        } else {
          FinishKeepsInv(s, t);
        }
      case ReporterStep(spurious) => ReporterKeepsInv(s, spurious, t);
      case ListenerStep(answer, newFd) => ListenerKeepsInv(s, answer, newFd, t);
    }
  }

  lemma {:induction false} RunKeepsInv(states: seq<State>, events: seq<Event>, i: nat)
    requires IsRun(states, events) && i <= |events|
    ensures Inv(states[i])
  {
    hide Inv, Step;
    if i == 0 {
      InitialInv(states[0]);
    } else {
      RunKeepsInv(states, events, i - 1);
      StepKeepsInv(states[i - 1], events[i - 1], states[i]);
    }
  }

  /** Every state of every interleaving of every sequence of calls satisfies the invariant. */
  lemma ReachableInv(s: State)
    requires Reachable(s)
    ensures Inv(s)
  {
    var states, events :| RunEndsIn(states, events, s);
    RunKeepsInv(states, events, |events|);
  }
}
