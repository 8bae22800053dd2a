/** The acquisition protocol: `get_rta_scan` or `get_single_scan` on the daemon's main thread, the progress
    reporter, and the abort listener, as one labelled step system.

    One step is one access to shared state (a global, a mutex, the client socket, the directory) or one call
    into the SDK. What the SDK, the sockets and the file system answer is part of the step's label. */
module Acquisition {
  import FitsFilenames

  // ----- what the daemon is asked to do

  datatype Kind = RunTillAbort | SingleScan

  /** One acquisition request. `zeroExposure` is the single-scan reporter's bias case. */
  datatype Job = Job(kind: Kind, images: int, zeroExposure: bool)

  /** Why main leaves the acquisition. */
  datatype Cause = StartFailed | WaitFailed | NoNewData | FetchFailed | SaveFailed | Completed

  // ----- what the client sees

  datatype Message =
    | Done(cause: Cause, byUser: bool, image: int)
    | FileCreated(name: string)
    | DataAcquired
    | ImageFinished(image: int)
    | Progress(image: int)

  // ----- program counters; each constructor names the next action of the thread

  datatype MainPc =
    | Idle
    | ResetFd | SpawnListener | LockFd | CheckFd | Asleep | UnlockFd
    | StartAcquisition | LockSeries | SpawnReporter
    | NextImage | WaitForAcquisition | PollNewImages | FetchImage
    | SaveName | SaveNameFailed | SaveWrite | SaveError | SaveReport
    | AbortAcquisition(cause: Cause) | UnlockSeries(cause: Cause) | Shutdown(cause: Cause)
    | GetAcquiredData
    | JoinReporter(cause: Cause) | JoinListener(cause: Cause)
    | SendDataAcquired | SendDone(cause: Cause)
    | Return(cause: Cause)

  datatype ReporterPc =
    | NoReporter
    | Enter | TryLock | CompareImage | SendFinished | CopyImage | SendProgress | Release
    | ReporterEnded

  datatype ListenerPc =
    | NoListener
    | ClearFlag | LockForFd | OpenSocket | PublishFd | UnlockForAccept
    | Accept | Receive | SetFlag | CancelWait
    | PublishFailure | UnlockAfterFailure
    | ListenerEnded

  datatype Owner = Free | Main | Reporter | Listener

  const FD_UNSET := -100
  const FD_FAILED := -1

  /** The globals the threads share: `abort_socket_fd`, `abort_set`, `cur_img_in_series`, `g_mtx`, `g_mtx_abort`. */
  datatype Shared = Shared(fd: int, abortSet: int, imageNumber: int, series: Owner, fdLock: Owner)

  /** Main's loop counter and file name, and the image number the reporter shows. */
  datatype Local = Local(saved: nat, name: string, shown: int)

  /** Camera, listening socket, a CancelWait that has hit main's wait, and the paths of existing files relative
      to the save directory. */
  datatype World = World(exposing: bool, socketFd: int, socketShut: bool, cancelled: bool, files: seq<string>)

  /** What has happened since the current call began. */
  datatype Log = Log(
    messages: seq<Message>, fetched: seq<int>, written: seq<string>, filesBefore: seq<string>, imageBefore: int,
    abortReceived: bool, cancelEndedWait: bool, blindShutdown: bool)

  datatype State = State(
    main: MainPc, reporter: ReporterPc, listener: ListenerPc, job: Job,
    shared: Shared, local: Local, world: World, log: Log)

  /** What the environment answers to the call a thread makes in a step. */
  datatype Answer = Good | Bad | Again | Expired

  datatype Event =
    | StartCall(job: Job)
    | MainStep(answer: Answer, text: string)
    | ReporterStep(spurious: bool)
    | ListenerStep(answer: Answer, newFd: int)

  // ----- helpers

  /** Entries of the save directory itself. */
  function Listing(files: seq<string>): (entries: seq<string>)
    ensures forall f :: f in entries <==> f in files && !FitsFilenames.HasSlash(f)
  {
    if files == [] then []
    else
      var rest := Listing(files[..|files| - 1]);
      var last := files[|files| - 1];
      assert files == files[..|files| - 1] + [last];
      if FitsFilenames.HasSlash(last) then rest else rest + [last]
  }

  /** A message is sent to the client. */
  function Emit(s: State, m: Message): State {
    s.(log := s.log.(messages := s.log.messages + [m]))
  }

  /** The image number printed in a "done" message, 0 when the text has none. */
  function DoneImage(s: State, c: Cause): int {
    if s.job.kind == SingleScan || c == SaveFailed then 0
    else if c == StartFailed then 1
    else s.shared.imageNumber
  }

  predicate SocketOpen(l: ListenerPc) {
    l.PublishFd? || l.UnlockForAccept? || l.Accept? || l.Receive? || l.SetFlag? || l.CancelWait?
  }

  // ----- main thread

  /** Where main goes after `AbortAcquisition`. */
  function AfterAbort(kind: Kind, c: Cause): MainPc {
    if c == StartFailed then Shutdown(c)
    else if c == Completed then Return(c)
    else if kind == SingleScan && c == FetchFailed then SendDone(c)
    else UnlockSeries(c)
  }

  /** Where main goes after shutting the listening socket. */
  function AfterShutdown(kind: Kind, c: Cause): MainPc {
    if c == StartFailed then JoinListener(c)
    else if kind == SingleScan && c == Completed then GetAcquiredData
    else JoinReporter(c)
  }

  /** Where main goes after joining the listener. */
  function AfterJoins(kind: Kind, c: Cause): MainPc {
    if c == StartFailed || c == SaveFailed then Return(c)
    else if kind == SingleScan && c == FetchFailed then AbortAcquisition(c)
    else if kind == SingleScan && c == Completed then SendDataAcquired
    else SendDone(c)
  }

  /** Where main goes after its own "done" message. */
  function AfterDone(kind: Kind, c: Cause): MainPc {
    if c == StartFailed || (kind == RunTillAbort && c == Completed) then AbortAcquisition(c) else Return(c)
  }

  /** The listener is started and its descriptor awaited. The wait's predicate is the descriptor itself, so
      any non-zero value lets main through. */
  predicate StepPrelude(s: State, t: State) {
    match s.main
    case ResetFd => t == s.(main := SpawnListener, shared := s.shared.(fd := FD_UNSET))
    case SpawnListener =>
      t == s.(main := LockFd, listener := ClearFlag, world := s.world.(socketShut := false),
              log := s.log.(abortReceived := false))
    case LockFd => s.shared.fdLock == Free && t == s.(main := CheckFd, shared := s.shared.(fdLock := Main))
    case CheckFd =>
      if s.shared.fd != 0 then t == s.(main := UnlockFd)
      else t == s.(main := Asleep, shared := s.shared.(fdLock := Free))
    case Asleep => s.shared.fdLock == Free && t == s.(main := CheckFd, shared := s.shared.(fdLock := Main))
    case UnlockFd => t == s.(main := StartAcquisition, shared := s.shared.(fdLock := Free))
    case _ => false
  }

  /** The exposures: start, wait for each image, fetch it. A wait that was cancelled does not succeed. */
  predicate StepExpose(s: State, answer: Answer, t: State) {
    var rta := s.job.kind == RunTillAbort;
    match s.main
    case StartAcquisition =>
      if answer == Good then t == s.(main := LockSeries, world := s.world.(exposing := true))
      else t == s.(main := SendDone(StartFailed))
    case LockSeries =>
      s.shared.series == Free && t == s.(main := SpawnReporter, shared := s.shared.(series := Main))
    case SpawnReporter =>
      t == s.(main := if rta then NextImage else WaitForAcquisition, reporter := Enter,
              local := s.local.(shown := 1))
    case NextImage =>
      if s.local.saved < s.job.images then
        t == s.(main := WaitForAcquisition, shared := s.shared.(imageNumber := s.local.saved + 1))
      else t == s.(main := UnlockSeries(Completed))
    case WaitForAcquisition =>
      if answer != Good then
        t == s.(main := AbortAcquisition(WaitFailed), world := s.world.(cancelled := false),
                log := s.log.(cancelEndedWait := s.world.cancelled))
      else if s.world.cancelled then false
      else if rta then t == s.(main := PollNewImages)
      else t == s.(main := UnlockSeries(Completed), world := s.world.(exposing := false))
    case PollNewImages =>
      if answer == Again then t == s
      else if answer == Expired then t == s.(main := AbortAcquisition(NoNewData))
      else t == s.(main := FetchImage)
    case FetchImage =>
      if answer == Good then
        t == s.(main := SaveName, log := s.log.(fetched := s.log.fetched + [s.shared.imageNumber]))
      else t == s.(main := AbortAcquisition(FetchFailed))
    case _ => false
  }

  /** `save_as_fits`: `text` is generic name plus date. A file is never overwritten; a failing write may
      leave a file behind. */
  predicate StepSave(s: State, answer: Answer, text: string, t: State) {
    var rta := s.job.kind == RunTillAbort;
    var grown := s.world.(files := s.world.files + [s.local.name]);
    match s.main
    case SaveName =>
      if answer != Good then t == s.(main := SaveNameFailed)
      else
        && FitsFilenames.NoOverflow(text, Listing(s.world.files))
        && t == s.(main := SaveWrite,
                   local := s.local.(name := FitsFilenames.NextName(text, Listing(s.world.files))))
    case SaveNameFailed => t == s.(main := SaveError, world := s.world.(exposing := false))
    case SaveWrite =>
      if answer == Bad then t == s.(main := SaveError)
      else if s.local.name in s.world.files then false
      else if answer == Good then
        t == s.(main := SaveReport, world := grown, log := s.log.(written := s.log.written + [s.local.name]))
      else t == s.(main := SaveError, world := grown)
    case SaveError =>
      t == Emit(s, Done(SaveFailed, false, DoneImage(s, SaveFailed))).(
             main := if rta then AbortAcquisition(SaveFailed) else Return(SaveFailed))
    case SaveReport =>
      t == Emit(s, FileCreated(s.local.name)).(
             main := if rta then NextImage else SendDone(Completed),
             local := s.local.(saved := s.local.saved + 1))
    case _ => false
  }

  /** The exits, first half: stop the camera, release the mutex, wake the listener. */
  predicate StepRelease(s: State, answer: Answer, t: State) {
    var kind := s.job.kind;
    match s.main
    case AbortAcquisition(c) => t == s.(main := AfterAbort(kind, c), world := s.world.(exposing := false))
    case UnlockSeries(c) => t == s.(main := Shutdown(c), shared := s.shared.(series := Free))
    case Shutdown(c) =>
      var hit := SocketOpen(s.listener) && s.shared.fd == s.world.socketFd;
      t == s.(main := AfterShutdown(kind, c), world := s.world.(socketShut := s.world.socketShut || hit),
              log := s.log.(blindShutdown := s.shared.fd == FD_UNSET))
    case GetAcquiredData => t == s.(main := JoinReporter(if answer == Good then Completed else FetchFailed))
    case _ => false
  }

  /** The exits, second half: join both threads, report, return. */
  predicate StepFinish(s: State, t: State) {
    var kind := s.job.kind;
    match s.main
    case JoinReporter(c) =>
      s.reporter == ReporterEnded && t == s.(main := JoinListener(c), reporter := NoReporter)
    case JoinListener(c) =>
      s.listener == ListenerEnded && t == s.(main := AfterJoins(kind, c), listener := NoListener)
    case SendDataAcquired => t == Emit(s, DataAcquired).(main := SaveName)
    case SendDone(c) =>
      t == Emit(s, Done(c, c == WaitFailed && s.shared.abortSet != 0, DoneImage(s, c))).(main := AfterDone(kind, c))
    case Return(_) => t == s.(main := Idle)
    case _ => false
  }

  predicate InPrelude(pc: MainPc) {
    pc.ResetFd? || pc.SpawnListener? || pc.LockFd? || pc.CheckFd? || pc.Asleep? || pc.UnlockFd?
  }

  predicate InExposure(pc: MainPc) {
    || pc.StartAcquisition? || pc.LockSeries? || pc.SpawnReporter? || pc.NextImage? || pc.WaitForAcquisition?
    || pc.PollNewImages? || pc.FetchImage?
  }

  predicate InSave(pc: MainPc) {
    pc.SaveName? || pc.SaveNameFailed? || pc.SaveWrite? || pc.SaveError? || pc.SaveReport?
  }

  predicate InRelease(pc: MainPc) {
    pc.AbortAcquisition? || pc.UnlockSeries? || pc.Shutdown? || pc.GetAcquiredData?
  }

  /** One step of main. There is none while main is idle or blocked, or if the answer does not fit the call. */
  predicate StepMain(s: State, answer: Answer, text: string, t: State) {
    if InPrelude(s.main) then StepPrelude(s, t)
    else if InExposure(s.main) then StepExpose(s, answer, t)
    else if InSave(s.main) then StepSave(s, answer, text, t)
    else if InRelease(s.main) then StepRelease(s, answer, t)
    else StepFinish(s, t)
  }

  // ----- reporter thread

  /** One step of the reporter. `try_lock` fails while another thread owns the mutex, and may fail spuriously. */
  predicate StepReporter(s: State, spurious: bool, t: State) {
    var rta := s.job.kind == RunTillAbort;
    match s.reporter
    case Enter => t == s.(reporter := if !rta && s.job.zeroExposure then ReporterEnded else TryLock)
    case TryLock =>
      if s.shared.series == Free && !spurious then
        t == s.(reporter := Release, shared := s.shared.(series := Reporter))
      else t == s.(reporter := if rta then CompareImage else SendProgress)
    case CompareImage =>
      t == s.(reporter := if s.local.shown != s.shared.imageNumber then SendFinished else SendProgress)
    case SendFinished => t == Emit(s, ImageFinished(s.local.shown)).(reporter := CopyImage)
    case CopyImage => t == s.(reporter := SendProgress, local := s.local.(shown := s.shared.imageNumber))
    case SendProgress => t == Emit(s, Progress(s.local.shown)).(reporter := TryLock)
    case Release => t == s.(reporter := ReporterEnded, shared := s.shared.(series := Free))
    case _ => false
  }

  // ----- abort listener thread

  /** One step of the listener. `accept` can only fail once the socket is shut, and may fail before. */
  predicate StepListener(s: State, answer: Answer, newFd: int, t: State) {
    match s.listener
    case ClearFlag => t == s.(listener := LockForFd, shared := s.shared.(abortSet := 0))
    case LockForFd =>
      s.shared.fdLock == Free && t == s.(listener := OpenSocket, shared := s.shared.(fdLock := Listener))
    case OpenSocket =>
      if answer == Good then newFd >= 0 && t == s.(listener := PublishFd, world := s.world.(socketFd := newFd))
      else t == s.(listener := PublishFailure)
    case PublishFd => t == s.(listener := UnlockForAccept, shared := s.shared.(fd := s.world.socketFd))
    case UnlockForAccept => t == s.(listener := Accept, shared := s.shared.(fdLock := Free))
    case Accept =>
      if answer == Good then !s.world.socketShut && t == s.(listener := Receive)
      else t == s.(listener := ListenerEnded)
    case Receive =>
      if answer == Good then t == s.(listener := SetFlag, log := s.log.(abortReceived := true))
      else t == s.(listener := ListenerEnded)
    case SetFlag => t == s.(listener := CancelWait, shared := s.shared.(abortSet := 1))
    case CancelWait =>
      var hit := answer == Good && s.main == WaitForAcquisition;
      t == s.(listener := ListenerEnded, world := s.world.(cancelled := s.world.cancelled || hit))
    case PublishFailure => t == s.(listener := UnlockAfterFailure, shared := s.shared.(fd := FD_FAILED))
    case UnlockAfterFailure => t == s.(listener := ListenerEnded, shared := s.shared.(fdLock := Free))
    case _ => false
  }

  // ----- the whole system

  function Begin(s: State, job: Job): State {
    s.(main := ResetFd, job := job, local := s.local.(saved := 0),
       log := Log([], [], [], s.world.files, s.shared.imageNumber, false, false, false))
  }

  predicate Step(s: State, e: Event, t: State) {
    match e
    case StartCall(job) => s.main == Idle && t == Begin(s, job)
    case MainStep(answer, text) => StepMain(s, answer, text, t)
    case ReporterStep(spurious) => StepReporter(s, spurious, t)
    case ListenerStep(answer, newFd) => StepListener(s, answer, newFd, t)
  }

  /** The daemon before its first request: no thread, no lock, arbitrary leftovers in the globals. */
  ghost predicate Initial(s: State) {
    && s.main == Idle && s.reporter == NoReporter && s.listener == NoListener
    && s.shared.series == Free && s.shared.fdLock == Free && !s.world.exposing && !s.world.cancelled
  }

  /** A run: states[i + 1] follows states[i] by events[i]. */
  ghost predicate IsRun(states: seq<State>, events: seq<Event>) {
    && |states| == |events| + 1 && Initial(states[0])
    && forall i :: 0 <= i < |events| ==> Step(states[i], events[i], states[i + 1])
  }

  ghost predicate RunEndsIn(states: seq<State>, events: seq<Event>, s: State) {
    IsRun(states, events) && states[|events|] == s
  }

  /** Reachable in some interleaving of some sequence of calls, whatever the environment answers. */
  ghost predicate Reachable(s: State) {
    exists states, events :: RunEndsIn(states, events, s)
  }

  lemma InitialIsReachable(s: State)
    requires Initial(s)
    ensures Reachable(s)
  {
    assert RunEndsIn([s], [], s);
  }

  lemma ReachableStep(s: State, e: Event, t: State)
    requires Reachable(s) && Step(s, e, t)
    ensures Reachable(t)
  {
    var states, events :| RunEndsIn(states, events, s);
    assert RunEndsIn(states + [t], events + [e], t);
  }
}
