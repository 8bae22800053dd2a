/** The inductive invariant of the acquisition protocol. */
module AcquisitionInvariant {
  import opened Acquisition
  import FitsFilenames

  // ----- regions of main's program

  /** Main is between `g_mtx.lock()` and `g_mtx.unlock()`. */
  predicate HoldsSeries(pc: MainPc, kind: Kind) {
    match pc
    case SpawnReporter | NextImage | WaitForAcquisition | PollNewImages | FetchImage | UnlockSeries(_) => true
    case SaveName | SaveNameFailed | SaveWrite | SaveError | SaveReport => kind == RunTillAbort
    case AbortAcquisition(c) => c != StartFailed && c != Completed && !(kind == SingleScan && c == FetchFailed)
    case _ => false
  }

  /** The reporter thread has been created and not yet joined. */
  predicate ReporterAlive(pc: MainPc, kind: Kind) {
    match pc
    case SpawnReporter => false
    case Shutdown(c) => c != StartFailed
    case GetAcquiredData | JoinReporter(_) => true
    case _ => HoldsSeries(pc, kind)
  }

  /** The listener thread has been created and not yet joined. */
  predicate ListenerAlive(pc: MainPc, kind: Kind) {
    match pc
    case LockFd | CheckFd | Asleep | UnlockFd | StartAcquisition | LockSeries | SpawnReporter => true
    case SendDone(c) => c == StartFailed
    case AbortAcquisition(c) => c == StartFailed || HoldsSeries(pc, kind)
    case Shutdown(_) | JoinListener(_) => true
    case _ => ReporterAlive(pc, kind)
  }

  /** The "done" message of the call is out. */
  predicate DoneSent(pc: MainPc) {
    match pc
    case AbortAcquisition(c) => c == StartFailed || c == SaveFailed || c == Completed
    case UnlockSeries(c) => c == SaveFailed
    case Shutdown(c) => c == StartFailed || c == SaveFailed
    case JoinReporter(c) => c == SaveFailed
    case JoinListener(c) => c == StartFailed || c == SaveFailed
    case Return(_) => true
    case _ => false
  }

  predicate HasCause(pc: MainPc) {
    || pc.AbortAcquisition? || pc.UnlockSeries? || pc.Shutdown? || pc.JoinReporter? || pc.JoinListener?
    || pc.SendDone? || pc.Return?
  }

  /** Main is on the exit path for the given cause. */
  predicate Exits(pc: MainPc, c: Cause) {
    HasCause(pc) && pc.cause == c
  }

  /** Main has not yet reached the image loop. */
  predicate BeforeLoop(pc: MainPc) {
    InPrelude(pc) || pc.StartAcquisition? || pc.LockSeries? || pc.SpawnReporter? || Exits(pc, StartFailed)
  }

  /** Main is working on an image, or is on the exit path of a failed one. */
  predicate OnImage(pc: MainPc) {
    || pc.WaitForAcquisition? || pc.PollNewImages? || pc.FetchImage? || InSave(pc)
    || Exits(pc, WaitFailed) || Exits(pc, NoNewData) || Exits(pc, FetchFailed) || Exits(pc, SaveFailed)
  }

  /** Which places each of the two programs has. */
  predicate PlaceExists(pc: MainPc, kind: Kind) {
    match pc
    case NextImage | PollNewImages | FetchImage => kind == RunTillAbort
    case GetAcquiredData | SendDataAcquired => kind == SingleScan
    case AbortAcquisition(c) => kind == RunTillAbort || c == StartFailed || c == WaitFailed || c == FetchFailed
    case UnlockSeries(c) => c != StartFailed && (kind == RunTillAbort || c == WaitFailed || c == Completed)
    case Shutdown(c) => kind == RunTillAbort || c == StartFailed || c == WaitFailed || c == Completed
    case JoinReporter(c) =>
      c != StartFailed && (kind == RunTillAbort || c == WaitFailed || c == Completed || c == FetchFailed)
    case JoinListener(c) => kind == RunTillAbort || (c != NoNewData && c != SaveFailed)
    case SendDone(c) => c != SaveFailed && (kind == RunTillAbort || c != NoNewData)
    case Return(c) => kind == RunTillAbort || c != NoNewData
    case _ => true
  }

  /** The camera may still be exposing. */
  predicate MayExpose(pc: MainPc, kind: Kind) {
    match pc
    case LockSeries | SpawnReporter | WaitForAcquisition => true
    case NextImage | PollNewImages | FetchImage => kind == RunTillAbort
    case SaveName | SaveNameFailed | SaveWrite | SaveError | SaveReport => kind == RunTillAbort
    case AbortAcquisition(c) => kind == RunTillAbort || c == WaitFailed
    case Return(_) => false
    case _ => kind == RunTillAbort && Exits(pc, Completed)
  }

  /** The listener holds `g_mtx_abort`. */
  predicate HoldsFdLock(l: ListenerPc) {
    l.OpenSocket? || l.PublishFd? || l.UnlockForAccept? || l.PublishFailure? || l.UnlockAfterFailure?
  }

  /** The listener has not yet written `abort_socket_fd`. */
  predicate BeforePublish(l: ListenerPc) {
    l.ClearFlag? || l.LockForFd? || l.OpenSocket? || l.PublishFd? || l.PublishFailure?
  }

  /** The listener has an open socket whose descriptor it has published. */
  predicate Published(l: ListenerPc) {
    l.UnlockForAccept? || l.Accept? || l.Receive? || l.SetFlag? || l.CancelWait?
  }

  /** Main has shut the socket and has not yet joined the listener. */
  predicate AfterShut(pc: MainPc) {
    pc.GetAcquiredData? || pc.JoinReporter? || pc.JoinListener?
  }

  // ----- projections of the message history

  /** Names announced to the client, in order. */
  function Created(messages: seq<Message>): seq<string> {
    if messages == [] then []
    else
      var last := messages[|messages| - 1];
      Created(messages[..|messages| - 1]) + if last.FileCreated? then [last.name] else []
  }

  /** Number of "done" messages. */
  function Dones(messages: seq<Message>): nat {
    if messages == [] then 0
    else Dones(messages[..|messages| - 1]) + if messages[|messages| - 1].Done? then 1 else 0
  }

  lemma AfterEmit(messages: seq<Message>, m: Message)
    ensures Created(messages + [m]) == Created(messages) + if m.FileCreated? then [m.name] else []
    ensures Dones(messages + [m]) == Dones(messages) + if m.Done? then 1 else 0
  {
    assert (messages + [m])[..|messages|] == messages;
  }

  predicate IsReport(m: Message) {
    m.Progress? || m.ImageFinished?
  }

  /** The image numbers reported to the client, in order. */
  function Reports(messages: seq<Message>): seq<int> {
    if messages == [] then []
    else
      var last := messages[|messages| - 1];
      Reports(messages[..|messages| - 1]) + if IsReport(last) then [last.image] else []
  }

  lemma AfterReport(messages: seq<Message>, m: Message)
    ensures Reports(messages + [m]) == Reports(messages) + if IsReport(m) then [m.image] else []
  {
    assert (messages + [m])[..|messages|] == messages;
  }

  ghost predicate Nondecreasing(numbers: seq<int>) {
    forall i, j :: 0 <= i < j < |numbers| ==> numbers[i] <= numbers[j]
  }

  ghost predicate AllAtMost(numbers: seq<int>, bound: int) {
    forall i :: 0 <= i < |numbers| ==> numbers[i] <= bound
  }

  /** The image numbers 1, 2, ..., n. */
  function OneTo(n: nat): (r: seq<int>)
    ensures |r| == n
  {
    if n == 0 then [] else OneTo(n - 1) + [n]
  }

  ghost predicate Distinct(names: seq<string>) {
    forall i, j :: 0 <= i < j < |names| ==> names[i] != names[j]
  }

  // ----- the invariant

  /** Mutex ownership follows the program counters; each program only visits its own places. */
  ghost predicate Locks(s: State) {
    var kind := s.job.kind;
    && PlaceExists(s.main, kind)
    && (s.shared.series == Main <==> HoldsSeries(s.main, kind))
    && (s.shared.series == Reporter <==> s.reporter == Release)
    && s.shared.series != Listener && s.shared.fdLock != Reporter
    && (s.shared.fdLock == Main <==> s.main == CheckFd || s.main == UnlockFd)
    && (s.shared.fdLock == Listener <==> HoldsFdLock(s.listener))
  }

  /** Threads exist, and the camera may run, only where main's program counter says so. */
  ghost predicate Lifetimes(s: State) {
    var kind := s.job.kind;
    && (s.reporter != NoReporter <==> ReporterAlive(s.main, kind))
    && (s.listener != NoListener <==> ListenerAlive(s.main, kind))
    && (s.reporter.CompareImage? || s.reporter.SendFinished? || s.reporter.CopyImage? ==> kind == RunTillAbort)
    && (s.reporter == ReporterEnded && HoldsSeries(s.main, kind) ==> kind == SingleScan && s.job.zeroExposure)
    && (s.world.exposing ==> MayExpose(s.main, kind))
  }

  /** Exactly one "done", and nothing behind it unless the reporter is still running. */
  ghost predicate Messages(s: State) {
    s.main != Idle ==>
      && Dones(s.log.messages) == (if DoneSent(s.main) then 1 else 0)
      && (DoneSent(s.main) && !(s.job.kind == RunTillAbort && s.main.cause == SaveFailed) ==>
            EndsWithDone(s.log.messages, s.main.cause, DoneImage(s, s.main.cause)))
      && (DoneSent(s.main) && s.main.cause == SaveFailed ==> Done(SaveFailed, false, 0) in s.log.messages)
  }

  ghost predicate EndsWith(messages: seq<Message>, m: Message) {
    messages != [] && messages[|messages| - 1] == m
  }

  /** The last message is the "done" for the given cause. */
  ghost predicate EndsWithDone(messages: seq<Message>, c: Cause, image: int) {
    && messages != []
    && var last := messages[|messages| - 1];
       last.Done? && last.cause == c && last.image == image && (c != WaitFailed ==> !last.byUser)
  }

  /** Main's counters: how many images have been fetched, written and announced at each place. */
  ghost predicate Counters(s: State) {
    var saved, images := s.local.saved, s.job.images;
    s.main != Idle ==>
      && |s.log.written| == saved + (if s.main == SaveReport then 1 else 0)
      && (BeforeLoop(s.main) ==> saved == 0 && s.log.fetched == [])
      && if s.job.kind == SingleScan then
           saved == if s.main == SendDone(Completed) || s.main == Return(Completed) then 1 else 0
         else
           && |s.log.fetched| == saved + (if InSave(s.main) || Exits(s.main, SaveFailed) then 1 else 0)
           && (OnImage(s.main) ==> saved < images && s.shared.imageNumber == saved + 1)
           && (s.main == NextImage ==> saved == 0 || saved <= images)
           && (Exits(s.main, Completed) ==> saved == if images > 0 then images else 0)
           && (s.main == NextImage || Exits(s.main, Completed) ==> saved == 0 || s.shared.imageNumber == saved)
  }

  /** Images are fetched in order, and every written file but the newest has been announced. */
  ghost predicate Announced(s: State) {
    s.main != Idle ==>
      && s.log.fetched == OneTo(|s.log.fetched|)
      && s.local.saved <= |s.log.written|
      && Created(s.log.messages) == s.log.written[..s.local.saved]
  }

  /** The written names are pairwise distinct, exist, and did not exist before the call. */
  ghost predicate NewFiles(before: seq<string>, files: seq<string>, written: seq<string>) {
    && before <= files
    && Distinct(written)
    && (forall f :: f in written ==> f in files && f !in before)
  }

  ghost predicate Files(s: State) {
    s.main != Idle ==>
      && NewFiles(s.log.filesBefore, s.world.files, s.log.written)
      && (s.main == SaveWrite && !FitsFilenames.HasSlash(s.local.name) ==> s.local.name !in s.world.files)
      && (s.main == SaveReport ==>
            s.log.written != [] && s.log.written[|s.log.written| - 1] == s.local.name)
  }

  /** `abort_set`, from the listener's first statement until main has reported, reflects this call only. */
  ghost predicate AbortFlag(s: State) {
    && ((s.listener != NoListener && s.listener != ClearFlag)
        || s.main == SendDone(WaitFailed) || s.main == Return(WaitFailed) ==>
          (s.shared.abortSet != 0 <==> s.log.abortReceived && s.listener != SetFlag))
    && (s.listener == NoListener || s.listener == ListenerEnded
        || (s.log.abortReceived <==> s.listener == SetFlag || s.listener == CancelWait))
    && (s.world.cancelled ==> s.main == WaitForAcquisition && s.listener == ListenerEnded && s.log.abortReceived)
    && (s.log.cancelEndedWait && s.main != Idle ==>
          (s.listener == ListenerEnded || s.listener == NoListener) && s.log.abortReceived && Exits(s.main, WaitFailed))
    && (s.main == Return(WaitFailed) ==>
          EndsWith(s.log.messages, Done(WaitFailed, s.log.abortReceived, DoneImage(s, WaitFailed))))
  }

  /** Life of the listening socket and of the published descriptor. */
  ghost predicate Descriptor(s: State) {
    && (BeforePublish(s.listener) || s.main == SpawnListener ==> s.shared.fd == FD_UNSET)
    && (s.listener == PublishFd || Published(s.listener) ==> s.world.socketFd >= 0)
    && (Published(s.listener) ==> s.shared.fd == s.world.socketFd)
    && (s.listener == UnlockAfterFailure || s.listener == ListenerEnded ==> s.shared.fd >= FD_FAILED)
    && (s.main == Asleep ==> s.shared.fd == 0)
    && (s.main == UnlockFd ==> s.shared.fd != 0)
    && (AfterShut(s.main) && Published(s.listener) && !s.log.blindShutdown ==> s.world.socketShut)
    && (s.world.socketShut && s.listener != NoListener ==> AfterShut(s.main))
    && (s.world.socketShut ==> !BeforePublish(s.listener) || s.listener == PublishFd)
    && (s.log.blindShutdown && s.listener != NoListener ==> AfterShut(s.main))
    && (InPrelude(s.main) ==> !s.log.blindShutdown)
    && (AfterShut(s.main) && BeforePublish(s.listener) ==> s.log.blindShutdown)
  }

  /** Image numbers the reporter may show: its initial 1, the image main is on or an earlier one of this series, or the
      leftover of an earlier series. */
  predicate InScope(job: Job, before: int, fetched: nat, i: int) {
    i == 1 || (job.kind == RunTillAbort && (i == before || (1 <= i <= fetched + 1 && i <= job.images)))
  }

  ghost predicate AllInScope(job: Job, before: int, fetched: nat, messages: seq<Message>) {
    forall m :: m in messages && IsReport(m) ==> InScope(job, before, fetched, m.image)
  }

  ghost predicate Numbers(s: State) {
    s.main != Idle ==>
      && var fetched := |s.log.fetched|;
      && (s.job.kind == RunTillAbort ==> InScope(s.job, s.log.imageBefore, fetched, s.shared.imageNumber))
      && (s.job.images < 1 ==> s.shared.imageNumber == s.log.imageBefore)
      && (s.reporter != NoReporter ==> InScope(s.job, s.log.imageBefore, fetched, s.local.shown))
      && AllInScope(s.job, s.log.imageBefore, fetched, s.log.messages)
  }

  /** No report is ahead of the camera: a finished image has been fetched, and progress is on the next one at most. */
  predicate Truthful(fetched: nat, m: Message) {
    && (m.ImageFinished? ==> 1 <= m.image <= fetched)
    && (m.Progress? ==> 1 <= m.image <= fetched + 1)
  }

  ghost predicate AllTruthful(fetched: nat, messages: seq<Message>) {
    forall m :: m in messages ==> Truthful(fetched, m)
  }

  /** A series that finds 1 in `cur_img_in_series` reports truthfully and in order. */
  ghost predicate Orderly(s: State) {
    s.main != Idle && s.job.kind == RunTillAbort && s.log.imageBefore == 1 ==>
      && var fetched, reports := |s.log.fetched|, Reports(s.log.messages);
      && (BeforeLoop(s.main) ==> reports == [])
      && 1 <= s.shared.imageNumber <= fetched + 1
      && (s.reporter != NoReporter ==> ShowsSeen(s.reporter, s.local.shown, s.shared.imageNumber, reports))
      && AllTruthful(fetched, s.log.messages)
      && Nondecreasing(reports)
  }

  /** What the reporter shows is not ahead of main, and not behind what it has shown. */
  ghost predicate ShowsSeen(reporter: ReporterPc, shown: int, imageNumber: int, reports: seq<int>) {
    && 1 <= shown <= imageNumber
    && (reporter == SendFinished ==> shown < imageNumber)
    && AllAtMost(reports, shown)
  }

  ghost predicate Threads(s: State) {
    Locks(s) && Lifetimes(s)
  }

  ghost predicate Records(s: State) {
    Messages(s) && Announced(s) && Files(s)
  }

  ghost predicate Signals(s: State) {
    AbortFlag(s) && Descriptor(s) && Numbers(s) && Orderly(s)
  }

  ghost predicate Inv(s: State) {
    Threads(s) && Counters(s) && Records(s) && Signals(s)
  }
}
