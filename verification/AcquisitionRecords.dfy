/** What a call leaves behind: everything main tells the client, what counts as an abort, and the names of the files. */
module AcquisitionRecords {
  import opened Acquisition
  import opened AcquisitionInvariant
  import opened AcquisitionPreservation
  import opened AcquisitionAnswers
  import FitsFilenames
  import CString

  // ----- what main tells the client

  /** The messages that are not the reporter's. */
  function FromMain(messages: seq<Message>): seq<Message> {
    if messages == [] then []
    else
      var last := messages[|messages| - 1];
      FromMain(messages[..|messages| - 1]) + if IsReport(last) then [] else [last]
  }

  lemma FromMainAfter(messages: seq<Message>, m: Message)
    ensures FromMain(messages + [m]) == if IsReport(m) then FromMain(messages) else FromMain(messages) + [m]
  {
    assert (messages + [m])[..|messages|] == messages;
  }

  function Announcing(names: seq<string>): (messages: seq<Message>)
    ensures |messages| == |names| && forall i :: 0 <= i < |names| ==> messages[i] == FileCreated(names[i])
  {
    seq(|names|, i requires 0 <= i < |names| => FileCreated(names[i]))
  }

  /** A single scan has its data and has said so. */
  predicate HasData(pc: MainPc, kind: Kind) {
    kind == SingleScan
    && (InSave(pc) || pc == SendDone(Completed) || pc == Return(Completed) || pc == Return(SaveFailed))
  }

  /** Main has told the story so far: that it has its data, the names it has announced, and the "done". */
  ghost predicate Tells(told: seq<Message>, data: bool, names: seq<string>, done: bool) {
    var story := (if data then [DataAcquired] else []) + Announcing(names);
    if done then told != [] && told[|told| - 1].Done? && told[..|told| - 1] == story else told == story
  }

  lemma TellsData(told: seq<Message>)
    requires Tells(told, false, [], false)
    ensures Tells(told + [DataAcquired], true, [], false)
  {
  }

  lemma TellsName(told: seq<Message>, data: bool, names: seq<string>, name: string)
    requires Tells(told, data, names, false)
    ensures Tells(told + [FileCreated(name)], data, names + [name], false)
  {
    assert Announcing(names + [name]) == Announcing(names) + [FileCreated(name)];
  }

  lemma TellsDone(told: seq<Message>, data: bool, names: seq<string>, m: Message)
    requires Tells(told, data, names, false) && m.Done?
    ensures Tells(told + [m], data, names, true)
  {
    assert (told + [m])[..|told|] == told;
  }

  ghost predicate Told(s: State) {
    && s.local.saved <= |s.log.written|
    && Tells(FromMain(s.log.messages), HasData(s.main, s.job.kind), s.log.written[..s.local.saved], DoneSent(s.main))
  }

  lemma OthersKeepTold(s: State, e: Event, t: State)
    requires Told(s) && Step(s, e, t) && (e.ReporterStep? || e.ListenerStep?)
    ensures Told(t)
  {
    hide StepReporter, StepListener, Tells, HasData, FromMain, DoneSent;
    match e {
      case ReporterStep(spurious) =>
        ReporterTouches(s, spurious, t);
        FromMainAfter(s.log.messages, ImageFinished(s.local.shown));
        FromMainAfter(s.log.messages, Progress(s.local.shown));
      case ListenerStep(answer, newFd) => ListenerTouches(s, answer, newFd, t);
    }
  }

  lemma PreludeKeepsTold(s: State, t: State)
    requires Told(s) && StepPrelude(s, t)
    ensures Told(t)
  {
    hide Tells, FromMain;
  }

  lemma ExposureKeepsTold(s: State, answer: Answer, t: State)
    requires Locks(s) && Told(s) && StepExpose(s, answer, t)
    ensures Told(t)
  {
    ExposureIsSilent(s, answer, t);
    hide Locks, StepExpose, Tells, FromMain, HasData, DoneSent;
  }

  lemma ExposureIsSilent(s: State, answer: Answer, t: State)
    requires Locks(s) && StepExpose(s, answer, t)
    ensures t.job == s.job && t.log.messages == s.log.messages && t.log.written == s.log.written
    ensures t.local.saved == s.local.saved
    ensures HasData(t.main, t.job.kind) == HasData(s.main, s.job.kind) && DoneSent(t.main) == DoneSent(s.main)
  {
    hide HoldsSeries, HoldsFdLock;
  }

  lemma ReleasePlaces(s: State, answer: Answer, t: State)
    requires PlaceExists(s.main, s.job.kind) && StepRelease(s, answer, t)
    ensures HasData(t.main, t.job.kind) == HasData(s.main, s.job.kind) && DoneSent(t.main) == DoneSent(s.main)
  {
    ReleaseTouches(s, answer, t);
    hide StepRelease;
  }

  lemma ReleaseKeepsTold(s: State, answer: Answer, t: State)
    requires Locks(s) && Told(s) && StepRelease(s, answer, t)
    ensures Told(t)
  {
    ReleaseTouches(s, answer, t);
    ReleasePlaces(s, answer, t);
    hide Locks, StepRelease, Tells, FromMain, HasData, DoneSent, Told;
    SilenceIsTold(s, t);
  }

  /** The second half of an exit makes the two statements of its places. */
  lemma FinishPlaces(s: State, t: State)
    requires Locks(s) && StepFinish(s, t) && t.main != Idle
    ensures HasData(t.main, t.job.kind) == (s.main.SendDataAcquired? || HasData(s.main, s.job.kind))
    ensures DoneSent(t.main) == (s.main.SendDone? || DoneSent(s.main))
    ensures s.main.SendDataAcquired? ==> !HasData(s.main, s.job.kind) && !DoneSent(s.main) && s.job.kind == SingleScan
    ensures s.main.SendDone? ==> !DoneSent(s.main)
  {
    FinishTouches(s, t);
    assert PlaceExists(s.main, s.job.kind);
    hide StepFinish, Locks;
  }

  lemma NothingSavedYet(s: State)
    requires Counters(s) && s.job.kind == SingleScan && s.main.SendDataAcquired?
    ensures s.local.saved == 0
  {
  }

  lemma FinishKeepsTold(s: State, t: State)
    requires Locks(s) && Counters(s) && Told(s) && StepFinish(s, t) && t.main != Idle
    ensures Told(t)
  {
    FinishTouches(s, t);
    FinishSays(s, t);
    FinishPlaces(s, t);
    if s.main.SendDataAcquired? {
      NothingSavedYet(s);
    }
    hide Locks, StepFinish, Counters, Tells, FromMain, HasData, DoneSent, AfterJoins, AfterDone, DoneImage, Told;
    if s.main.SendDataAcquired? {
      DataIsTold(s, t);
    } else if s.main.SendDone? {
      DoneIsTold(s, t, t.log.messages[|s.log.messages|]);
    } else {
      SilenceIsTold(s, t);
    }
  }

  lemma DataIsTold(s: State, t: State)
    requires Told(s) && t.log.messages == s.log.messages + [DataAcquired] && t.log.written == s.log.written
    requires s.local.saved == t.local.saved == 0 && !DoneSent(s.main) && !DoneSent(t.main)
    requires !HasData(s.main, s.job.kind) && HasData(t.main, t.job.kind)
    ensures Told(t)
  {
    hide Tells, FromMain, HasData, DoneSent;
    FromMainAfter(s.log.messages, DataAcquired);
    TellsData(FromMain(s.log.messages));
  }

  lemma DoneIsTold(s: State, t: State, m: Message)
    requires Told(s) && m.Done? && t.log.messages == s.log.messages + [m] && t.log.written == s.log.written
    requires s.local.saved == t.local.saved && !DoneSent(s.main) && DoneSent(t.main)
    requires HasData(s.main, s.job.kind) == HasData(t.main, t.job.kind)
    ensures Told(t)
  {
    hide Tells, FromMain, HasData, DoneSent;
    FromMainAfter(s.log.messages, m);
    TellsDone(FromMain(s.log.messages), HasData(s.main, s.job.kind), s.log.written[..s.local.saved], m);
  }

  lemma SilenceIsTold(s: State, t: State)
    requires Told(s) && t.log.messages == s.log.messages && t.log.written == s.log.written
    requires s.local.saved == t.local.saved && DoneSent(s.main) == DoneSent(t.main)
    requires HasData(s.main, s.job.kind) == HasData(t.main, t.job.kind)
    ensures Told(t)
  {
  }

  lemma FinishSays(s: State, t: State)
    requires StepFinish(s, t)
    ensures if s.main.SendDataAcquired? then t.log.messages == s.log.messages + [DataAcquired]
            else if s.main.SendDone? then
              && |t.log.messages| == |s.log.messages| + 1 && t.log.messages[|s.log.messages|].Done?
              && t.log.messages == s.log.messages + [t.log.messages[|s.log.messages|]]
            else t.log.messages == s.log.messages
  {
  }

  lemma SavePlaces(s: State, answer: Answer, text: string, t: State)
    requires StepSave(s, answer, text, t)
    ensures HasData(t.main, t.job.kind) == HasData(s.main, s.job.kind)
    ensures !DoneSent(s.main) && (DoneSent(t.main) <==> s.main == SaveError)
  {
    SaveStaysInPlace(s, answer, text, t);
    SaveSays(s, answer, text, t);
    SaveRegions(s.main, s.job.kind);
    SaveRegions(t.main, s.job.kind);
    hide StepSave, DoneSent, DoneImage;
  }

  lemma SaveKeepsTold(s: State, answer: Answer, text: string, t: State)
    requires Counters(s) && Files(s) && Told(s) && StepSave(s, answer, text, t)
    ensures Told(t)
  {
    SaveSays(s, answer, text, t);
    SaveCounts(s, answer, text, t);
    SaveWrites(s, answer, text, t);
    SavePlaces(s, answer, text, t);
    if s.main == SaveReport {
      FileIsAnnounced(s);
    }
    hide StepSave, FromMain, Tells, Counters, Files, HasData, DoneSent, DoneImage;
    var data, told, names := HasData(s.main, s.job.kind), FromMain(s.log.messages), s.log.written[..s.local.saved];
    if s.main == SaveReport {
      FromMainAfter(s.log.messages, FileCreated(s.local.name));
      TellsName(told, data, names, s.local.name);
    } else {
      SameAnnounced(s.log.written, t.log.written, s.local.saved);
      if s.main == SaveError {
        var m := Done(SaveFailed, false, DoneImage(s, SaveFailed));
        FromMainAfter(s.log.messages, m);
        TellsDone(told, data, names, m);
      }
    }
  }

  lemma FileIsAnnounced(s: State)
    requires Counters(s) && Files(s) && s.main == SaveReport
    ensures |s.log.written| == s.local.saved + 1
    ensures s.log.written[..s.local.saved + 1] == s.log.written[..s.local.saved] + [s.local.name]
  {
  }

  lemma MainKeepsTold(s: State, answer: Answer, text: string, t: State)
    requires Inv(s) && Told(s) && StepMain(s, answer, text, t) && t.main != Idle
    ensures Told(t)
  {
    hide Lifetimes, Messages, Announced, Files, Counters, Signals, Told, Locks, StepPrelude, StepExpose, StepSave,
      StepRelease, StepFinish;
    if InPrelude(s.main) {
      PreludeKeepsTold(s, t);
    } else if InExposure(s.main) {
      ExposureKeepsTold(s, answer, t);
    } else if InSave(s.main) {
      SaveKeepsTold(s, answer, text, t);
    } else if InRelease(s.main) {
      ReleaseKeepsTold(s, answer, t);
    } else {
      FinishKeepsTold(s, t);
    }
  }

  lemma BeginTold(s: State, job: Job)
    ensures Told(Begin(s, job))
  {
  }

  lemma {:induction false} RunIsTold(states: seq<State>, events: seq<Event>, n: nat)
    requires IsRun(states, events) && n <= |events| && states[n].main != Idle
    ensures Told(states[n])
  {
    hide Inv, Told, StepMain, StepReporter, StepListener, Begin;
    if n == 0 {
    } else {
      var s, e, t := states[n - 1], events[n - 1], states[n];
      RunKeepsInv(states, events, n - 1);
      assert Step(s, e, t);
      if e.StartCall? {
        BeginTold(s, e.job);
      } else if e.MainStep? {
        IdleMainDoesNothing(s, e.answer, e.text, t);
        RunIsTold(states, events, n - 1);
        MainKeepsTold(s, e.answer, e.text, t);
      } else {
        OthersKeepPlace(s, e, t);
        RunIsTold(states, events, n - 1);
        OthersKeepTold(s, e, t);
      }
    }
  }

  /** Everything main has to say in a call: a single scan that it has its data, if it has; then the name of each file,
      in order; and one "done" at the end. */
  ghost predicate WholeStory(told: seq<Message>, data: bool, names: seq<string>) {
    var d := if data then 1 else 0;
    && |told| == d + |names| + 1 && (data ==> told[0] == DataAcquired) && told[d + |names|].Done?
    && forall i :: 0 <= i < |names| ==> told[d + i] == FileCreated(names[i])
  }

  /** That is, word for word, what the client is told, with the files that have been written. */
  lemma ClientIsTold(s: State)
    requires Reachable(s) && s.main.Return?
    ensures WholeStory(FromMain(s.log.messages),
                       s.job.kind == SingleScan && (s.main.cause == Completed || s.main.cause == SaveFailed),
                       s.log.written)
  {
    ReachableIsTold(s);
    ReachableInv(s);
    ToldAtReturn(s);
    hide Reachable, Inv, Told, FromMain, Tells, WholeStory;
    var data := s.job.kind == SingleScan && (s.main.cause == Completed || s.main.cause == SaveFailed);
    TellsAll(FromMain(s.log.messages), data, s.log.written);
  }

  lemma ReachableIsTold(s: State)
    requires Reachable(s) && s.main != Idle
    ensures Told(s)
  {
    hide Told, Step;
    var states, events :| RunEndsIn(states, events, s);
    RunIsTold(states, events, |events|);
  }

  lemma ToldAtReturn(s: State)
    requires Inv(s) && Told(s) && s.main.Return?
    ensures Tells(FromMain(s.log.messages),
                  s.job.kind == SingleScan && (s.main.cause == Completed || s.main.cause == SaveFailed),
                  s.log.written, true)
  {
    hide Threads, Records, Signals, FromMain, Tells;
    assert s.log.written[..s.local.saved] == s.log.written;
  }

  lemma TellsAll(told: seq<Message>, data: bool, names: seq<string>)
    requires Tells(told, data, names, true)
    ensures WholeStory(told, data, names)
  {
    var d, init := if data then 1 else 0, told[..|told| - 1];
    forall i | 0 <= i < |names| ensures told[d + i] == FileCreated(names[i]) {
      assert told[d + i] == init[d + i] == Announcing(names)[i];
    }
    assert data ==> told[0] == init[0];
  }

  // ----- what counts as an abort

  /** The listener of the current call has received something. */
  ghost predicate Received(states: seq<State>, events: seq<Event>, n: nat)
    requires IsRun(states, events) && n <= |events|
  {
    n > 0
    && match events[n - 1]
       case StartCall(_) => false
       case ListenerStep(answer, _) =>
         Received(states, events, n - 1) || (states[n - 1].listener == Receive && answer == Good)
       case _ => Received(states, events, n - 1)
  }

  lemma StepReceives(s: State, e: Event, t: State)
    requires Step(s, e, t) && t.main != Idle
    ensures match e
            case StartCall(_) => !t.log.abortReceived
            case ListenerStep(answer, _) =>
              t.log.abortReceived == (s.log.abortReceived || (s.listener == Receive && answer == Good))
            case MainStep(_, _) =>
              t.log.abortReceived == (s.main != SpawnListener && s.log.abortReceived)
            case _ => t.log.abortReceived == s.log.abortReceived
  {
    hide StepReporter, StepPrelude, StepExpose, StepSave, StepRelease, StepFinish;
    match e {
      case StartCall(_) =>
      case MainStep(answer, text) => MainReceivesNothing(s, answer, text, t);
      case ReporterStep(spurious) => ReporterTouches(s, spurious, t);
      case ListenerStep(answer, newFd) =>
    }
  }

  lemma MainReceivesNothing(s: State, answer: Answer, text: string, t: State)
    requires StepMain(s, answer, text, t)
    ensures t.log.abortReceived == (s.main != SpawnListener && s.log.abortReceived)
  {
    hide StepExpose, StepSave, StepRelease, StepFinish;
    if InExposure(s.main) {
      ExposureTouches(s, answer, t);
    } else if InSave(s.main) {
      SaveStaysInPlace(s, answer, text, t);
    } else if InRelease(s.main) {
      ReleaseTouches(s, answer, t);
    } else if !InPrelude(s.main) {
      FinishTouches(s, t);
    }
  }

  /** An abort has been received exactly if the listener of this call has got an answer to its `recv`. */
  lemma {:induction false} AbortIsWhatWasReceived(states: seq<State>, events: seq<Event>, n: nat)
    requires IsRun(states, events) && n <= |events| && states[n].main != Idle
    ensures states[n].log.abortReceived <==> Received(states, events, n)
    ensures states[n].main == ResetFd || states[n].main == SpawnListener ==> !Received(states, events, n)
  {
    hide Inv, Step;
    if n == 0 {
    } else {
      var s, e, t := states[n - 1], events[n - 1], states[n];
      RunKeepsInv(states, events, n - 1);
      StepReceives(s, e, t);
      StartOfCall(s, e, t);
      if s.main != Idle {
        AbortIsWhatWasReceived(states, events, n - 1);
      }
    }
  }

  /** A call begins with two steps of main before which nobody listens. */
  lemma StartOfCall(s: State, e: Event, t: State)
    requires Inv(s) && Step(s, e, t) && t.main != Idle
    ensures s.main == Idle ==> e.StartCall?
    ensures e.ListenerStep? ==> s.main != ResetFd && s.main != SpawnListener && t.main == s.main
    ensures t.main == ResetFd ==> e.StartCall? || s.main == ResetFd
    ensures t.main == SpawnListener ==> s.main == ResetFd || s.main == SpawnListener
  {
    assert s.main == Idle || s.main == ResetFd || s.main == SpawnListener ==>
        s.listener == NoListener && s.reporter == NoReporter;
    hide StepMain, StepReporter, StepListener, Inv;
    match e {
      case StartCall(_) =>
      case MainStep(answer, text) =>
        IdleMainDoesNothing(s, answer, text, t);
        OnlyResetSpawns(s, answer, text, t);
      case ReporterStep(spurious) => ReporterTouches(s, spurious, t);
      case ListenerStep(answer, newFd) => ListenerTouches(s, answer, newFd, t);
    }
  }

  lemma OnlyResetSpawns(s: State, answer: Answer, text: string, t: State)
    requires StepMain(s, answer, text, t)
    ensures t.main != ResetFd && (t.main == SpawnListener ==> s.main == ResetFd)
  {
    hide StepExpose, StepSave, StepRelease, StepFinish;
    if InExposure(s.main) {
      ExposureTouches(s, answer, t);
    } else if InSave(s.main) {
      SaveStaysInPlace(s, answer, text, t);
    } else if InRelease(s.main) {
      ReleaseTouches(s, answer, t);
    } else if !InPrelude(s.main) {
      FinishTouches(s, t);
    }
  }

  // ----- the names of the files

  /** The generic names for which the current call has allocated file names. */
  ghost function Prefixes(states: seq<State>, events: seq<Event>, n: nat): seq<string>
    requires IsRun(states, events) && n <= |events|
  {
    if n == 0 then [] else PrefixesAfter(states[n - 1].main, events[n - 1], Prefixes(states, events, n - 1))
  }

  function PrefixesAfter(pc: MainPc, e: Event, prefixes: seq<string>): seq<string> {
    match e
    case StartCall(_) => []
    case MainStep(answer, text) => prefixes + if pc == SaveName && answer == Good then [text] else []
    case _ => prefixes
  }

  /** A save has failed, perhaps with a file left behind. */
  predicate SaveHasFailed(pc: MainPc) {
    pc == SaveError || Exits(pc, SaveFailed)
  }

  /** The files of the call carry the consecutive indices from k on. */
  ghost predicate Numbered(s: State, prefix: string) {
    var n, k := |s.log.written|, FitsFilenames.NextIndex(prefix, Listing(s.log.filesBefore));
    && s.log.written == FitsFilenames.NamesFrom(prefix, k, n)
    && (!SaveHasFailed(s.main) ==>
          && s.world.files == s.log.filesBefore + s.log.written
          && FitsFilenames.NextIndex(prefix, Listing(s.world.files)) == k + n)
    && (s.main == SaveWrite ==>
          s.local.name == FitsFilenames.NameWithIndex(prefix, k + n) && k + n <= CString.INT_MAX)
  }

  lemma ListingOneMore(files: seq<string>, name: string)
    ensures Listing(files + [name]) == if FitsFilenames.HasSlash(name) then Listing(files) else Listing(files) + [name]
  {
    assert (files + [name])[..|files|] == files;
  }

  /** One more file under the next index. */
  lemma NextNumber(prefix: string, files: seq<string>, m: nat)
    requires FitsFilenames.NextIndex(prefix, Listing(files)) == m <= CString.INT_MAX && !FitsFilenames.HasSlash(prefix)
    ensures FitsFilenames.NextIndex(prefix, Listing(files + [FitsFilenames.NameWithIndex(prefix, m)])) == m + 1
  {
    var name, entries := FitsFilenames.NameWithIndex(prefix, m), Listing(files);
    FitsFilenames.NameHasSlashIffPrefixHas(prefix, m);
    ListingOneMore(files, name);
    FitsFilenames.GeneratedNameMatches(prefix, m);
    hide FitsFilenames.Matches, FitsFilenames.IndexOf, FitsFilenames.NameWithIndex, Listing, FitsFilenames.HasSlash;
    assert (entries + [name])[..|entries|] == entries;
  }

  lemma WriteNumbers(s: State, t: State, prefix: string)
    requires Numbered(s, prefix) && s.main == SaveWrite && !FitsFilenames.HasSlash(prefix)
    requires t.main == SaveReport && t.log.filesBefore == s.log.filesBefore
    requires t.log.written == s.log.written + [s.local.name] && t.world.files == s.world.files + [s.local.name]
    ensures Numbered(t, prefix)
  {
    hide FitsFilenames.NextIndex, FitsFilenames.NameWithIndex, Listing, FitsFilenames.HasSlash;
    var n, k := |s.log.written|, FitsFilenames.NextIndex(prefix, Listing(s.log.filesBefore));
    NextNumber(prefix, s.world.files, k + n);
    assert FitsFilenames.NamesFrom(prefix, k, n + 1)
        == FitsFilenames.NamesFrom(prefix, k, n) + [FitsFilenames.NameWithIndex(prefix, k + n)];
    hide FitsFilenames.NamesFrom;
    assert t.world.files == s.log.filesBefore + t.log.written;
  }

  lemma SaveKeepsNumbers(s: State, answer: Answer, text: string, t: State, prefix: string)
    requires Numbered(s, prefix) && !FitsFilenames.HasSlash(prefix) && StepSave(s, answer, text, t)
    requires s.main == SaveName && answer == Good ==> text == prefix
    ensures Numbered(t, prefix)
  {
    hide Listing, FitsFilenames.NoOverflow, FitsFilenames.NextIndex, FitsFilenames.NameWithIndex,
      FitsFilenames.NamesFrom, FitsFilenames.HasSlash, DoneImage;
    if s.main == SaveName && answer == Good {
      FitsFilenames.NextIndexInRange(prefix, Listing(s.world.files));
    } else if s.main == SaveWrite && answer == Good {
      hide Numbered;
      WriteNumbers(s, t, prefix);
    }
  }

  /** A step that touches neither the files nor their record. */
  ghost predicate LeavesFiles(s: State, t: State) {
    && t.world.files == s.world.files && t.log.written == s.log.written && t.log.filesBefore == s.log.filesBefore
    && t.main != SaveWrite && (SaveHasFailed(s.main) ==> SaveHasFailed(t.main))
  }

  lemma PreludeLeavesFiles(s: State, t: State)
    requires StepPrelude(s, t)
    ensures LeavesFiles(s, t)
  {
  }

  lemma ExposureLeavesFiles(s: State, answer: Answer, t: State)
    requires StepExpose(s, answer, t)
    ensures LeavesFiles(s, t)
  {
  }

  lemma ReleaseLeavesFiles(s: State, answer: Answer, t: State)
    requires StepRelease(s, answer, t)
    ensures LeavesFiles(s, t)
  {
    ReleaseTouches(s, answer, t);
    hide StepRelease;
  }

  lemma FinishLeavesFiles(s: State, t: State)
    requires StepFinish(s, t) && t.main != Idle
    ensures LeavesFiles(s, t)
  {
    FinishTouches(s, t);
    hide StepFinish;
  }

  lemma OutsideSave(s: State, answer: Answer, text: string, t: State)
    requires StepMain(s, answer, text, t) && !InSave(s.main) && t.main != Idle
    ensures LeavesFiles(s, t)
  {
    hide LeavesFiles, StepPrelude, StepExpose, StepRelease, StepFinish;
    if InPrelude(s.main) {
      PreludeLeavesFiles(s, t);
    } else if InExposure(s.main) {
      ExposureLeavesFiles(s, answer, t);
    } else if InRelease(s.main) {
      ReleaseLeavesFiles(s, answer, t);
    } else {
      FinishLeavesFiles(s, t);
    }
  }

  lemma OthersLeaveFiles(s: State, e: Event, t: State)
    requires Step(s, e, t) && (e.ReporterStep? || e.ListenerStep?)
    ensures t.main == s.main && t.world.files == s.world.files && t.local.name == s.local.name
    ensures t.log.written == s.log.written && t.log.filesBefore == s.log.filesBefore
  {
    hide StepReporter, StepListener;
    match e {
      case ReporterStep(spurious) => ReporterTouches(s, spurious, t);
      case ListenerStep(answer, newFd) => ListenerTouches(s, answer, newFd, t);
    }
  }

  lemma BeginNumbers(s: State, job: Job, prefix: string)
    ensures Numbered(Begin(s, job), prefix)
  {
  }

  lemma StepNumbers(s: State, e: Event, t: State, prefix: string)
    requires Step(s, e, t) && t.main != Idle && !FitsFilenames.HasSlash(prefix)
    requires s.main != Idle ==> Numbered(s, prefix)
    requires e.MainStep? && s.main == SaveName && e.answer == Good ==> e.text == prefix
    ensures Numbered(t, prefix)
  {
    hide StepMain, StepReporter, StepListener, Begin, FitsFilenames.NextIndex, FitsFilenames.NameWithIndex,
      FitsFilenames.NamesFrom, FitsFilenames.HasSlash, Listing;
    if e.StartCall? {
      BeginNumbers(s, e.job, prefix);
    } else if e.MainStep? {
      IdleMainDoesNothing(s, e.answer, e.text, t);
      if InSave(s.main) {
        hide Numbered;
        MainSaves(s, e.answer, e.text, t);
        SaveKeepsNumbers(s, e.answer, e.text, t, prefix);
      } else {
        OutsideSave(s, e.answer, e.text, t);
      }
    } else {
      OthersKeepPlace(s, e, t);
      OthersLeaveFiles(s, e, t);
    }
  }

  lemma MainSaves(s: State, answer: Answer, text: string, t: State)
    requires StepMain(s, answer, text, t) && InSave(s.main)
    ensures StepSave(s, answer, text, t)
  {
    hide StepSave;
  }

  ghost predicate AllAre(prefixes: seq<string>, prefix: string) {
    forall i :: 0 <= i < |prefixes| ==> prefixes[i] == prefix
  }

  lemma AllAreBefore(pc: MainPc, e: Event, prefixes: seq<string>, prefix: string)
    requires AllAre(PrefixesAfter(pc, e, prefixes), prefix)
    ensures !e.StartCall? ==> AllAre(prefixes, prefix)
    ensures e.MainStep? && pc == SaveName && e.answer == Good ==> e.text == prefix
  {
    var after := PrefixesAfter(pc, e, prefixes);
    if !e.StartCall? {
      assert forall i :: 0 <= i < |prefixes| ==> prefixes[i] == after[i];
      assert e.MainStep? && pc == SaveName && e.answer == Good ==> after[|prefixes|] == e.text;
    }
  }

  /** The files a call writes under one generic name without '/' carry consecutive indices, beginning with the next one
      that was free in the save directory before the call. */
  lemma {:induction false} FilesAreNumbered(states: seq<State>, events: seq<Event>, n: nat, prefix: string)
    requires IsRun(states, events) && n <= |events| && states[n].main != Idle
    requires !FitsFilenames.HasSlash(prefix) && AllAre(Prefixes(states, events, n), prefix)
    ensures Numbered(states[n], prefix)
  {
    hide Step, Numbered, AllAre, PrefixesAfter, FitsFilenames.HasSlash;
    if n == 0 {
    } else {
      var s, e, t := states[n - 1], events[n - 1], states[n];
      AllAreBefore(s.main, e, Prefixes(states, events, n - 1), prefix);
      OnlyStartCallLeavesIdle(s, e, t);
      if s.main != Idle && !e.StartCall? {
        FilesAreNumbered(states, events, n - 1, prefix);
      }
      StepNumbers(s, e, t, prefix);
    }
  }

  lemma OnlyStartCallLeavesIdle(s: State, e: Event, t: State)
    requires Step(s, e, t) && t.main != Idle
    ensures s.main == Idle <==> e.StartCall?
  {
    hide StepMain, StepReporter, StepListener;
    if e.MainStep? {
      IdleMainDoesNothing(s, e.answer, e.text, t);
    } else if !e.StartCall? {
      OthersKeepPlace(s, e, t);
    }
  }

  // ----- the camera

  /** The camera after a step of main in a call of the given kind: on after a successful start; off once it is told to
      stop, as `save_as_fits` does too when it finds no name; and off after the exposure of a single scan. */
  predicate CameraAfter(on: bool, kind: Kind, pc: MainPc, answer: Answer) {
    if pc.StartAcquisition? then on || answer == Good
    else if pc.AbortAcquisition? || pc.SaveNameFailed? then false
    else if pc.WaitForAcquisition? && answer == Good && kind == SingleScan then false
    else on
  }

  /** Whether the camera is on after the first n events of a run. */
  ghost predicate CameraOn(states: seq<State>, events: seq<Event>, n: nat)
    requires IsRun(states, events) && n <= |events|
  {
    n > 0
    && match events[n - 1]
       case MainStep(answer, _) =>
         CameraAfter(CameraOn(states, events, n - 1), states[n - 1].job.kind, states[n - 1].main, answer)
       case _ => CameraOn(states, events, n - 1)
  }

  lemma MainDrivesCamera(s: State, answer: Answer, text: string, t: State)
    requires StepMain(s, answer, text, t)
    ensures t.world.exposing == CameraAfter(s.world.exposing, s.job.kind, s.main, answer)
  {
    if InPrelude(s.main) {
      hide StepExpose, StepSave, StepRelease, StepFinish;
    } else if InExposure(s.main) {
      hide StepPrelude, StepSave, StepRelease, StepFinish;
    } else if InSave(s.main) {
      hide StepPrelude, StepExpose, StepRelease, StepFinish, Listing, FitsFilenames.NextName, FitsFilenames.NoOverflow,
        DoneImage;
    } else if InRelease(s.main) {
      hide StepPrelude, StepExpose, StepSave, StepFinish;
    } else {
      FinishTouches(s, t);
      hide StepPrelude, StepExpose, StepSave, StepRelease, StepFinish;
    }
  }

  lemma OthersLeaveCamera(s: State, e: Event, t: State)
    requires Step(s, e, t) && !e.MainStep?
    ensures t.world.exposing == s.world.exposing
  {
    hide StepReporter;
    match e {
      case StartCall(_) =>
      case ReporterStep(spurious) => ReporterTouches(s, spurious, t);
      case ListenerStep(answer, newFd) =>
    }
  }

  /** The camera is on exactly if it has been started and not stopped since. */
  lemma {:induction false} CameraIsOnExactlyWhen(states: seq<State>, events: seq<Event>, n: nat)
    requires IsRun(states, events) && n <= |events|
    ensures states[n].world.exposing <==> CameraOn(states, events, n)
  {
    hide StepMain, StepReporter, StepListener, CameraAfter;
    if n == 0 {
    } else {
      CameraIsOnExactlyWhen(states, events, n - 1);
      var s, e, t := states[n - 1], events[n - 1], states[n];
      assert Step(s, e, t);
      if e.MainStep? {
        MainDrivesCamera(s, e.answer, e.text, t);
      } else {
        OthersLeaveCamera(s, e, t);
      }
    }
  }

  /** The current call has told the camera to stop. */
  ghost predicate ToldToStop(states: seq<State>, events: seq<Event>, n: nat)
    requires IsRun(states, events) && n <= |events|
  {
    n > 0
    && match events[n - 1]
       case StartCall(_) => false
       case MainStep(_, _) => ToldToStop(states, events, n - 1) || states[n - 1].main.AbortAcquisition?
       case _ => ToldToStop(states, events, n - 1)
  }

  /** Places of main behind `AbortAcquisition`. */
  predicate BehindStop(pc: MainPc, kind: Kind) {
    if pc.UnlockSeries? then pc.cause != Completed
    else if pc.Shutdown? || pc.JoinReporter? || pc.JoinListener? then
      pc.cause == StartFailed || pc.cause == WaitFailed || (kind == RunTillAbort && pc.cause != Completed)
    else if pc.SendDone? then pc.cause != StartFailed && pc.cause != Completed
    else pc.Return? && (kind == RunTillAbort || (pc.cause != Completed && pc.cause != SaveFailed))
  }

  lemma StopComesFirst(s: State, e: Event, t: State)
    requires Inv(s) && Step(s, e, t) && t.main != Idle && BehindStop(t.main, t.job.kind)
    ensures !e.StartCall? && (BehindStop(s.main, s.job.kind) || (e.MainStep? && s.main.AbortAcquisition?))
  {
    assert s.main != Idle ==> PlaceExists(s.main, s.job.kind);
    hide StepReporter, StepListener, StepPrelude, StepExpose, StepSave, StepRelease, StepFinish, Inv;
    match e {
      case StartCall(_) =>
      case MainStep(answer, text) => MainStopsFirst(s, answer, text, t);
      case ReporterStep(_) => OthersKeepPlace(s, e, t);
      case ListenerStep(_, _) => OthersKeepPlace(s, e, t);
    }
  }

  lemma ReleaseStopsFirst(s: State, answer: Answer, t: State)
    requires PlaceExists(s.main, s.job.kind) && StepRelease(s, answer, t) && BehindStop(t.main, t.job.kind)
    ensures BehindStop(s.main, s.job.kind) || s.main.AbortAcquisition?
  {
    ReleaseTouches(s, answer, t);
    hide StepRelease;
  }

  lemma FinishStopsFirst(s: State, t: State)
    requires PlaceExists(s.main, s.job.kind) && StepFinish(s, t) && BehindStop(t.main, t.job.kind)
    ensures BehindStop(s.main, s.job.kind) || s.main.AbortAcquisition?
  {
    FinishTouches(s, t);
    hide StepFinish;
  }

  lemma OthersAreNotBehind(s: State, answer: Answer, text: string, t: State)
    requires StepMain(s, answer, text, t) && (InPrelude(s.main) || InExposure(s.main) || InSave(s.main))
    ensures !BehindStop(t.main, t.job.kind)
  {
    if InPrelude(s.main) {
      hide StepExpose, StepSave;
    } else if InExposure(s.main) {
      ExposureTouches(s, answer, t);
      hide StepPrelude, StepExpose, StepSave;
    } else {
      SaveStaysInPlace(s, answer, text, t);
      hide StepPrelude, StepExpose, StepSave;
    }
  }

  lemma MainStopsFirst(s: State, answer: Answer, text: string, t: State)
    requires PlaceExists(s.main, s.job.kind) && StepMain(s, answer, text, t) && BehindStop(t.main, t.job.kind)
    ensures BehindStop(s.main, s.job.kind) || s.main.AbortAcquisition?
  {
    hide StepPrelude, StepExpose, StepSave, StepRelease, StepFinish, PlaceExists, BehindStop;
    if InRelease(s.main) {
      ReleaseStopsFirst(s, answer, t);
    } else if InPrelude(s.main) || InExposure(s.main) || InSave(s.main) {
      OthersAreNotBehind(s, answer, text, t);
    } else {
      FinishStopsFirst(s, t);
    }
  }

  lemma {:induction false} StopsWhereNeeded(states: seq<State>, events: seq<Event>, n: nat)
    requires IsRun(states, events) && n <= |events| && BehindStop(states[n].main, states[n].job.kind)
    ensures ToldToStop(states, events, n)
  {
    hide Step, Inv, BehindStop;
    if n == 0 {
      NotBehindYet(states[0]);
    } else {
      RunKeepsInv(states, events, n - 1);
      NeverBehindIdle(states[n]);
      StopComesFirst(states[n - 1], events[n - 1], states[n]);
      if BehindStop(states[n - 1].main, states[n - 1].job.kind) {
        StopsWhereNeeded(states, events, n - 1);
      }
    }
  }

  lemma NotBehindYet(s: State)
    requires Initial(s)
    ensures !BehindStop(s.main, s.job.kind)
  {
  }

  lemma NeverBehindIdle(s: State)
    requires BehindStop(s.main, s.job.kind)
    ensures s.main != Idle
  {
  }

  /** Every call that does not succeed stops the camera before it returns, and so does every series; only a single scan
      that has got its data need not. */
  lemma CameraIsStopped(states: seq<State>, events: seq<Event>)
    requires IsRun(states, events) && states[|events|].main.Return?
    requires var s := states[|events|];
             s.job.kind == RunTillAbort || (s.main.cause != Completed && s.main.cause != SaveFailed)
    ensures ToldToStop(states, events, |events|)
  {
    StopsWhereNeeded(states, events, |events|);
  }
}
