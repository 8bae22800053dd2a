/** What the camera and the file system answer decides how a call ends. The answers are read off the events of a run,
    whatever main does with them. */
module AcquisitionAnswers {
  import opened Acquisition
  import opened AcquisitionInvariant
  import opened AcquisitionPreservation
  import FitsFilenames

  /** A question main has put to the camera or the file system, named by main's place, and whether the answer was the
      one hoped for. */
  datatype Call = Call(place: MainPc, good: bool)

  /** Main asks here. */
  predicate Asks(pc: MainPc) {
    || pc.StartAcquisition? || pc.WaitForAcquisition? || pc.PollNewImages? || pc.FetchImage? || pc.GetAcquiredData?
    || pc.SaveName? || pc.SaveWrite?
  }

  /** The call a step of main adds to the record. Asking for new images once more is not a new call, and only the ten
      seconds running out make that one fail. */
  function Asked(pc: MainPc, answer: Answer): (calls: seq<Call>)
    ensures |calls| <= 1
  {
    if pc.PollNewImages? then
      match answer
      case Again => []
      case Expired => [Call(pc, false)]
      case _ => [Call(pc, true)]
    else if Asks(pc) then [Call(pc, answer == Good)]
    else []
  }

  /** The record after one more event, which finds main at `pc`. */
  function After(pc: MainPc, e: Event, calls: seq<Call>): seq<Call> {
    match e
    case StartCall(_) => []
    case MainStep(answer, _) => calls + Asked(pc, answer)
    case _ => calls
  }

  /** What the current call has asked, in order, after the first n events of a run. */
  ghost function Calls(states: seq<State>, events: seq<Event>, n: nat): seq<Call>
    requires IsRun(states, events) && n <= |events|
  {
    if n == 0 then [] else After(states[n - 1].main, events[n - 1], Calls(states, events, n - 1))
  }

  /** The i-th question of a call: start the camera, and then, for a single scan, wait, get the data and save them; for
      a series the same for every image, with the wait for its arrival in the buffer. */
  function Question(kind: Kind, i: nat): MainPc {
    if i == 0 then StartAcquisition
    else if kind == SingleScan then
      if i == 1 then WaitForAcquisition
      else if i == 2 then GetAcquiredData
      else if i == 3 then SaveName
      else SaveWrite
    else if i % 5 == 1 then WaitForAcquisition
    else if i % 5 == 2 then PollNewImages
    else if i % 5 == 3 then FetchImage
    else if i % 5 == 4 then SaveName
    else SaveWrite
  }

  /** How many questions a call puts that gets everything it hopes for. */
  function Questions(job: Job): nat {
    if job.kind == SingleScan then 5 else if job.images < 1 then 1 else 1 + 5 * job.images
  }

  /** How a call ends that has not got the answer it hoped for. */
  function EndsAs(place: MainPc): Cause {
    match place
    case StartAcquisition => StartFailed
    case WaitForAcquisition => WaitFailed
    case PollNewImages => NoNewData
    case FetchImage | GetAcquiredData => FetchFailed
    case SaveName | SaveWrite => SaveFailed
    case _ => Completed
  }

  ghost predicate InOrder(kind: Kind, calls: seq<Call>) {
    forall i :: 0 <= i < |calls| ==> calls[i].place == Question(kind, i)
  }

  ghost predicate AllGood(calls: seq<Call>) {
    forall i :: 0 <= i < |calls| ==> calls[i].good
  }

  /** Every answer but the last was the one hoped for. */
  ghost predicate FailsLast(calls: seq<Call>) {
    calls != [] && AllGood(calls[..|calls| - 1]) && !calls[|calls| - 1].good
  }

  // ----- what the record says at each place of main

  /** Main is on its way out because an answer was not the one hoped for. */
  predicate Failing(pc: MainPc) {
    (HasCause(pc) && pc.cause != Completed) || pc.SaveNameFailed? || pc.SaveError?
  }

  function CauseAt(pc: MainPc): Cause
    requires Failing(pc)
  {
    if pc.SaveNameFailed? || pc.SaveError? then SaveFailed else pc.cause
  }

  /** How many questions main has put at a place it reaches without failing. */
  function Position(pc: MainPc, kind: Kind, saved: nat): nat {
    if InPrelude(pc) || pc.StartAcquisition? then 0
    else if pc.LockSeries? || pc.SpawnReporter? then 1
    else if kind == SingleScan then
      match pc
      case WaitForAcquisition => 1
      case UnlockSeries(_) | Shutdown(_) | GetAcquiredData => 2
      case SaveWrite => 4
      case SaveReport | SendDone(_) | Return(_) => 5
      case _ => 3
    else
      match pc
      case PollNewImages => 5 * saved + 2
      case FetchImage => 5 * saved + 3
      case SaveName => 5 * saved + 4
      case SaveWrite => 5 * saved + 5
      case SaveReport => 5 * saved + 6
      case _ => 5 * saved + 1
  }

  ghost predicate Recorded(pc: MainPc, kind: Kind, saved: nat, calls: seq<Call>) {
    && InOrder(kind, calls)
    && if Failing(pc) then FailsLast(calls) && EndsAs(calls[|calls| - 1].place) == CauseAt(pc)
       else AllGood(calls) && |calls| == Position(pc, kind, saved)
  }

  lemma NextGood(kind: Kind, calls: seq<Call>, place: MainPc)
    requires InOrder(kind, calls) && AllGood(calls) && place == Question(kind, |calls|)
    ensures InOrder(kind, calls + [Call(place, true)]) && AllGood(calls + [Call(place, true)])
  {
  }

  lemma NextBad(kind: Kind, calls: seq<Call>, place: MainPc)
    requires InOrder(kind, calls) && AllGood(calls) && place == Question(kind, |calls|)
    ensures InOrder(kind, calls + [Call(place, false)]) && FailsLast(calls + [Call(place, false)])
  {
    assert (calls + [Call(place, false)])[..|calls|] == calls;
  }

  /** Where main asks, the record is as long as the place of the question, and all answers so far were good. */
  lemma AsksInOrder(pc: MainPc, kind: Kind, saved: nat)
    requires Asks(pc) && PlaceExists(pc, kind)
    ensures !Failing(pc) && Question(kind, Position(pc, kind, saved)) == pc
  {
  }

  /** One question: what the answer does to the record. */
  lemma OneQuestion(pc: MainPc, kind: Kind, saved: nat, calls: seq<Call>, answer: Answer)
    requires Asks(pc) && PlaceExists(pc, kind) && Recorded(pc, kind, saved, calls)
    ensures var more := calls + Asked(pc, answer);
            && InOrder(kind, more)
            && (Asked(pc, answer) == [] ==> AllGood(more) && |more| == |calls|)
            && (Asked(pc, answer) == [Call(pc, true)] ==> AllGood(more) && |more| == |calls| + 1)
            && (Asked(pc, answer) == [Call(pc, false)] ==> FailsLast(more) && more[|more| - 1].place == pc)
  {
    AsksInOrder(pc, kind, saved);
    hide Question, InOrder, AllGood, FailsLast, Asked;
    assert calls + [] == calls;
    NextGood(kind, calls, pc);
    NextBad(kind, calls, pc);
  }

  /** Main goes where the record says: on after a good answer, out after another one, and where it does not ask, no
      further in the order of questions. */
  ghost predicate GoesOn(s: State, answer: Answer, t: State) {
    var asked := Asked(s.main, answer);
    && t.job == s.job
    && (Failing(t.main) <==> Failing(s.main) || asked == [Call(s.main, false)])
    && (Failing(t.main) ==> CauseAt(t.main) == if Failing(s.main) then CauseAt(s.main) else EndsAs(s.main))
    && (!Failing(t.main) ==>
          Position(t.main, t.job.kind, t.local.saved) == Position(s.main, s.job.kind, s.local.saved) + |asked|)
  }

  lemma PreludeGoesOn(s: State, answer: Answer, t: State)
    requires StepPrelude(s, t)
    ensures GoesOn(s, answer, t)
  {
  }

  lemma StartGoesOn(s: State, answer: Answer, t: State)
    requires s.main.StartAcquisition? || s.main.LockSeries? || s.main.SpawnReporter?
    requires s.local.saved == 0 && StepExpose(s, answer, t)
    ensures GoesOn(s, answer, t)
  {
  }

  lemma WaitGoesOn(s: State, answer: Answer, t: State)
    requires s.main.WaitForAcquisition? && StepExpose(s, answer, t)
    ensures GoesOn(s, answer, t)
  {
  }

  lemma NextImageGoesOn(s: State, answer: Answer, t: State)
    requires s.job.kind == RunTillAbort && s.main.NextImage? && StepExpose(s, answer, t)
    ensures GoesOn(s, answer, t)
  {
  }

  lemma FetchGoesOn(s: State, answer: Answer, t: State)
    requires s.job.kind == RunTillAbort && (s.main.PollNewImages? || s.main.FetchImage?) && StepExpose(s, answer, t)
    ensures GoesOn(s, answer, t)
  {
  }

  lemma ExposureGoesOn(s: State, answer: Answer, t: State)
    requires PlaceExists(s.main, s.job.kind) && StepExpose(s, answer, t)
    requires BeforeLoop(s.main) ==> s.local.saved == 0
    ensures GoesOn(s, answer, t)
  {
    ExposureTouches(s, answer, t);
    hide GoesOn, StepExpose;
    if s.main.WaitForAcquisition? {
      WaitGoesOn(s, answer, t);
    } else if s.main.StartAcquisition? || s.main.LockSeries? || s.main.SpawnReporter? {
      StartGoesOn(s, answer, t);
    } else if s.main.NextImage? {
      NextImageGoesOn(s, answer, t);
    } else {
      FetchGoesOn(s, answer, t);
    }
  }

  lemma SaveGoesOn(s: State, answer: Answer, text: string, t: State)
    requires StepSave(s, answer, text, t)
    ensures GoesOn(s, answer, t)
  {
    hide Listing, FitsFilenames.NextName, FitsFilenames.NoOverflow, DoneImage;
  }

  lemma ReleaseGoesOn(s: State, answer: Answer, t: State)
    requires PlaceExists(s.main, s.job.kind) && StepRelease(s, answer, t)
    ensures GoesOn(s, answer, t)
  {
    ReleaseTouches(s, answer, t);
    hide StepRelease;
  }

  lemma FinishGoesOn(s: State, answer: Answer, t: State)
    requires PlaceExists(s.main, s.job.kind) && StepFinish(s, t) && t.main != Idle
    ensures GoesOn(s, answer, t)
  {
    FinishTouches(s, t);
    hide StepFinish;
  }

  lemma MainGoesOn(s: State, answer: Answer, text: string, t: State)
    requires Inv(s) && StepMain(s, answer, text, t) && t.main != Idle
    ensures GoesOn(s, answer, t) && PlaceExists(s.main, s.job.kind)
  {
    hide Lifetimes, Records, Signals, StepPrelude, StepExpose, StepSave, StepRelease, StepFinish, GoesOn, PlaceExists;
    if InPrelude(s.main) {
      PreludeGoesOn(s, answer, t);
    } else if InExposure(s.main) {
      ExposureGoesOn(s, answer, t);
    } else if InSave(s.main) {
      SaveGoesOn(s, answer, text, t);
    } else if InRelease(s.main) {
      ReleaseGoesOn(s, answer, t);
    } else {
      FinishGoesOn(s, answer, t);
    }
  }

  /** A step of main keeps the record right. */
  lemma MainKeepsRecord(s: State, answer: Answer, text: string, t: State, calls: seq<Call>)
    requires Inv(s) && StepMain(s, answer, text, t) && t.main != Idle
    requires Recorded(s.main, s.job.kind, s.local.saved, calls)
    ensures Recorded(t.main, t.job.kind, t.local.saved, calls + Asked(s.main, answer))
  {
    MainGoesOn(s, answer, text, t);
    AskedIs(s.main, answer);
    hide Inv, StepMain, PlaceExists, Position, Question, Failing, EndsAs, InOrder, AllGood, FailsLast, Asked, CauseAt;
    if Asks(s.main) {
      AsksInOrder(s.main, s.job.kind, s.local.saved);
      OneQuestion(s.main, s.job.kind, s.local.saved, calls, answer);
    } else {
      assert calls + [] == calls;
    }
  }

  lemma AskedIs(pc: MainPc, answer: Answer)
    ensures Asked(pc, answer) == [] || Asked(pc, answer) == [Call(pc, true)] || Asked(pc, answer) == [Call(pc, false)]
    ensures !Asks(pc) ==> Asked(pc, answer) == []
  {
  }

  /** Reporter and listener put no questions and leave main's place alone. */
  lemma OthersKeepPlace(s: State, e: Event, t: State)
    requires Step(s, e, t) && (e.ReporterStep? || e.ListenerStep?)
    ensures t.main == s.main && t.job == s.job && t.local.saved == s.local.saved
  {
    hide StepReporter, StepListener;
    match e {
      case ReporterStep(spurious) => ReporterTouches(s, spurious, t);
      case ListenerStep(answer, newFd) => ListenerTouches(s, answer, newFd, t);
    }
  }

  lemma NothingAsked(job: Job)
    ensures Recorded(ResetFd, job.kind, 0, [])
  {
  }

  lemma StepKeepsRecord(s: State, e: Event, t: State, calls: seq<Call>)
    requires Inv(s) && Step(s, e, t) && t.main != Idle
    requires s.main != Idle ==> Recorded(s.main, s.job.kind, s.local.saved, calls)
    ensures Recorded(t.main, t.job.kind, t.local.saved, After(s.main, e, calls))
  {
    hide StepMain, StepReporter, StepListener, Inv, Recorded, Asked;
    match e {
      case StartCall(job) => NothingAsked(job);
      case MainStep(answer, text) =>
        IdleMainDoesNothing(s, answer, text, t);
        MainKeepsRecord(s, answer, text, t, calls);
      case _ => OthersKeepPlace(s, e, t);
    }
  }

  lemma {:induction false} RunIsRecorded(states: seq<State>, events: seq<Event>, n: nat)
    requires IsRun(states, events) && n <= |events| && states[n].main != Idle
    ensures Recorded(states[n].main, states[n].job.kind, states[n].local.saved, Calls(states, events, n))
  {
    hide Step, Inv, Recorded, After;
    if n == 0 {
    } else {
      if states[n - 1].main != Idle {
        RunIsRecorded(states, events, n - 1);
      }
      RunKeepsInv(states, events, n - 1);
      StepKeepsRecord(states[n - 1], events[n - 1], states[n], Calls(states, events, n - 1));
    }
  }

  lemma IdleMainDoesNothing(s: State, answer: Answer, text: string, t: State)
    requires StepMain(s, answer, text, t)
    ensures s.main != Idle
  {
    hide StepSave;
  }

  // ----- how a call ends

  /** A returning call has put its questions in the order of its kind, and stopped at the first answer it had not hoped
      for. That answer is its cause; and it has completed exactly when there was none, which takes all its questions. */
  lemma {:induction false} AnswersDecide(states: seq<State>, events: seq<Event>)
    requires IsRun(states, events) && states[|events|].main.Return?
    ensures var s := states[|events|];
            var calls := Calls(states, events, |events|);
            && calls != [] && InOrder(s.job.kind, calls) && AllGood(calls[..|calls| - 1])
            && s.main.cause == (if AllGood(calls) then Completed else EndsAs(calls[|calls| - 1].place))
            && (s.main.cause == Completed <==> AllGood(calls))
            && (s.main.cause == Completed ==> |calls| == Questions(s.job))
  {
    var s := states[|events|];
    var calls := Calls(states, events, |events|);
    RunIsRecorded(states, events, |events|);
    RunKeepsInv(states, events, |events|);
    hide Calls, IsRun, Lifetimes, Records, Signals, Question;
    RecordDecides(s, calls);
  }

  lemma RecordDecides(s: State, calls: seq<Call>)
    requires s.main.Return? && Locks(s) && Counters(s) && Recorded(s.main, s.job.kind, s.local.saved, calls)
    ensures calls != [] && InOrder(s.job.kind, calls) && AllGood(calls[..|calls| - 1])
    ensures s.main.cause == if AllGood(calls) then Completed else EndsAs(calls[|calls| - 1].place)
    ensures s.main.cause == Completed <==> AllGood(calls)
    ensures s.main.cause == Completed ==> |calls| == Questions(s.job)
  {
    hide InOrder;
  }

  // ----- files

  /** How many writes have succeeded. */
  function Writes(calls: seq<Call>): nat {
    if calls == [] then 0
    else
      var last := calls[|calls| - 1];
      Writes(calls[..|calls| - 1]) + if last == Call(SaveWrite, true) then 1 else 0
  }

  lemma OneMoreCall(calls: seq<Call>, pc: MainPc, answer: Answer)
    ensures Writes(calls + Asked(pc, answer)) == Writes(calls) + if pc == SaveWrite && answer == Good then 1 else 0
  {
    var asked := Asked(pc, answer);
    if asked == [] {
      assert calls + asked == calls;
    } else {
      assert (calls + asked)[..|calls|] == calls;
    }
  }

  lemma MainWrites(s: State, answer: Answer, text: string, t: State)
    requires StepMain(s, answer, text, t)
    ensures |t.log.written| == |s.log.written| + if s.main == SaveWrite && answer == Good then 1 else 0
  {
    hide Listing, FitsFilenames.NextName, FitsFilenames.NoOverflow, DoneImage;
  }

  lemma OthersWriteNothing(s: State, e: Event, t: State)
    requires Step(s, e, t) && (e.ReporterStep? || e.ListenerStep?)
    ensures t.log.written == s.log.written
  {
    hide StepReporter, StepListener;
    match e {
      case ReporterStep(spurious) => ReporterTouches(s, spurious, t);
      case ListenerStep(answer, newFd) => ListenerTouches(s, answer, newFd, t);
    }
  }

  lemma StepWrites(s: State, e: Event, t: State, calls: seq<Call>)
    requires Step(s, e, t) && t.main != Idle
    requires s.main != Idle ==> |s.log.written| == Writes(calls)
    ensures |t.log.written| == Writes(After(s.main, e, calls))
  {
    hide StepMain, StepReporter, StepListener, Asked, Writes;
    match e {
      case StartCall(job) => NoWrites();
      case MainStep(answer, text) =>
        IdleMainDoesNothing(s, answer, text, t);
        MainWrites(s, answer, text, t);
        OneMoreCall(calls, s.main, answer);
      case _ =>
        OthersKeepPlace(s, e, t);
        OthersWriteNothing(s, e, t);
    }
  }

  /** At any time a call has written one file for each write that has succeeded. */
  lemma {:induction false} WrittenExactly(states: seq<State>, events: seq<Event>, n: nat)
    requires IsRun(states, events) && n <= |events| && states[n].main != Idle
    ensures |states[n].log.written| == Writes(Calls(states, events, n))
  {
    hide Step, Writes, After;
    if n == 0 {
    } else {
      if states[n - 1].main != Idle {
        WrittenExactly(states, events, n - 1);
      }
      StepWrites(states[n - 1], events[n - 1], states[n], Calls(states, events, n - 1));
    }
  }

  lemma NoWrites()
    ensures Writes([]) == 0
  {
  }

  /** A single scan saves one file exactly when camera and file system have answered all five questions as hoped for,
      and none otherwise. */
  lemma {:induction false} SingleScanSaves(states: seq<State>, events: seq<Event>)
    requires IsRun(states, events) && states[|events|].main.Return? && states[|events|].job.kind == SingleScan
    ensures var s := states[|events|];
            var calls := Calls(states, events, |events|);
            && |s.log.written| == (if AllGood(calls) then 1 else 0)
            && (AllGood(calls) ==> |calls| == 5)
            && NewFiles(s.log.filesBefore, s.world.files, s.log.written) && Created(s.log.messages) == s.log.written
  {
    var s := states[|events|];
    AnswersDecide(states, events);
    RunKeepsInv(states, events, |events|);
    hide IsRun, Calls, Threads, Signals;
    assert s.log.written[..s.local.saved] == s.log.written;
  }
}
