/** The headers `setup_acquisition` (src/set_acquisition.cpp) adds for every acquisition, and which of them get past the
    headers that came from the telescope. */
module SetupHeaders {
  import opened CString
  import opened FitsKeys
  import opened FitsHeader
  import opened FitsHeaderRuns
  import opened ImageParameters
  import Cards

  /** What the camera answers while an acquisition is set up. */
  datatype Camera = Camera(
    readMode: bool,
    acquisitionMode: bool,
    speeds: Option<(real, real)>,
    shutter: bool,
    detector: Option<(int, int)>,
    exposure: Option<real>,
    gain: Option<real>,
    timeCorrection: int,
    temperature: Option<real>)

  // ----- what can be stored

  predicate FitsField(text: string, size: nat) {
    '\0' !in text && |text| < size
  }

  predicate Storable(h: Header) {
    && FitsField(h.key, KEYNAME_CHARS) && h.key != [] && h.key[0] != ' ' && h.key[|h.key| - 1] != ' '
    && FitsField(h.comment, COMMENT_CHARS) && (h.value.TText? ==> FitsField(h.value.s, VALUE_CHARS))
  }

  /** The texts of the parameters fit the fields of a header. */
  predicate TextsFit(s: Settings, observer: string) {
    FitsField(observer, VALUE_CHARS) && FitsField(s.objectName, VALUE_CHARS) && FitsField(s.filterName, VALUE_CHARS)
  }

  // ----- the single headers

  /** Two pieces of a comment. */
  function Line(a: string, b: string): (line: string)
    requires '\0' !in a && '\0' !in b
    ensures '\0' !in line && |line| == |a| + |b|
  {
    a + b
  }

  function HsSpeed(speed: real): (h: Header)
    ensures Storable(h) && h.key == "HSSPEED" && h.value == TFloat(speed)
  {
    Header("HSSPEED", Line(Line("Horizontal Shift Speed ", "(microsec / pixel shift) "), "in MHz"), TFloat(speed))
  }

  function VsSpeed(speed: real): (h: Header)
    ensures Storable(h) && h.key == "VSSPEED" && h.value == TFloat(speed)
  {
    Header("VSSPEED", Line("Vertical Shift Speed ", "(microsec / pixel shift)"), TFloat(speed))
  }

  function Gain(factor: real): (h: Header)
    ensures Storable(h) && h.key == "GAIN" && h.value == TFloat(factor)
  {
    Header("GAIN", "Pre-Amp Gain Factor", TFloat(factor))
  }

  function Observer(name: string): (h: Header)
    requires FitsField(name, VALUE_CHARS)
    ensures Storable(h) && h.key == "OBSERVER" && h.value == TText(name)
  {
    Header("OBSERVER", "Observer name/id", TText(name))
  }

  function Exposed(seconds: real): (h: Header)
    ensures Storable(h) && h.key == "EXPOSED" && h.value == TFloat(seconds)
  {
    Header("EXPOSED", Line("Requested exposure time ", "(sec)"), TFloat(seconds))
  }

  function ExpTime(seconds: real): (h: Header)
    ensures Storable(h) && h.key == "EXPTIME" && h.value == TFloat(seconds)
  {
    Header("EXPTIME", Line("Requested exposure time ", "(sec)"), TFloat(seconds))
  }

  function VertBin(bin: int): (h: Header)
    ensures Storable(h) && h.key == "VBIN" && h.value == TInt(bin)
  {
    Header("VBIN", "Vertical binning", TInt(bin))
  }

  function HorzBin(bin: int): (h: Header)
    ensures Storable(h) && h.key == "HBIN" && h.value == TInt(bin)
  {
    Header("HBIN", "Horizontal Binning", TInt(bin))
  }

  function Instrument(): (h: Header)
    ensures Storable(h) && h.key == "INSTRUME" && h.value == TText("ANDOR2048x2048_BV")
  {
    Header("INSTRUME", Line("Instrument used to ", "acquire data"), TText("ANDOR2048x2048_BV"))
  }

  function Object(name: string): (h: Header)
    requires FitsField(name, VALUE_CHARS)
    ensures Storable(h) && h.key == "OBJECT" && h.value == TText(name)
  {
    Header("OBJECT", "Object identifier", TText(name))
  }

  function Filter(name: string): (h: Header)
    requires FitsField(name, VALUE_CHARS)
    ensures Storable(h) && h.key == "FILTER" && h.value == TText(name)
  {
    Header("FILTER", "Filter used", TText(name))
  }

  function TimeCorr(nanosec: int): (h: Header)
    ensures Storable(h) && h.key == "TIMECORR" && h.value == TLong(nanosec)
  {
    Header("TIMECORR", Line("Timming correction ", "already applied (nanosec)"), TLong(nanosec))
  }

  function CcdTemp(degrees: real): (h: Header)
    ensures Storable(h) && h.key == "CCDTEMP" && h.value == TFloat(degrees)
  {
    Header("CCDTEMP", Line("CCD temp at start of ", "exposure degC"), TFloat(degrees))
  }

  /** The headers added before the gain is asked for. */
  function SpeedHeaders(vsspeed: real, hsspeed: real): seq<Header> {
    [HsSpeed(hsspeed), VsSpeed(vsspeed)]
  }

  function GainHeaders(gain: real): seq<Header> {
    if gain >= 0.0 then [Gain(gain)] else []
  }

  function JobHeaders(s: Settings, observer: string, exposure: real, timeCorrection: int): (hs: seq<Header>)
    requires TextsFit(s, observer)
    ensures |hs| == 9
  {
    [Observer(observer), Exposed(exposure), ExpTime(exposure), VertBin(s.vbin), HorzBin(s.hbin), Instrument(),
     Object(s.objectName), Filter(s.filterName), TimeCorr(timeCorrection)]
  }

  function TemperatureHeaders(temperature: Option<real>): seq<Header> {
    if temperature.Some? then [CcdTemp(temperature.value)] else []
  }

  /** All of them, in order. */
  function OwnHeaders(s: Settings, observer: string, c: Camera): seq<Header>
    requires TextsFit(s, observer) && c.speeds.Some? && c.exposure.Some? && c.gain.Some?
  {
    SpeedHeaders(c.speeds.value.0, c.speeds.value.1) + GainHeaders(c.gain.value)
    + JobHeaders(s, observer, c.exposure.value, c.timeCorrection) + TemperatureHeaders(c.temperature)
  }

  lemma StorableKeyIsTrimmed(h: Header)
    requires Storable(h)
    ensures Trim(h.key) == h.key && TrimLeft(h.key) == h.key
  {
  }

  /** `fheaders->update(…)` for one of them. */
  method Add(fheaders: FitsHeaders, h: Header, ghost base: seq<Header>, ghost done: seq<Header>)
    requires fheaders.Valid() && Storable(h) && fheaders.mvec == Fold(base, done)
    modifies fheaders
    ensures fheaders.Valid() && fheaders.mvec == Fold(base, done + [h])
  {
    StorableKeyIsTrimmed(h);
    assert (done + [h])[..|done|] == done;
    hide Trim, TrimLeft, Updated;
    var herror := fheaders.UpdateValue(h.key, h.value, h.comment);
  }

  method AddSpeeds(fheaders: FitsHeaders, vsspeed: real, hsspeed: real)
    requires fheaders.Valid()
    modifies fheaders
    ensures fheaders.Valid() && fheaders.mvec == Fold(old(fheaders.mvec), SpeedHeaders(vsspeed, hsspeed))
  {
    hide Storable, HsSpeed, VsSpeed, Fold;
    ghost var base := fheaders.mvec;
    NothingFolded(base);
    Add(fheaders, HsSpeed(hsspeed), base, []);
    Add(fheaders, VsSpeed(vsspeed), base, [] + [HsSpeed(hsspeed)]);
    assert [] + [HsSpeed(hsspeed)] + [VsSpeed(vsspeed)] == SpeedHeaders(vsspeed, hsspeed);
  }

  lemma NothingFolded(hs: seq<Header>)
    ensures Fold(hs, []) == hs
  {
  }

  method AddJob(fheaders: FitsHeaders, params: AndorParameters, observer: string, exposure: real, timeCorrection: int)
    requires fheaders.Valid() && TextsFit(params.State(), observer)
    modifies fheaders
    ensures fheaders.Valid() && params.State() == old(params.State())
    ensures fheaders.mvec == Fold(old(fheaders.mvec), JobHeaders(params.State(), observer, exposure, timeCorrection))
  {
    hide Storable, FitsField, Observer, Exposed, ExpTime, VertBin, HorzBin, Instrument, Object, Filter, TimeCorr, Fold;
    ghost var base, all := fheaders.mvec, JobHeaders(params.State(), observer, exposure, timeCorrection);
    NothingFolded(base);
    assert all[..0] == [];
    Add(fheaders, Observer(observer), base, all[..0]);
    assert all[..1] == all[..0] + [all[0]];
    Add(fheaders, Exposed(exposure), base, all[..1]);
    assert all[..2] == all[..1] + [all[1]];
    Add(fheaders, ExpTime(exposure), base, all[..2]);
    assert all[..3] == all[..2] + [all[2]];
    Add(fheaders, VertBin(params.vbin), base, all[..3]);
    assert all[..4] == all[..3] + [all[3]];
    Add(fheaders, HorzBin(params.hbin), base, all[..4]);
    assert all[..5] == all[..4] + [all[4]];
    Add(fheaders, Instrument(), base, all[..5]);
    assert all[..6] == all[..5] + [all[5]];
    Add(fheaders, Object(params.objectName), base, all[..6]);
    assert all[..7] == all[..6] + [all[6]];
    Add(fheaders, Filter(params.filterName), base, all[..7]);
    assert all[..8] == all[..7] + [all[7]];
    Add(fheaders, TimeCorr(timeCorrection), base, all[..8]);
    assert all == all[..8] + [all[8]];
  }

  // ----- which of them arrive

  /** Something that tells the keys apart. */
  function Mark(h: Header): (int, char, char)
    requires |h.key| > 3
  {
    (|h.key|, h.key[0], h.key[3])
  }

  ghost predicate Marks(hs: seq<Header>, marks: seq<(int, char, char)>) {
    |marks| == |hs| && forall i :: 0 <= i < |hs| ==> |hs[i].key| > 3 && Mark(hs[i]) == marks[i]
  }

  lemma MarksDiffer(hs: seq<Header>, marks: seq<(int, char, char)>)
    requires Marks(hs, marks) && forall i, j :: 0 <= i < j < |marks| ==> marks[i] != marks[j]
    ensures UniqueKeys(hs)
  {
    forall i, j | 0 <= i < j < |hs| ensures hs[i].key != hs[j].key {
      assert marks[i] != marks[j];
    }
  }

  function OwnMarks(gain: bool, temperature: bool): seq<(int, char, char)> {
    [(7, 'H', 'P'), (7, 'V', 'P')] + (if gain then [(4, 'G', 'N')] else [])
    + [(8, 'O', 'E'), (7, 'E', 'O'), (7, 'E', 'T'), (4, 'V', 'N'), (4, 'H', 'N'), (8, 'I', 'T'),
       (6, 'O', 'E'), (6, 'F', 'T'), (8, 'T', 'E')]
    + if temperature then [(7, 'C', 'T')] else []
  }

  lemma OwnMarksDiffer(gain: bool, temperature: bool)
    ensures var marks := OwnMarks(gain, temperature);
            forall i, j :: 0 <= i < j < |marks| ==> marks[i] != marks[j]
  {
  }

  lemma MarksOfOwn(s: Settings, observer: string, c: Camera)
    requires TextsFit(s, observer) && c.speeds.Some? && c.exposure.Some? && c.gain.Some?
    ensures Marks(OwnHeaders(s, observer, c), OwnMarks(c.gain.value >= 0.0, c.temperature.Some?))
  {
    hide Storable;
  }

  lemma OwnKeysDiffer(s: Settings, observer: string, c: Camera)
    requires TextsFit(s, observer) && c.speeds.Some? && c.exposure.Some? && c.gain.Some?
    ensures UniqueKeys(OwnHeaders(s, observer, c))
  {
    MarksOfOwn(s, observer, c);
    OwnMarksDiffer(c.gain.value >= 0.0, c.temperature.Some?);
    hide OwnHeaders, OwnMarks, Mark;
    MarksDiffer(OwnHeaders(s, observer, c), OwnMarks(c.gain.value >= 0.0, c.temperature.Some?));
  }

  /** The only key among them that is eight characters long and not that of a text. */
  lemma LongNumericKey(s: Settings, observer: string, c: Camera, i: nat)
    requires TextsFit(s, observer) && c.speeds.Some? && c.exposure.Some? && c.gain.Some?
    requires i < |OwnHeaders(s, observer, c)|
    ensures var h := OwnHeaders(s, observer, c)[i];
            !h.value.TText? && |h.key| == 8 <==> h.key == "TIMECORR"
  {
    hide Storable;
  }

  /** Headers as they come out of the card splitter: texts under keys of eight characters. */
  predicate AreCards(hs: seq<Header>) {
    forall i :: 0 <= i < |hs| ==> hs[i].value.TText? && |hs[i].key| == 8
  }

  lemma {:induction false} HeadersAreCards(text: string, n: nat)
    requires Cards.CARD * n <= |text|
    requires forall i :: 0 <= i < n && Cards.IsHeaderCard(Cards.CardAt(text, i)) ==>
               Cards.WellPlaced(Cards.CardAt(text, i))
    ensures AreCards(Cards.Headers(text, n))
  {
    if n == 0 {
    } else {
      hide Cards.WellPlaced, Cards.IsHeaderCard, Cards.CardAt;
      HeadersAreCards(text, n - 1);
    }
  }

  /** The telescope's cards merge completely into an empty store, so that the merge never fails. */
  lemma CardsMergeCompletely(cards: seq<Header>)
    requires AreCards(cards)
    ensures Applied([], cards, true) == cards && Rejections([], cards) == 0
  {
    OneTypeMergesCompletely(cards);
  }

  /** On top of the telescope's cards every header of the daemon's own arrives, except the time correction, which does
      exactly when the telescope has not sent one. */
  lemma OwnHeadersArrive(cards: seq<Header>, s: Settings, observer: string, c: Camera, i: nat)
    requires AreCards(cards) && TextsFit(s, observer) && c.speeds.Some? && c.exposure.Some? && c.gain.Some?
    requires i < |OwnHeaders(s, observer, c)|
    ensures var own := OwnHeaders(s, observer, c);
            Lookup(Fold(Fold([], cards), own), own[i].key) == Some(own[i])
            <==> own[i].key != "TIMECORR" || !FitsHeaderRuns.Holds(cards, "TIMECORR")
  {
    var own := OwnHeaders(s, observer, c);
    OwnKeysDiffer(s, observer, c);
    LongNumericKey(s, observer, c, i);
    hide OwnHeaders;
    OwnHeaderArrivesExactlyWhen(cards, own, i);
    assert FitsHeaderRuns.Holds(cards, own[i].key) ==> |own[i].key| == 8;
  }

  lemma {:induction false} AllAccepted(hs: seq<Header>, more: seq<Header>)
    requires Rejections(hs, more) == 0
    ensures AcceptedIn(hs, more) == more
  {
    if more == [] {
    } else {
      hide Accepts, Fold;
      AllAccepted(hs, more[..|more| - 1]);
    }
  }

  /** The daemon's own texts under keys of eight characters. */
  lemma LongText(s: Settings, observer: string, c: Camera, i: nat)
    requires TextsFit(s, observer) && c.speeds.Some? && c.exposure.Some? && c.gain.Some?
    requires i < |OwnHeaders(s, observer, c)|
    ensures var h := OwnHeaders(s, observer, c)[i];
            h.value.TText? && |h.key| == 8 ==> h == Observer(observer) || h == Instrument()
  {
    hide Storable;
  }

  lemma LongTextsAreThere(s: Settings, observer: string, c: Camera)
    requires TextsFit(s, observer) && c.speeds.Some? && c.exposure.Some? && c.gain.Some?
    ensures Observer(observer) in OwnHeaders(s, observer, c) && Instrument() in OwnHeaders(s, observer, c)
  {
    var job := JobHeaders(s, observer, c.exposure.value, c.timeCorrection);
    assert job[0] == Observer(observer) && job[5] == Instrument();
    hide JobHeaders, SpeedHeaders, GainHeaders, TemperatureHeaders, Observer, Instrument;
  }

  /** What the store holds under a key of the telescope that the daemon uses too. */
  lemma SharedKey(cards: seq<Header>, s: Settings, observer: string, c: Camera, i: nat)
    requires AreCards(cards) && TextsFit(s, observer) && c.speeds.Some? && c.exposure.Some? && c.gain.Some?
    requires i < |OwnHeaders(s, observer, c)| && Holds(cards, OwnHeaders(s, observer, c)[i].key)
    ensures var own := OwnHeaders(s, observer, c);
            Lookup(Fold(Fold([], cards), own), own[i].key)
            == if own[i].key == "TIMECORR" then Lookup(Fold([], cards), "TIMECORR") else Some(own[i])
  {
    OwnKeysDiffer(s, observer, c);
    OwnHeadersArrive(cards, s, observer, c, i);
    hide OwnHeaders, Fold, Find, Accepts;
    DistinctArrive(Fold([], cards), OwnHeaders(s, observer, c), i);
  }

  lemma CardsStored(cards: seq<Header>, key: string)
    requires AreCards(cards)
    ensures Lookup(Fold([], cards), key) == LastOf(cards, key)
  {
    hide AreCards, Lookup, LastOf;
    CardsMergeCompletely(cards);
    AllAccepted([], cards);
    NothingToLookUp(key);
    LookupAfterFold([], cards, [], key);
    assert [] + cards == cards;
  }

  /** Every key of a card is in the store, with the last value sent for it, unless it is one of the two texts the daemon
      writes under keys of eight characters. */
  lemma CardsArrive(cards: seq<Header>, s: Settings, observer: string, c: Camera, key: string)
    requires AreCards(cards) && TextsFit(s, observer) && c.speeds.Some? && c.exposure.Some? && c.gain.Some?
    requires Holds(cards, key)
    ensures Lookup(Fold(Fold([], cards), OwnHeaders(s, observer, c)), key)
         == if key == "OBSERVER" then Some(Observer(observer))
            else if key == "INSTRUME" then Some(Instrument())
            else LastOf(cards, key)
  {
    var store, own := Fold([], cards), OwnHeaders(s, observer, c);
    CardsStored(cards, key);
    LongTextsAreThere(s, observer, c);
    hide OwnHeaders, Observer, Instrument, Fold, LastOf, Lookup;
    if exists i :: 0 <= i < |own| && own[i].key == key {
      var i :| 0 <= i < |own| && own[i].key == key;
      SharedKey(cards, s, observer, c, i);
      LongNumericKey(s, observer, c, i);
      LongText(s, observer, c, i);
    } else {
      OthersDoNotMatter(store, own, cards[Find(cards, key)]);
    }
  }
}
