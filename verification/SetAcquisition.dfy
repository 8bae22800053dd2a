/** `setup_acquisition` (src/set_acquisition.cpp): the size of the image, the buffer for it, and the headers of the
    telescope and of the daemon. */
module SetAcquisition {
  import opened Basics
  import opened CString
  import opened FitsHeader
  import opened FitsHeaderRuns
  import opened ImageParameters
  import opened SetupHeaders
  import ImageCommands

  function Abs(x: int): nat {
    if x < 0 then -x else x
  }

  function Quotient(n: nat, m: nat): (q: int)
    requires m > 0
    ensures q >= 0
  {
    n / m
  }

  /** C++ division truncates toward zero. */
  function TruncDiv(a: int, b: int): int
    requires b != 0
  {
    if (a >= 0) == (b > 0) then Quotient(Abs(a), Abs(b)) else -Quotient(Abs(a), Abs(b))
  }

  lemma QuotientBrackets(n: nat, m: nat)
    requires m > 0
    ensures var q := Quotient(n, m);
            q * m <= n < (q + 1) * m && q <= n && (q >= 1 <==> n >= m)
  {
    var q := n / m;
    assert n == q * m + n % m;
    assert (q + 1) * m == q * m + m;
    TimesGrows(1, m, q);
    if q >= 1 {
      TimesGrows(1, q, m);
    }
  }

  lemma QuotientSize(n: nat, m: nat)
    requires m > 0
    ensures 0 <= Quotient(n, m) <= n && (Quotient(n, m) >= 1 <==> n >= m)
  {
    QuotientBrackets(n, m);
  }

  /** The quotient is the one whole number that brackets the dividend from the side of zero. */
  lemma TruncDivBrackets(a: int, b: int)
    requires b != 0
    ensures var q := TruncDiv(a, b);
            && Abs(q) * Abs(b) <= Abs(a) < (Abs(q) + 1) * Abs(b)
            && (q > 0 ==> (a > 0) == (b > 0)) && (q < 0 ==> (a > 0) != (b > 0))
  {
    var t, q := TruncDiv(a, b), Quotient(Abs(a), Abs(b));
    QuotientBrackets(Abs(a), Abs(b));
    TruncDivSign(a, b);
    hide TruncDiv, Abs, Quotient;
    TimesGrows(Abs(t), q, Abs(b));
    TimesGrows(q + 1, Abs(t) + 1, Abs(b));
  }

  lemma TruncDivSign(a: int, b: int)
    requires b != 0
    ensures var q := TruncDiv(a, b);
            && Abs(q) == Quotient(Abs(a), Abs(b))
            && (q > 0 ==> (a > 0) == (b > 0)) && (q < 0 ==> (a > 0) != (b > 0))
  {
    QuotientSize(Abs(a), Abs(b));
    hide Quotient;
  }

  function Span(start: int, end: int): int {
    end - start + 1
  }

  predicate Fits(pixels: int) {
    1 <= pixels <= MAX_PIXELS
  }

  function Width(s: Settings): int
    requires s.hbin != 0
  {
    TruncDiv(Span(s.hstart, s.hend), s.hbin)
  }

  function Height(s: Settings): int
    requires s.vbin != 0
  {
    TruncDiv(Span(s.vstart, s.vend), s.vbin)
  }

  // ----- the size of an accepted image

  /** With positive binning the size is the number of whole bins in the region. */
  lemma SizeOfPositiveBins(start: int, end: int, bin: int)
    requires bin > 0
    ensures var pixels := TruncDiv(Span(start, end), bin);
            Fits(pixels) ==> pixels * bin <= Span(start, end) < (pixels + 1) * bin
  {
    TruncDivBrackets(Span(start, end), bin);
  }

  /** A size that passes the check comes from a positive bin and a region, or from a negative bin and a region that is
      empty by more than one pixel: the check does not tell them apart. */
  lemma SizeFitsExactlyWhen(start: int, end: int, bin: int)
    requires bin != 0 && 1 <= start < MAX_PIXELS && 1 < end <= MAX_PIXELS
    ensures Fits(TruncDiv(Span(start, end), bin))
       <==> (if bin > 0 then Span(start, end) >= bin else Span(start, end) <= bin)
  {
    hide Quotient;
    QuotientSize(Abs(Span(start, end)), Abs(bin));
  }

  /** Such a reversed region is accepted by the command and by the check. */
  lemma ReversedRegionPasses(s: Settings)
    requires s.hbin == -1 && s.hstart == 2000 && s.hend == 1000
    requires s.vbin == 1 && s.vstart == 1 && s.vend == 2048 && !BelowZero(s.exposure)
    ensures InRange(s) && Width(s) == 999 && Fits(Width(s)) && Fits(Height(s)) && s.hend < s.hstart
  {
  }

  lemma ProductFits(width: int, height: int)
    requires Fits(width) && Fits(height)
    ensures 1 <= width * height <= 0x40_0000
  {
    TimesGrows(width, MAX_PIXELS, height);
    TimesGrows(1, width, height);
  }

  /** One side of the image: when its size fits, and what a fitting size covers. */
  ghost predicate SideIs(pixels: int, start: int, end: int, bin: int) {
    && (Fits(pixels) <==> if bin > 0 then Span(start, end) >= bin else Span(start, end) <= bin)
    && (Fits(pixels) && bin > 0 ==> pixels * bin <= Span(start, end) < (pixels + 1) * bin)
  }

  lemma OneSide(start: int, end: int, bin: int)
    requires bin != 0 && 1 <= start < MAX_PIXELS && 1 < end <= MAX_PIXELS
    ensures SideIs(TruncDiv(Span(start, end), bin), start, end, bin)
  {
    SizeFitsExactlyWhen(start, end, bin);
    if bin > 0 {
      SizeOfPositiveBins(start, end, bin);
    }
    hide TruncDiv;
  }

  /** Whatever accepted command the settings come from, a buffer is only reached for 1 to 2048 pixels each way, has at
      most 2^22 elements, and with positive bins covers the region up to an incomplete bin. */
  lemma AcceptedGeometry(s: Settings, command: string, strtod: Strtod)
    requires Resolve(s, command, strtod).status == 0
    ensures var t := Resolve(s, command, strtod).settings;
            && t.hbin != 0 && t.vbin != 0
            && SideIs(Width(t), t.hstart, t.hend, t.hbin) && SideIs(Height(t), t.vstart, t.vend, t.vbin)
            && (Fits(Width(t)) && Fits(Height(t)) ==> 1 <= Width(t) * Height(t) <= 0x40_0000)
  {
    ImageCommands.AcceptedSettings(s, command, strtod);
    var t := Resolve(s, command, strtod).settings;
    hide Resolve, TruncDiv, SideIs;
    OneSide(t.hstart, t.hend, t.hbin);
    OneSide(t.vstart, t.vend, t.vbin);
    if Fits(Width(t)) && Fits(Height(t)) {
      ProductFits(Width(t), Height(t));
    }
  }

  // ----- setup_acquisition

  /** `/` on two `int`s. */
  method Divide(a: int, b: int) returns (q: int)
    requires b != 0
    ensures q == TruncDiv(a, b)
  {
    QuotientSize(Abs(a), Abs(b));
    hide Quotient;
    q := Quotient(Abs(a), Abs(b));
    if (a < 0) != (b < 0) {
      q := -q;
    }
  }

  /** The camera and the parameters let the setup get as far as the headers. */
  predicate ImageReached(s: Settings, c: Camera)
    requires s.hbin != 0 && s.vbin != 0
  {
    && s.readOut.Image? && c.readMode && c.acquisitionMode && c.speeds.Some? && c.shutter
    && c.detector == Some((MAX_PIXELS, MAX_PIXELS)) && Fits(Width(s)) && Fits(Height(s))
  }

  predicate Merges(s: Settings, arHeaders: seq<Header>) {
    s.arTries > 0 && arHeaders != []
  }

  /** A header from the telescope is rejected. */
  predicate MergeFails(before: Store, s: Settings, arHeaders: seq<Header>) {
    Merges(s, arHeaders) && Rejections(Base(before, |arHeaders|), arHeaders) > 0
  }

  /** The store behind the merge: up to the first rejected header from the telescope. */
  function Merged(before: Store, s: Settings, arHeaders: seq<Header>): seq<Header> {
    if Merges(s, arHeaders)
    then Fold(Base(before, |arHeaders|), Applied(Base(before, |arHeaders|), arHeaders, true))
    else before.mvec
  }

  /** Everything succeeds. */
  predicate SetsUp(before: Store, s: Settings, c: Camera, arHeaders: seq<Header>)
    requires s.hbin != 0 && s.vbin != 0
  {
    ImageReached(s, c) && !MergeFails(before, s, arHeaders) && c.exposure.Some? && c.gain.Some?
  }

  /** The number of the first thing that fails: 10 for the camera's settings, 2 for the merge, 3 for the timings and 1
      for the rest. */
  function SetupStatus(before: Store, s: Settings, c: Camera, arHeaders: seq<Header>): (status: int)
    requires s.hbin != 0 && s.vbin != 0
    ensures status == 0 <==> SetsUp(before, s, c, arHeaders)
  {
    if !s.readOut.Image? then 1
    else if !(c.readMode && c.acquisitionMode && c.speeds.Some? && c.shutter) then 10
    else if !ImageReached(s, c) then 1
    else if MergeFails(before, s, arHeaders) then 2
    else if c.exposure.None? then 3
    else if c.gain.None? then 1
    else 0
  }

  /** The headers in the store afterwards. */
  function HeadersAfter(before: Store, s: Settings, observer: string, c: Camera, arHeaders: seq<Header>): seq<Header>
    requires s.hbin != 0 && s.vbin != 0 && TextsFit(s, observer)
  {
    if !ImageReached(s, c) then before.mvec
    else if MergeFails(before, s, arHeaders) || c.exposure.None? then Merged(before, s, arHeaders)
    else if c.gain.None? then
      Fold(Merged(before, s, arHeaders), SpeedHeaders(c.speeds.value.0, c.speeds.value.1))
    else Fold(Merged(before, s, arHeaders), OwnHeaders(s, observer, c))
  }

  /** `fheaders->merge(ar_headers, true)`, when the headers of the telescope are asked for and some have come. */
  method MergeTelescope(params: AndorParameters, fheaders: FitsHeaders, arHeaders: seq<Header>) returns (failed: bool)
    requires fheaders.Valid()
    modifies fheaders
    ensures fheaders.Valid() && params.State() == old(params.State())
    ensures failed == MergeFails(old(fheaders.State()), params.State(), arHeaders)
    ensures fheaders.mvec == Merged(old(fheaders.State()), params.State(), arHeaders)
  {
    hide Fold, Rejections, BeforeRejection;
    failed := false;
    if params.arTries > 0 && |arHeaders| > 0 {
      var merged := fheaders.Merge(arHeaders, true);
      failed := merged < 0;
    }
  }

  /** The daemon's own headers behind those for the speeds. */
  method AddRest(params: AndorParameters, fheaders: FitsHeaders, observer: string, c: Camera, ghost merged: seq<Header>)
    requires fheaders.Valid() && TextsFit(params.State(), observer)
    requires c.speeds.Some? && c.exposure.Some? && c.gain.Some?
    requires fheaders.mvec == Fold(merged, SpeedHeaders(c.speeds.value.0, c.speeds.value.1))
    modifies fheaders
    ensures fheaders.Valid() && params.State() == old(params.State())
    ensures fheaders.mvec == Fold(merged, OwnHeaders(params.State(), observer, c))
  {
    hide Fold, TextsFit, Storable, SpeedHeaders, JobHeaders, Gain, CcdTemp;
    ghost var speeds := SpeedHeaders(c.speeds.value.0, c.speeds.value.1);
    ghost var gain := GainHeaders(c.gain.value);
    ghost var job := JobHeaders(params.State(), observer, c.exposure.value, c.timeCorrection);
    if c.gain.value >= 0.0 {
      Add(fheaders, Gain(c.gain.value), merged, speeds);
    } else {
      assert speeds + gain == speeds;
    }
    AddJob(fheaders, params, observer, c.exposure.value, c.timeCorrection);
    FoldConcat(merged, speeds + gain, job);
    if c.temperature.Some? {
      Add(fheaders, CcdTemp(c.temperature.value), merged, speeds + gain + job);
    } else {
      assert speeds + gain + job + [] == speeds + gain + job;
    }
  }

  /** `arHeaders` is what has come from the telescope. */
  method SetupAcquisition(params: AndorParameters, fheaders: FitsHeaders, observer: string, c: Camera,
                          arHeaders: seq<Header>)
    returns (status: int, width: int, height: int, image: array<int>)
    requires params.hbin != 0 && params.vbin != 0 && fheaders.Valid() && TextsFit(params.State(), observer)
    modifies fheaders
    ensures fheaders.Valid() && params.State() == old(params.State())
    ensures status == SetupStatus(old(fheaders.State()), params.State(), c, arHeaders)
    ensures fheaders.mvec == HeadersAfter(old(fheaders.State()), params.State(), observer, c, arHeaders)
    ensures status == 0 ==>
              && width == Width(params.State()) && height == Height(params.State())
              && fresh(image) && image.Length == width * height
              && forall i :: 0 <= i < image.Length ==> image[i] == 0
  {
    hide TruncDiv, MergeFails, Merged, TextsFit, OwnHeaders, Fold, SpeedHeaders;
    width, height := 0, 0;
    image := new int[0];
    if params.readOut != Image {
      return 1, width, height, image;
    }
    if !c.readMode || !c.acquisitionMode || c.speeds.None? || !c.shutter {
      return 10, width, height, image;
    }
    if c.detector != Some((MAX_PIXELS, MAX_PIXELS)) {
      return 1, width, height, image;
    }
    var xnumpixels := Divide(params.hend - params.hstart + 1, params.hbin);
    var ynumpixels := Divide(params.vend - params.vstart + 1, params.vbin);
    if (xnumpixels < 1 || xnumpixels > MAX_PIXELS) || (ynumpixels < 1 || ynumpixels > MAX_PIXELS) {
      return 1, width, height, image;
    }
    var failed := MergeTelescope(params, fheaders, arHeaders);
    if failed {
      return 2, width, height, image;
    }
    if c.exposure.None? {
      return 3, width, height, image;
    }
    ghost var merged := fheaders.mvec;
    AddSpeeds(fheaders, c.speeds.value.0, c.speeds.value.1);
    if c.gain.None? {
      return 1, width, height, image;
    }
    AddRest(params, fheaders, observer, c, merged);
    ProductFits(xnumpixels, ynumpixels);
    image := new int[xnumpixels * ynumpixels](_ => 0);
    width, height := xnumpixels, ynumpixels;
    status := 0;
  }

  // ----- the daemon's call: an accepted command, an empty store, and cards from the telescope

  /** The telescope's headers that end up under the daemon's own. */
  function Underneath(s: Settings, cards: seq<Header>): seq<Header> {
    if Merges(s, cards) then cards else []
  }

  lemma CardsMerged(before: Store, s: Settings, cards: seq<Header>)
    requires before.mvec == [] && AreCards(cards)
    ensures !MergeFails(before, s, cards) && Merged(before, s, cards) == Fold([], Underneath(s, cards))
  {
    hide Fold, Rejections, BeforeRejection;
    CardsMergeCompletely(cards);
    NothingFolded([]);
  }

  /** Whatever the telescope sends, the merge does not fail the setup: it succeeds exactly when the camera answers and
      the region fits. */
  lemma SetupSucceedsExactlyWhen(s: Settings, command: string, strtod: Strtod, before: Store, c: Camera,
                                 cards: seq<Header>)
    requires Resolve(s, command, strtod).status == 0 && before.mvec == [] && AreCards(cards)
    ensures var t := Resolve(s, command, strtod).settings;
            && t.hbin != 0 && t.vbin != 0
            && SetupStatus(before, t, c, cards) != 2
            && (SetupStatus(before, t, c, cards) == 0
                <==>
                && c.readMode && c.acquisitionMode && c.speeds.Some? && c.shutter && c.exposure.Some? && c.gain.Some?
                && c.detector == Some((MAX_PIXELS, MAX_PIXELS))
                && (if t.hbin > 0 then Span(t.hstart, t.hend) >= t.hbin else Span(t.hstart, t.hend) <= t.hbin)
                && (if t.vbin > 0 then Span(t.vstart, t.vend) >= t.vbin else Span(t.vstart, t.vend) <= t.vbin))
  {
    var t := Resolve(s, command, strtod).settings;
    ImageCommands.AcceptedSettings(s, command, strtod);
    AcceptedGeometry(s, command, strtod);
    CardsMerged(before, t, cards);
    hide Resolve, TruncDiv, MergeFails, Merged, AreCards;
  }

  /** After a successful setup every header of the daemon's own is in the store with its value, except that the time
      correction is there exactly when the telescope has not sent one. */
  lemma OwnHeadersAfterSetup(s: Settings, observer: string, before: Store, c: Camera, cards: seq<Header>, i: nat)
    requires s.hbin != 0 && s.vbin != 0 && TextsFit(s, observer) && before.mvec == [] && AreCards(cards)
    requires SetsUp(before, s, c, cards) && i < |OwnHeaders(s, observer, c)|
    ensures var h := OwnHeaders(s, observer, c)[i];
            Lookup(HeadersAfter(before, s, observer, c, cards), h.key) == Some(h)
            <==> h.key != "TIMECORR" || !FitsHeaderRuns.Holds(Underneath(s, cards), "TIMECORR")
  {
    CardsMerged(before, s, cards);
    hide TruncDiv, TextsFit, Fold, Lookup, MergeFails, Merged, OwnHeaders, Find;
    OwnHeadersArrive(Underneath(s, cards), s, observer, c, i);
  }

  /** And so is every key the telescope has sent, with the last value sent for it, unless it is one of two texts of the
      daemon's. */
  lemma CardsAfterSetup(s: Settings, observer: string, before: Store, c: Camera, cards: seq<Header>, key: string)
    requires s.hbin != 0 && s.vbin != 0 && TextsFit(s, observer) && before.mvec == [] && AreCards(cards)
    requires SetsUp(before, s, c, cards) && FitsHeaderRuns.Holds(Underneath(s, cards), key)
    ensures Lookup(HeadersAfter(before, s, observer, c, cards), key)
         == if key == "OBSERVER" then Some(Observer(observer))
            else if key == "INSTRUME" then Some(Instrument())
            else LastOf(cards, key)
  {
    CardsMerged(before, s, cards);
    hide TruncDiv, TextsFit, Fold, Lookup, LastOf, MergeFails, Merged, OwnHeaders, Observer, Instrument;
    CardsArrive(cards, s, observer, c, key);
  }

  /** A telescope header that is not the first with its key, nor of that one's known type, fails the merge into an empty
      store. */
  lemma MergeFailsExactlyWhen(before: Store, s: Settings, arHeaders: seq<Header>)
    requires before.mvec == []
    ensures MergeFails(before, s, arHeaders)
       <==> s.arTries >= 1 && exists i :: 0 <= i < |arHeaders| && !Wins(arHeaders, i)
  {
    hide Wins, Fold, Rejections, BeforeRejection;
    var n := BeforeRejection([], arHeaders);
    AppliedEndsAtFirstLoser(arHeaders, n);
    assert arHeaders[..|arHeaders|] == arHeaders;
    StopsAt([], arHeaders, n);
  }

  /** What the telescope's headers come to in an empty store: those in front of the first loser are applied, if headers
      were asked for at all. */
  lemma MergedUpToLoser(before: Store, s: Settings, arHeaders: seq<Header>, n: nat)
    requires before.mvec == [] && n <= |arHeaders| && forall i :: 0 <= i < n ==> Wins(arHeaders, i)
    requires n < |arHeaders| ==> !Wins(arHeaders, n)
    ensures Merged(before, s, arHeaders) == if s.arTries >= 1 then Fold([], arHeaders[..n]) else []
  {
    hide Wins, Fold, BeforeRejection;
    AppliedEndsAtFirstLoser(arHeaders, n);
    NothingFolded([]);
    assert arHeaders == [] ==> arHeaders[..n] == [];
  }

  /** Which failure ends the setup, and what it leaves in the store. */
  lemma SetupFailsExactlyWhen(before: Store, s: Settings, observer: string, c: Camera, arHeaders: seq<Header>)
    requires s.hbin != 0 && s.vbin != 0 && TextsFit(s, observer)
    ensures var status, hs := SetupStatus(before, s, c, arHeaders), HeadersAfter(before, s, observer, c, arHeaders);
            var settled := c.readMode && c.acquisitionMode && c.speeds.Some? && c.shutter;
            var sized := c.detector == Some((2048, 2048)) && 1 <= Width(s) <= 2048 && 1 <= Height(s) <= 2048;
            var refused := MergeFails(before, s, arHeaders);
            && (status == 10 <==> s.readOut == Image && !settled)
            && (status == 2 <==> s.readOut == Image && settled && sized && refused)
            && (status == 3 <==> s.readOut == Image && settled && sized && !refused && c.exposure.None?)
            && (status == 1 <==> || s.readOut != Image || (settled && !sized)
                                 || (settled && sized && !refused && c.exposure.Some? && c.gain.None?))
            && (status == 0 || status == 1 || status == 2 || status == 3 || status == 10)
            && (s.readOut != Image || !settled || !sized ==> hs == before.mvec)
            && (status == 2 || status == 3 ==> hs == Merged(before, s, arHeaders))
            && (status == 1 && s.readOut == Image && settled && sized ==>
                  hs == Fold(Merged(before, s, arHeaders), [HsSpeed(c.speeds.value.1), VsSpeed(c.speeds.value.0)]))
  {
    hide TruncDiv, TextsFit, Fold, MergeFails, Merged, OwnHeaders, HsSpeed, VsSpeed;
  }

  // ----- the same, key by key

  function ValueOf(hs: seq<Header>, key: string): Option<Value> {
    var h := Lookup(hs, key);
    if h.Some? then Some(h.value.value) else None
  }

  /** The setup of an empty store has succeeded; cards are what the telescope has sent. */
  ghost predicate AfterSuccess(s: Settings, observer: string, before: Store, c: Camera, cards: seq<Header>)
  {
    && s.hbin != 0 && s.vbin != 0 && TextsFit(s, observer) && before.mvec == [] && AreCards(cards)
    && SetsUp(before, s, c, cards)
  }

  lemma StoredValue(s: Settings, observer: string, before: Store, c: Camera, cards: seq<Header>, i: nat)
    requires AfterSuccess(s, observer, before, c, cards) && i < |OwnHeaders(s, observer, c)|
    ensures var h := OwnHeaders(s, observer, c)[i];
            h.key != "TIMECORR" || !FitsHeaderRuns.Holds(Underneath(s, cards), "TIMECORR") ==>
              ValueOf(HeadersAfter(before, s, observer, c, cards), h.key) == Some(h.value)
  {
    hide Lookup, HeadersAfter, OwnHeaders, FitsHeaderRuns.Holds;
    OwnHeadersAfterSetup(s, observer, before, c, cards, i);
  }

  /** Where the daemon's headers stand in the list of all of them. */
  lemma OwnPositions(s: Settings, observer: string, c: Camera)
    requires TextsFit(s, observer) && c.speeds.Some? && c.exposure.Some? && c.gain.Some?
    ensures var own, g := OwnHeaders(s, observer, c), if c.gain.value >= 0.0 then 1 else 0;
            && |own| == 11 + g + (if c.temperature.Some? then 1 else 0)
            && own[0] == HsSpeed(c.speeds.value.1) && own[1] == VsSpeed(c.speeds.value.0)
            && (g == 1 ==> own[2] == Gain(c.gain.value))
            && own[2 + g..11 + g] == JobHeaders(s, observer, c.exposure.value, c.timeCorrection)
            && (c.temperature.Some? ==> own[11 + g] == CcdTemp(c.temperature.value))
  {
    hide JobHeaders, HsSpeed, VsSpeed, Gain, CcdTemp;
  }

  /** The speeds: the right half of the pair is the horizontal one. */
  lemma SpeedValues(s: Settings, observer: string, before: Store, c: Camera, cards: seq<Header>)
    requires AfterSuccess(s, observer, before, c, cards)
    ensures var hs := HeadersAfter(before, s, observer, c, cards);
            && ValueOf(hs, "HSSPEED") == Some(TFloat(c.speeds.value.1))
            && ValueOf(hs, "VSSPEED") == Some(TFloat(c.speeds.value.0))
  {
    hide ValueOf, HeadersAfter, OwnHeaders, FitsHeaderRuns.Holds;
    OwnPositions(s, observer, c);
    StoredValue(s, observer, before, c, cards, 0);
    StoredValue(s, observer, before, c, cards, 1);
  }

  /** The job: what the observer has asked for, under the keys of the FITS file. */
  lemma JobValues(s: Settings, observer: string, before: Store, c: Camera, cards: seq<Header>)
    requires AfterSuccess(s, observer, before, c, cards)
    ensures var hs := HeadersAfter(before, s, observer, c, cards);
            && ValueOf(hs, "OBSERVER") == Some(TText(observer))
            && ValueOf(hs, "EXPOSED") == Some(TFloat(c.exposure.value))
            && ValueOf(hs, "EXPTIME") == Some(TFloat(c.exposure.value))
            && ValueOf(hs, "VBIN") == Some(TInt(s.vbin)) && ValueOf(hs, "HBIN") == Some(TInt(s.hbin))
            && ValueOf(hs, "INSTRUME") == Some(TText("ANDOR2048x2048_BV"))
            && ValueOf(hs, "OBJECT") == Some(TText(s.objectName))
            && ValueOf(hs, "FILTER") == Some(TText(s.filterName))
            && (!FitsHeaderRuns.Holds(Underneath(s, cards), "TIMECORR") ==>
                  ValueOf(hs, "TIMECORR") == Some(TLong(c.timeCorrection)))
  {
    hide ValueOf, HeadersAfter, OwnHeaders, FitsHeaderRuns.Holds;
    OwnPositions(s, observer, c);
    var g := if c.gain.value >= 0.0 then 1 else 0;
    var own, job := OwnHeaders(s, observer, c), JobHeaders(s, observer, c.exposure.value, c.timeCorrection);
    forall j | 0 <= j < 9
      ensures job[j].key != "TIMECORR" || !FitsHeaderRuns.Holds(Underneath(s, cards), "TIMECORR") ==>
                ValueOf(HeadersAfter(before, s, observer, c, cards), job[j].key) == Some(job[j].value)
    {
      assert job[j] == own[2 + g..11 + g][j] == own[2 + g + j];
      StoredValue(s, observer, before, c, cards, 2 + g + j);
    }
    assert job[0] == Observer(observer) && job[1] == Exposed(c.exposure.value) && job[2] == ExpTime(c.exposure.value);
    assert job[3] == VertBin(s.vbin) && job[4] == HorzBin(s.hbin) && job[5] == Instrument();
    assert job[6] == Object(s.objectName) && job[7] == Filter(s.filterName) && job[8] == TimeCorr(c.timeCorrection);
  }

  /** A key of other than eight characters that none of the daemon's headers has is not in the store. */
  lemma AbsentValue(s: Settings, observer: string, before: Store, c: Camera, cards: seq<Header>, key: string)
    requires AfterSuccess(s, observer, before, c, cards) && |key| != 8
    requires forall i :: 0 <= i < |OwnHeaders(s, observer, c)| ==> OwnHeaders(s, observer, c)[i].key != key
    ensures ValueOf(HeadersAfter(before, s, observer, c, cards), key) == None
  {
    CardsMerged(before, s, cards);
    hide TruncDiv, TextsFit, Fold, MergeFails, Merged, OwnHeaders, Find;
    var under := Underneath(s, cards);
    KeysOfFold([], under, key);
    KeysOfFold(Fold([], under), OwnHeaders(s, observer, c), key);
  }

  lemma NoOtherOwnKey(s: Settings, observer: string, c: Camera, key: string, mark: (int, char, char))
    requires TextsFit(s, observer) && c.speeds.Some? && c.exposure.Some? && c.gain.Some?
    requires |key| > 3 && mark == (|key|, key[0], key[3])
    requires mark !in OwnMarks(c.gain.value >= 0.0, c.temperature.Some?)
    ensures forall i :: 0 <= i < |OwnHeaders(s, observer, c)| ==> OwnHeaders(s, observer, c)[i].key != key
  {
    MarksOfOwn(s, observer, c);
    hide OwnHeaders, OwnMarks;
  }

  /** The gain is in the store exactly if it is known, and the temperature exactly if it was stable. */
  lemma OptionalValues(s: Settings, observer: string, before: Store, c: Camera, cards: seq<Header>)
    requires AfterSuccess(s, observer, before, c, cards)
    ensures var hs := HeadersAfter(before, s, observer, c, cards);
            && ValueOf(hs, "GAIN") == (if c.gain.value >= 0.0 then Some(TFloat(c.gain.value)) else None)
            && ValueOf(hs, "CCDTEMP") == (if c.temperature.Some? then Some(TFloat(c.temperature.value)) else None)
  {
    hide ValueOf, HeadersAfter, OwnHeaders, FitsHeaderRuns.Holds, TextsFit, AreCards;
    OwnPositions(s, observer, c);
    var g := if c.gain.value >= 0.0 then 1 else 0;
    if g == 1 {
      StoredValue(s, observer, before, c, cards, 2);
    } else {
      NoOtherOwnKey(s, observer, c, "GAIN", (4, 'G', 'N'));
      AbsentValue(s, observer, before, c, cards, "GAIN");
    }
    if c.temperature.Some? {
      StoredValue(s, observer, before, c, cards, 11 + g);
    } else {
      NoOtherOwnKey(s, observer, c, "CCDTEMP", (7, 'C', 'T'));
      AbsentValue(s, observer, before, c, cards, "CCDTEMP");
    }
  }
}
