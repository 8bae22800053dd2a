/** The image command (src/resolve_image_parameters.cpp): options that change parameters which persist from command to
    command. `strtod` is a parameter. */
module ImageParameters {
  import opened Basics
  import opened CString

  const MAX_PIXELS: int := 2048
  const SAVE_DIR: string := "/home/andor2k/fits"

  datatype ReadOutMode = FullVerticalBinning | MultiTrack | RandomTrack | SingleTrack | Image
  datatype AcquisitionMode = SingleScan | Accumulate | KineticSeries | FastKinetics | RunTillAbort

  /** A `float`, as far as comparing it with zero goes. */
  datatype Float = NaN | Num(value: real)

  predicate AtLeastZero(f: Float) {
    f.Num? && f.value >= 0.0
  }

  predicate BelowZero(f: Float) {
    f.Num? && f.value < 0.0
  }

  /** `strtod`: the value, and whether any characters were converted. */
  type Strtod = string -> (Float, bool)

  datatype Settings = Settings(
    numImages: int,
    mode: AcquisitionMode,
    hbin: int,
    vbin: int,
    hstart: int,
    hend: int,
    vstart: int,
    vend: int,
    filename: string,
    imageType: string,
    objectName: string,
    filterName: string,
    exposure: Float,
    arTries: int,
    readOut: ReadOutMode,
    saveDir: string)

  // ----- tokens

  /** `strtok` with a space: the maximal runs of other characters. */
  function Tokens(s: string): (tokens: seq<string>)
    ensures forall i :: 0 <= i < |tokens| ==> tokens[i] != [] && ' ' !in tokens[i]
    decreases |s|
  {
    if s == [] then []
    else if s[0] == ' ' then Tokens(s[1..])
    else
      var n := WordLen(s);
      [s[..n]] + Tokens(s[n..])
  }

  function WordLen(s: string): (n: nat)
    ensures n <= |s| && ' ' !in s[..n] && (n < |s| ==> s[n] == ' ')
    ensures s != [] && s[0] != ' ' ==> n > 0
  {
    if s == [] || s[0] == ' ' then 0
    else
      assert s[..1 + WordLen(s[1..])] == [s[0]] + s[1..][..WordLen(s[1..])];
      1 + WordLen(s[1..])
  }

  predicate AreWords(words: seq<string>) {
    forall i :: 0 <= i < |words| ==> words[i] != [] && ' ' !in words[i]
  }

  /** Words with spaces in front of, between and behind them. */
  function Spaced(words: seq<string>, gaps: seq<nat>, behind: nat): string
    requires |gaps| == |words|
  {
    if words == [] then Fill(' ', behind)
    else Fill(' ', gaps[0]) + words[0] + Spaced(words[1..], gaps[1..], behind)
  }

  /** The tokens of spaced words are the words, as long as there is a space between any two. */
  lemma {:induction false} TokensOfWords(words: seq<string>, gaps: seq<nat>, behind: nat)
    requires |gaps| == |words| && AreWords(words) && forall i :: 0 < i < |gaps| ==> gaps[i] > 0
    ensures Tokens(Spaced(words, gaps, behind)) == words
    decreases |words|
  {
    if words == [] {
      TokensSkipSpaces(behind, []);
      assert Fill(' ', behind) + [] == Fill(' ', behind);
    } else {
      var rest := Spaced(words[1..], gaps[1..], behind);
      TokensOfWords(words[1..], gaps[1..], behind);
      RestStartsWithSpace(words[1..], gaps[1..], behind);
      TokensSkipSpaces(gaps[0], words[0] + rest);
      assert Spaced(words, gaps, behind) == Fill(' ', gaps[0]) + (words[0] + rest);
      WordLenIs(words[0], rest);
      assert (words[0] + rest)[..|words[0]|] == words[0];
      assert (words[0] + rest)[|words[0]|..] == rest;
      assert (words[0] + rest)[0] == words[0][0];
    }
  }

  lemma RestStartsWithSpace(words: seq<string>, gaps: seq<nat>, behind: nat)
    requires |gaps| == |words| && (gaps != [] ==> gaps[0] > 0)
    ensures var rest := Spaced(words, gaps, behind); rest != [] ==> rest[0] == ' '
  {
  }

  lemma {:induction false} TokensSkipSpaces(n: nat, s: string)
    ensures Tokens(Fill(' ', n) + s) == Tokens(s)
  {
    if n == 0 {
      assert Fill(' ', 0) + s == s;
    } else {
      assert (Fill(' ', n) + s)[1..] == Fill(' ', n - 1) + s;
      TokensSkipSpaces(n - 1, s);
    }
  }

  lemma {:induction false} WordLenIs(word: string, rest: string)
    requires ' ' !in word && (rest != [] ==> rest[0] == ' ')
    ensures WordLen(word + rest) == |word|
  {
    if word == [] {
      assert word + rest == rest;
    } else {
      assert word[0] in word;
      assert (word + rest)[1..] == word[1..] + rest;
      WordLenIs(word[1..], rest);
    }
  }

  datatype Kind =
    | NImages | Bin | HBin | VBin | HStart | HEnd | VStart | VEnd
    | FileName | ImageType | ObjectName | FilterName | Exposure | ArTries
    | Other

  function Name(k: Kind): string
    requires k != Other
  {
    match k
    case NImages => "--nimages"
    case Bin => "--bin"
    case HBin => "--hbin"
    case VBin => "--vbin"
    case HStart => "--hstart"
    case HEnd => "--hend"
    case VStart => "--vstart"
    case VEnd => "--vend"
    case FileName => "--filename"
    case ImageType => "--type"
    case ObjectName => "--object"
    case FilterName => "--filter"
    case Exposure => "--exposure"
    case ArTries => "--ar-tries"
  }

  /** The option a token stands for: the one whose name it starts with, compared in the order of the source. */
  function KindOf(token: string): (k: Kind)
    ensures k != Other ==> Name(k) <= token
  {
    if Name(NImages) <= token then NImages
    else if Name(Bin) <= token then Bin
    else if Name(HBin) <= token then HBin
    else if Name(VBin) <= token then VBin
    else if Name(HStart) <= token then HStart
    else if Name(HEnd) <= token then HEnd
    else if Name(VStart) <= token then VStart
    else if Name(VEnd) <= token then VEnd
    else if Name(FileName) <= token then FileName
    else if Name(ImageType) <= token then ImageType
    else if Name(ObjectName) <= token then ObjectName
    else if Name(FilterName) <= token then FilterName
    else if Name(Exposure) <= token then Exposure
    else if Name(ArTries) <= token then ArTries
    else Other
  }

  /** A character or two that tell an option name from the others. */
  predicate Marked(token: string, k: Kind) {
    && |token| >= 5
    && match k
       case NImages => token[2] == 'n'
       case Bin => token[2] == 'b'
       case HBin => token[2] == 'h' && token[3] == 'b'
       case VBin => token[2] == 'v' && token[3] == 'b'
       case HStart => token[2] == 'h' && token[3] == 's'
       case HEnd => token[2] == 'h' && token[3] == 'e'
       case VStart => token[2] == 'v' && token[3] == 's'
       case VEnd => token[2] == 'v' && token[3] == 'e'
       case FileName => token[2] == 'f' && |token| > 5 && token[5] == 'e'
       case ImageType => token[2] == 't'
       case ObjectName => token[2] == 'o'
       case FilterName => token[2] == 'f' && |token| > 5 && token[5] == 't'
       case Exposure => token[2] == 'e'
       case ArTries => token[2] == 'a'
       case Other => false
  }

  lemma NameMarks(token: string, k: Kind)
    requires k != Other && Name(k) <= token
    ensures Marked(token, k)
  {
    assert forall i :: 0 <= i < |Name(k)| ==> token[i] == Name(k)[i];
    match k {
      case NImages => assert Name(k)[2] == 'n';
      case Bin => assert Name(k)[2] == 'b';
      case HBin => assert Name(k)[2] == 'h' && Name(k)[3] == 'b';
      case VBin => assert Name(k)[2] == 'v' && Name(k)[3] == 'b';
      case HStart => assert Name(k)[2] == 'h' && Name(k)[3] == 's';
      case HEnd => assert Name(k)[2] == 'h' && Name(k)[3] == 'e';
      case VStart => assert Name(k)[2] == 'v' && Name(k)[3] == 's';
      case VEnd => assert Name(k)[2] == 'v' && Name(k)[3] == 'e';
      case FileName => assert Name(k)[2] == 'f' && Name(k)[5] == 'e';
      case ImageType => assert Name(k)[2] == 't';
      case ObjectName => assert Name(k)[2] == 'o';
      case FilterName => assert Name(k)[2] == 'f' && Name(k)[5] == 't';
      case Exposure => assert Name(k)[2] == 'e';
      case ArTries => assert Name(k)[2] == 'a';
    }
  }

  /** A token stands for an option exactly when it starts with the option's name, whatever the order of the
      comparisons: no token starts with two names. */
  lemma StandsForExactlyWhen(token: string, k: Kind)
    requires k != Other
    ensures KindOf(token) == k <==> Name(k) <= token
  {
    if Name(k) <= token {
      NameMarks(token, k);
      var first := KindOf(token);
      if first == Other {
        NoName(token, k);
      } else {
        NameMarks(token, first);
        hide Name, KindOf;
      }
    }
  }

  lemma NoName(token: string, k: Kind)
    requires k != Other && KindOf(token) == Other
    ensures !(Name(k) <= token)
  {
  }

  // ----- one option

  predicate TakesInt(k: Kind) {
    k.NImages? || k.Bin? || k.HBin? || k.VBin? || k.HStart? || k.HEnd? || k.VStart? || k.VEnd? || k.ArTries?
  }

  predicate TakesText(k: Kind) {
    k.FileName? || k.ImageType? || k.ObjectName? || k.FilterName?
  }

  /** Size of the field behind a text option. */
  function Capacity(k: Kind): nat {
    if k.FileName? then 128 else if k.ObjectName? then 32 else 16
  }

  /** `strtol`, narrowed to the `int` it is stored in. */
  function IntOf(arg: string): int {
    ToInt32(Strtol(arg).value)
  }

  /** Whether the command goes on after an option with this argument. */
  predicate Taken(k: Kind, arg: string, strtod: Strtod) {
    if k.NImages? then Strtol(arg).end != 0 && IntOf(arg) >= 1
    else if TakesInt(k) then Strtol(arg).end != 0
    else if TakesText(k) then |arg| < Capacity(k)
    else k.Exposure? ==> strtod(arg).1 && AtLeastZero(strtod(arg).0)
  }

  /** What an option stores. Numbers are stored before they are checked, and text after. */
  function Store(s: Settings, k: Kind, arg: string, strtod: Strtod): Settings {
    match k
    case NImages =>
      var n := IntOf(arg);
      var mode :=
        if !Taken(k, arg, strtod) then s.mode
        else if n == 1 then SingleScan
        else if s.mode.SingleScan? then RunTillAbort
        else s.mode;
      s.(numImages := n, mode := mode)
    case Bin => s.(vbin := IntOf(arg), hbin := IntOf(arg))
    case HBin => s.(hbin := IntOf(arg))
    case VBin => s.(vbin := IntOf(arg))
    case HStart => s.(hstart := IntOf(arg))
    case HEnd => s.(hend := IntOf(arg))
    case VStart => s.(vstart := IntOf(arg))
    case VEnd => s.(vend := IntOf(arg))
    case FileName => if Taken(k, arg, strtod) then s.(filename := arg) else s
    case ImageType => if Taken(k, arg, strtod) then s.(imageType := arg) else s
    case ObjectName => if Taken(k, arg, strtod) then s.(objectName := arg) else s
    case FilterName => if Taken(k, arg, strtod) then s.(filterName := arg) else s
    case Exposure => s.(exposure := strtod(arg).0)
    case ArTries => s.(arTries := IntOf(arg))
    case Other => s
  }

  // ----- a whole command

  datatype Given = Given(kind: Kind, arg: string)

  /** The options of a token list with their arguments; tokens in option position that are no options are skipped. */
  function Options(tokens: seq<string>): seq<Given> {
    if tokens == [] then []
    else if KindOf(tokens[0]).Other? then Options(tokens[1..])
    else if |tokens| == 1 then []
    else [Given(KindOf(tokens[0]), tokens[1])] + Options(tokens[2..])
  }

  /** No option lacks its argument. */
  predicate Complete(tokens: seq<string>) {
    if tokens == [] then true
    else if KindOf(tokens[0]).Other? then Complete(tokens[1..])
    else |tokens| > 1 && Complete(tokens[2..])
  }

  /** How many of the options are reached: all up to the first that is not taken. */
  function Reached(options: seq<Given>, strtod: Strtod): (n: nat)
    ensures n <= |options|
  {
    if options == [] then 0
    else if Taken(options[0].kind, options[0].arg, strtod) then 1 + Reached(options[1..], strtod)
    else 1
  }

  predicate AllTaken(options: seq<Given>, strtod: Strtod) {
    forall i :: 0 <= i < |options| ==> Taken(options[i].kind, options[i].arg, strtod)
  }

  function StoreAll(s: Settings, options: seq<Given>, strtod: Strtod): Settings {
    if options == [] then s
    else
      var last := |options| - 1;
      Store(StoreAll(s, options[..last], strtod), options[last].kind, options[last].arg, strtod)
  }

  /** The final checks. */
  predicate InRange(s: Settings) {
    && s.hbin != 0 && s.vbin != 0
    && 1 <= s.hstart < MAX_PIXELS && 1 <= s.vstart < MAX_PIXELS
    && 1 < s.hend <= MAX_PIXELS && 1 < s.vend <= MAX_PIXELS
    && !BelowZero(s.exposure)
  }

  datatype Outcome = Outcome(status: int, settings: Settings)

  lemma FirstToken(command: string)
    requires "image" <= command
    ensures Tokens(command) != []
  {
    assert command[0] == 'i';
  }

  /** 1 for a bad command, 4 for a wrong read-out mode, 2 for settings that end out of range. */
  function Resolve(s: Settings, command: string, strtod: Strtod): Outcome {
    if !("image" <= command) then Outcome(1, s)
    else if !s.readOut.Image? then Outcome(4, s)
    else
      FirstToken(command);
      var tokens := Tokens(command)[1..];
      var options := Options(tokens);
      var after := StoreAll(s, options[..Reached(options, strtod)], strtod);
      if !Complete(tokens) || !AllTaken(options, strtod) then Outcome(1, after)
      else Outcome(if InRange(after) then 0 else 2, after.(saveDir := SAVE_DIR))
  }

  // ----- resolve_image_parameters

  lemma {:induction false} ReachedAll(options: seq<Given>, strtod: Strtod)
    requires AllTaken(options, strtod)
    ensures Reached(options, strtod) == |options|
  {
    if options == [] {
    } else {
      ReachedAll(options[1..], strtod);
    }
  }

  lemma {:induction false} ReachedUpTo(done: seq<Given>, g: Given, rest: seq<Given>, strtod: Strtod)
    requires AllTaken(done, strtod) && !Taken(g.kind, g.arg, strtod)
    ensures Reached(done + [g] + rest, strtod) == |done| + 1
    ensures !AllTaken(done + [g] + rest, strtod)
  {
    var all := done + [g] + rest;
    assert all[|done|] == g;
    if done == [] {
    } else {
      assert all[1..] == done[1..] + [g] + rest;
      ReachedUpTo(done[1..], g, rest, strtod);
    }
  }

  lemma OptionTaken(tokens: seq<string>, done: seq<Given>)
    requires |tokens| > 1 && !KindOf(tokens[0]).Other?
    ensures done + Options(tokens) == done + [Given(KindOf(tokens[0]), tokens[1])] + Options(tokens[2..])
    ensures Complete(tokens) == Complete(tokens[2..])
  {
    hide KindOf;
    var g := Given(KindOf(tokens[0]), tokens[1]);
    assert Options(tokens) == [g] + Options(tokens[2..]);
    Reassociate(done, [g], Options(tokens[2..]));
  }

  lemma OneMoreStored(s: Settings, done: seq<Given>, g: Given, strtod: Strtod)
    requires AllTaken(done, strtod)
    ensures StoreAll(s, done + [g], strtod) == Store(StoreAll(s, done, strtod), g.kind, g.arg, strtod)
    ensures Taken(g.kind, g.arg, strtod) ==> AllTaken(done + [g], strtod)
  {
    hide Store, Taken;
    assert (done + [g])[..|done|] == done;
  }

  class AndorParameters {
    var numImages: int
    var mode: AcquisitionMode
    var hbin: int
    var vbin: int
    var hstart: int
    var hend: int
    var vstart: int
    var vend: int
    var filename: string
    var imageType: string
    var objectName: string
    var filterName: string
    var exposure: Float
    var arTries: int
    var readOut: ReadOutMode
    var saveDir: string

    ghost function State(): Settings
      reads this
    {
      Settings(numImages, mode, hbin, vbin, hstart, hend, vstart, vend, filename, imageType, objectName, filterName,
               exposure, arTries, readOut, saveDir)
    }

    /** The defaults; the fields without one hold anything. */
    constructor (anyText: string, anyExposure: Float)
      ensures numImages == 1 && mode == RunTillAbort && hbin == vbin == 1
      ensures hstart == vstart == 1 && hend == vend == MAX_PIXELS && arTries == 0
      ensures readOut == Image && saveDir == SAVE_DIR
    {
      numImages, mode, hbin, vbin, hstart, vstart := 1, RunTillAbort, 1, 1, 1, 1;
      hend, vend, arTries, readOut, saveDir := MAX_PIXELS, MAX_PIXELS, 0, Image, SAVE_DIR;
      filename, imageType, objectName, filterName := anyText, anyText, anyText, anyText;
      exposure := anyExposure;
    }

    /** The branch of one option: stores the argument, and reports whether the command goes on. */
    method StoreOption(k: Kind, arg: string, strtod: Strtod) returns (ok: bool)
      requires k != Other
      modifies this
      ensures State() == Store(old(State()), k, arg, strtod)
      ensures ok == Taken(k, arg, strtod)
    {
      hide ToInt32, Strtol;
      var parsed := Strtol(arg);
      var n := ToInt32(parsed.value);
      ok := parsed.end != 0;
      match k {
        case NImages =>
          numImages := n;
          if parsed.end == 0 || numImages < 1 {
            return false;
          }
          if numImages == 1 {
            mode := SingleScan;
          } else if numImages > 1 && mode == SingleScan {
            mode := RunTillAbort;
          }
        case Bin =>
          vbin := n;
          hbin := vbin;
        case HBin => hbin := n;
        case VBin => vbin := n;
        case HStart => hstart := n;
        case HEnd => hend := n;
        case VStart => vstart := n;
        case VEnd => vend := n;
        case FileName =>
          if |arg| >= 128 {
            return false;
          }
          filename, ok := arg, true;
        case ImageType =>
          if |arg| >= 16 {
            return false;
          }
          imageType, ok := arg, true;
        case ObjectName =>
          if |arg| >= 32 {
            return false;
          }
          objectName, ok := arg, true;
        case FilterName =>
          if |arg| >= 16 {
            return false;
          }
          filterName, ok := arg, true;
        case Exposure =>
          var (value, converted) := strtod(arg);
          exposure := value;
          ok := converted && AtLeastZero(exposure);
        case ArTries => arTries := n;
      }
    }

    /** The loop over the tokens behind the command word. */
    method StoreOptions(tokens: seq<string>, strtod: Strtod) returns (ok: bool)
      modifies this
      ensures var options := Options(tokens);
              && State() == StoreAll(old(State()), options[..Reached(options, strtod)], strtod)
              && ok == (Complete(tokens) && AllTaken(options, strtod))
    {
      var i := 0;
      ghost var done: seq<Given> := [];
      assert AllTaken(done, strtod) && StoreAll(State(), done, strtod) == State();
      hide Store, Taken, KindOf, Reached, StoreAll, AllTaken;
      assert tokens[0..] == tokens;
      while i < |tokens|
        invariant i <= |tokens| && AllTaken(done, strtod)
        invariant Options(tokens) == done + Options(tokens[i..])
        invariant Complete(tokens) == Complete(tokens[i..])
        invariant State() == StoreAll(old(State()), done, strtod)
      {
        var k := KindOf(tokens[i]);
        assert tokens[i..][1..] == tokens[i + 1..];
        if k == Other {
          i := i + 1;
          continue;
        }
        if i + 1 == |tokens| {
          assert Options(tokens) == done;
          ReachedAll(done, strtod);
          assert done[..|done|] == done;
          return false;
        }
        ghost var g := Given(k, tokens[i + 1]);
        ghost var rest := Options(tokens[i + 2..]);
        OptionTaken(tokens[i..], done);
        assert tokens[i..][2..] == tokens[i + 2..];
        OneMoreStored(old(State()), done, g, strtod);
        ok := StoreOption(k, tokens[i + 1], strtod);
        if !ok {
          ReachedUpTo(done, g, rest, strtod);
          assert (done + [g] + rest)[..|done| + 1] == done + [g];
          return;
        }
        done := done + [g];
        i := i + 2;
      }
      ReachedAll(done, strtod);
      assert Options(tokens) == done == done[..|done|];
      ok := true;
    }

    /** `resolve_image_parameters`. The read-out mode is not written, so its later checks repeat the first. */
    method ResolveImageParameters(command: string, strtod: Strtod) returns (status: int)
      modifies this
      ensures Outcome(status, State()) == Resolve(old(State()), command, strtod)
    {
      if !("image" <= command) {
        return 1;
      }
      if readOut != Image {
        return 4;
      }
      hide StoreAll, Reached, Options, Complete, AllTaken, Tokens;
      var tokens := Tokens(command);
      var ok := StoreOptions(tokens[1..], strtod);
      if !ok {
        return 1;
      }
      status := 0;
      if vbin == 0 || hbin == 0 {
        status := 2;
      }
      if (hstart < 1 || hstart >= MAX_PIXELS) || (vstart < 1 || vstart >= MAX_PIXELS) {
        status := 2;
      }
      if (hend <= 1 || hend > MAX_PIXELS) || (vend <= 1 || vend > MAX_PIXELS) {
        status := 2;
      }
      if BelowZero(exposure) {
        status := 2;
      }
      saveDir := SAVE_DIR;
    }
  }
}
