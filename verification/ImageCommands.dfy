/** What image commands guarantee, whatever earlier accepted or rejected commands left in the parameters. */
module ImageCommands {
  import opened CString
  import opened ImageParameters

  /** The words behind the first. */
  function WordsOf(command: string): seq<string>
    requires "image" <= command
  {
    FirstToken(command);
    Tokens(command)[1..]
  }

  function OptionsOf(command: string): seq<Given>
    requires "image" <= command
  {
    Options(WordsOf(command))
  }

  // ----- the number of images and the mode

  predicate HasCount(options: seq<Given>) {
    exists i :: 0 <= i < |options| && options[i].kind.NImages?
  }

  lemma {:induction false} CountMatchesMode(s: Settings, options: seq<Given>, strtod: Strtod)
    requires AllTaken(options, strtod) && HasCount(options)
    ensures var t := StoreAll(s, options, strtod);
            t.numImages >= 1 && (t.numImages == 1 <==> t.mode.SingleScan?)
  {
    hide ToInt32, Strtol, AllTaken;
    var last := |options| - 1;
    AllTakenPrefix(options, strtod);
    if options[last].kind.NImages? {
    } else {
      assert HasCount(options[..last]);
      CountMatchesMode(s, options[..last], strtod);
    }
  }

  lemma AllTakenPrefix(options: seq<Given>, strtod: Strtod)
    requires AllTaken(options, strtod) && options != []
    ensures var last := |options| - 1;
            AllTaken(options[..last], strtod) && Taken(options[last].kind, options[last].arg, strtod)
  {
  }

  // ----- what an accepted command leaves

  /** Bins are not zero, starts lie in [1, 2047] and ends in [2, 2048]; and if the command gave the number of images,
      it is one exactly in single-scan mode. */
  lemma AcceptedSettings(s: Settings, command: string, strtod: Strtod)
    requires Resolve(s, command, strtod).status == 0
    ensures var t := Resolve(s, command, strtod).settings;
            && t.hbin != 0 && t.vbin != 0
            && 1 <= t.hstart <= 2047 && 1 <= t.vstart <= 2047
            && 2 <= t.hend <= 2048 && 2 <= t.vend <= 2048
            && t.readOut.Image? && t.saveDir == SAVE_DIR
            && (HasCount(OptionsOf(command)) ==> t.numImages >= 1 && (t.numImages == 1 <==> t.mode.SingleScan?))
  {
    var options := OptionsOf(command);
    ReachedAll(options, strtod);
    assert options[..|options|] == options;
    hide Store, Taken, Tokens, Options, AllTaken, Reached;
    FixedFields(s, options, strtod);
    if HasCount(options) {
      CountMatchesMode(s, options, strtod);
    }
  }

  lemma {:induction false} FixedFields(s: Settings, options: seq<Given>, strtod: Strtod)
    ensures StoreAll(s, options, strtod).readOut == s.readOut && StoreAll(s, options, strtod).saveDir == s.saveDir
  {
    if options == [] {
    } else {
      var last := options[|options| - 1];
      FixedFields(s, options[..|options| - 1], strtod);
      StoreFixes(StoreAll(s, options[..|options| - 1], strtod), last.kind, last.arg, strtod);
      hide Store;
    }
  }

  lemma StoreFixes(s: Settings, k: Kind, arg: string, strtod: Strtod)
    ensures Store(s, k, arg, strtod).readOut == s.readOut && Store(s, k, arg, strtod).saveDir == s.saveDir
  {
    hide ToInt32, Strtol, Taken;
  }

  // ----- the last value given for a field wins

  datatype Field =
    | NumImagesField | HBinField | VBinField | HStartField | HEndField | VStartField | VEndField
    | FilenameField | TypeField | ObjectField | FilterField | ExposureField | ArTriesField

  datatype FieldValue = IntValue(i: int) | TextValue(t: string) | FloatValue(f: Float)

  function Get(s: Settings, f: Field): FieldValue {
    match f
    case NumImagesField => IntValue(s.numImages)
    case HBinField => IntValue(s.hbin)
    case VBinField => IntValue(s.vbin)
    case HStartField => IntValue(s.hstart)
    case HEndField => IntValue(s.hend)
    case VStartField => IntValue(s.vstart)
    case VEndField => IntValue(s.vend)
    case FilenameField => TextValue(s.filename)
    case TypeField => TextValue(s.imageType)
    case ObjectField => TextValue(s.objectName)
    case FilterField => TextValue(s.filterName)
    case ExposureField => FloatValue(s.exposure)
    case ArTriesField => IntValue(s.arTries)
  }

  /** Which options the documentation of the command lists for a field. */
  predicate Sets(k: Kind, f: Field) {
    match f
    case NumImagesField => k.NImages?
    case HBinField => k.Bin? || k.HBin?
    case VBinField => k.Bin? || k.VBin?
    case HStartField => k.HStart?
    case HEndField => k.HEnd?
    case VStartField => k.VStart?
    case VEndField => k.VEnd?
    case FilenameField => k.FileName?
    case TypeField => k.ImageType?
    case ObjectField => k.ObjectName?
    case FilterField => k.FilterName?
    case ExposureField => k.Exposure?
    case ArTriesField => k.ArTries?
  }

  function Read(f: Field, arg: string, strtod: Strtod): FieldValue {
    if f.ExposureField? then FloatValue(strtod(arg).0)
    else if f.FilenameField? || f.TypeField? || f.ObjectField? || f.FilterField? then TextValue(arg)
    else IntValue(IntOf(arg))
  }

  function LastGiven(options: seq<Given>, f: Field, strtod: Strtod): Option<FieldValue> {
    if options == [] then None
    else
      var last := options[|options| - 1];
      if Sets(last.kind, f) then Some(Read(f, last.arg, strtod))
      else LastGiven(options[..|options| - 1], f, strtod)
  }

  function OrElse(v: Option<FieldValue>, default: FieldValue): FieldValue {
    if v.Some? then v.value else default
  }

  lemma {:induction false} LastWins(s: Settings, options: seq<Given>, strtod: Strtod, f: Field)
    requires AllTaken(options, strtod)
    ensures Get(StoreAll(s, options, strtod), f) == OrElse(LastGiven(options, f, strtod), Get(s, f))
  {
    hide ToInt32, Strtol, AllTaken;
    if options == [] {
    } else {
      var last := |options| - 1;
      AllTakenPrefix(options, strtod);
      LastWins(s, options[..last], strtod, f);
      StoreSets(StoreAll(s, options[..last], strtod), options[last].kind, options[last].arg, strtod, f);
    }
  }

  /** A taken option sets its fields and no others. */
  lemma StoreSets(s: Settings, k: Kind, arg: string, strtod: Strtod, f: Field)
    requires Taken(k, arg, strtod)
    ensures Get(Store(s, k, arg, strtod), f) == if Sets(k, f) then Read(f, arg, strtod) else Get(s, f)
  {
    hide ToInt32, Strtol;
  }

  /** After an accepted command, every field holds the last value the command gives for it, or its old one. */
  lemma AcceptedFields(s: Settings, command: string, strtod: Strtod, f: Field)
    requires Resolve(s, command, strtod).status == 0
    ensures Get(Resolve(s, command, strtod).settings, f)
         == OrElse(LastGiven(OptionsOf(command), f, strtod), Get(s, f))
  {
    var options := OptionsOf(command);
    ReachedAll(options, strtod);
    assert options[..|options|] == options;
    hide Store, Taken, Tokens, Options, AllTaken, Reached, StoreAll;
    LastWins(s, options, strtod, f);
  }

  // ----- which commands are accepted

  /** A word of a command behind "image": one that starts with no option's name, or an option and its argument. */
  datatype Item = Skipped(word: string) | Option(kind: Kind, word: string, arg: string)

  predicate IsItem(item: Item) {
    match item
    case Skipped(word) => forall k: Kind :: k != Other ==> !(Name(k) <= word)
    case Option(k, word, _) => k != Other && Name(k) <= word
  }

  function Words(items: seq<Item>): seq<string> {
    if items == [] then []
    else (match items[0] case Skipped(word) => [word] case Option(_, word, arg) => [word, arg]) + Words(items[1..])
  }

  function GivenIn(items: seq<Item>): seq<Given> {
    if items == [] then []
    else (if items[0].Option? then [Given(items[0].kind, items[0].arg)] else []) + GivenIn(items[1..])
  }

  /** Nothing, or an option that has lost its argument. */
  ghost predicate IsCutOff(end: seq<string>) {
    |end| <= 1 && (end != [] ==> exists k: Kind :: k != Other && Name(k) <= end[0])
  }

  lemma KindOfSkipped(word: string)
    ensures KindOf(word).Other? <==> IsItem(Skipped(word))
  {
    forall k: Kind | k != Other ensures KindOf(word) == k <==> Name(k) <= word {
      StandsForExactlyWhen(word, k);
    }
    hide KindOf, Name;
    if !KindOf(word).Other? {
      assert Name(KindOf(word)) <= word;
    }
  }

  /** The options of a command are those of its words, in order, and it is incomplete exactly if it ends in an option
      without an argument. */
  lemma {:induction false} OptionsOfItems(items: seq<Item>, end: seq<string>)
    requires (forall i :: 0 <= i < |items| ==> IsItem(items[i])) && IsCutOff(end)
    ensures Options(Words(items) + end) == GivenIn(items)
    ensures Complete(Words(items) + end) <==> end == []
  {
    hide KindOf, Name;
    var tokens := Words(items) + end;
    if items == [] {
      assert tokens == end;
      if end != [] {
        KindOfSkipped(end[0]);
      }
    } else {
      var item := items[0];
      OptionsOfItems(items[1..], end);
      assert IsItem(item);
      match item {
        case Skipped(word) =>
          KindOfSkipped(word);
          assert tokens[0] == word && tokens[1..] == Words(items[1..]) + end;
        case Option(k, word, arg) =>
          StandsForExactlyWhen(word, k);
          assert tokens[0] == word && tokens[1] == arg && tokens[2..] == Words(items[1..]) + end;
      }
    }
  }

  /** Every list of words is made up so. */
  lemma {:induction false} EveryCommandHasItems(tokens: seq<string>) returns (items: seq<Item>, end: seq<string>)
    ensures (forall i :: 0 <= i < |items| ==> IsItem(items[i])) && IsCutOff(end) && tokens == Words(items) + end
  {
    hide KindOf, Name, Words;
    if tokens == [] {
      items, end := [], [];
      NoWords();
    } else {
      var word := tokens[0];
      var item;
      KindOfSkipped(word);
      if KindOf(word).Other? {
        item := Skipped(word);
        items, end := EveryCommandHasItems(tokens[1..]);
      } else if |tokens| == 1 {
        assert Name(KindOf(word)) <= word;
        NoWords();
        return [], tokens;
      } else {
        item := Option(KindOf(word), word, tokens[1]);
        items, end := EveryCommandHasItems(tokens[2..]);
      }
      ItemInFront(item, items);
      items := [item] + items;
    }
  }

  lemma NoWords()
    ensures Words([]) == []
  {
  }

  lemma ItemInFront(item: Item, items: seq<Item>)
    ensures Words([item] + items)
         == (match item case Skipped(word) => [word] case Option(_, word, arg) => [word, arg]) + Words(items)
  {
    assert ([item] + items)[1..] == items;
  }

  /** Which arguments are taken. A number is taken if there is a digit where `strtol` looks for one, and the number of
      images must then be positive as well; it is stored with its sign. */
  lemma NumberTakenExactlyWhen(k: Kind, spaces: string, sign: string, digits: string, rest: string, strtod: Strtod)
    requires AreNumberParts(spaces, sign, digits, rest)
    requires k != Other && k != Exposure && k != FileName && k != ImageType && k != ObjectName && k != FilterName
    ensures var arg := spaces + (sign + digits + rest);
            && (Taken(k, arg, strtod) <==> digits != "" && (k == NImages ==> IntOf(arg) >= 1))
            && (digits != "" && DecimalValue(digits) <= INT_MAX ==>
                  IntOf(arg) == if '-' in sign then -(DecimalValue(digits) as int) else DecimalValue(digits))
  {
    hide Strtol, ToInt32, DecimalValue;
    StrtolReads(spaces, sign, digits, rest);
    if DecimalValue(digits) <= INT_MAX {
      ToInt32Id(DecimalValue(digits));
      ToInt32Id(-(DecimalValue(digits) as int));
    }
  }

  /** A text is taken if it fits its field, and an exposure if it is a number from zero on. */
  lemma TextTakenExactlyWhen(arg: string, strtod: Strtod)
    ensures Taken(FileName, arg, strtod) <==> |arg| <= 127
    ensures Taken(ObjectName, arg, strtod) <==> |arg| <= 31
    ensures Taken(ImageType, arg, strtod) <==> |arg| <= 15
    ensures Taken(FilterName, arg, strtod) <==> |arg| <= 15
    ensures Taken(Exposure, arg, strtod) <==> strtod(arg).1 && strtod(arg).0.Num? && strtod(arg).0.value >= 0.0
  {
  }

  /** The value of a field that the command gives last, or the one it had. */
  function Final(s: Settings, options: seq<Given>, f: Field, strtod: Strtod): FieldValue {
    OrElse(LastGiven(options, f, strtod), Get(s, f))
  }

  predicate Between(v: FieldValue, low: int, high: int) {
    v.IntValue? && low <= v.i <= high
  }

  /** The values a command ends with lie within the bounds. */
  predicate WithinBounds(s: Settings, options: seq<Given>, strtod: Strtod) {
    && Final(s, options, HBinField, strtod) != IntValue(0) && Final(s, options, VBinField, strtod) != IntValue(0)
    && Between(Final(s, options, HStartField, strtod), 1, 2047)
    && Between(Final(s, options, VStartField, strtod), 1, 2047)
    && Between(Final(s, options, HEndField, strtod), 2, 2048)
    && Between(Final(s, options, VEndField, strtod), 2, 2048)
    && var exposure := Final(s, options, ExposureField, strtod);
       !(exposure.FloatValue? && exposure.f.Num? && exposure.f.value < 0.0)
  }

  /** The status of any command. */
  lemma StatusExactlyWhen(s: Settings, command: string, strtod: Strtod)
    ensures var status := Resolve(s, command, strtod).status;
            if !("image" <= command) then status == 1
            else if s.readOut != Image then status == 4
            else
              var options := OptionsOf(command);
              var taken := Complete(WordsOf(command)) && AllTaken(options, strtod);
              && (status == 1 <==> !taken)
              && (status == 0 <==> taken && WithinBounds(s, options, strtod))
              && (status == 2 <==> taken && !WithinBounds(s, options, strtod))
  {
    if "image" <= command && s.readOut == Image {
      var options := OptionsOf(command);
      if AllTaken(options, strtod) {
        ReachedAll(options, strtod);
        assert options[..|options|] == options;
        hide Store, Taken, Tokens, Options, AllTaken, Reached, StoreAll, LastGiven;
        LastFields(s, options, strtod);
      }
    }
  }

  lemma LastFields(s: Settings, options: seq<Given>, strtod: Strtod)
    requires AllTaken(options, strtod)
    ensures var t := StoreAll(s, options, strtod);
            && Final(s, options, HBinField, strtod) == IntValue(t.hbin)
            && Final(s, options, VBinField, strtod) == IntValue(t.vbin)
            && Final(s, options, HStartField, strtod) == IntValue(t.hstart)
            && Final(s, options, VStartField, strtod) == IntValue(t.vstart)
            && Final(s, options, HEndField, strtod) == IntValue(t.hend)
            && Final(s, options, VEndField, strtod) == IntValue(t.vend)
            && Final(s, options, ExposureField, strtod) == FloatValue(t.exposure)
  {
    hide StoreAll, AllTaken, LastGiven, OrElse;
    LastWins(s, options, strtod, HBinField);
    LastWins(s, options, strtod, VBinField);
    LastWins(s, options, strtod, HStartField);
    LastWins(s, options, strtod, VStartField);
    LastWins(s, options, strtod, HEndField);
    LastWins(s, options, strtod, VEndField);
    LastWins(s, options, strtod, ExposureField);
  }

  /** The words of a full-frame command. */
  lemma FullFrameIsAccepted(s: Settings, strtod: Strtod)
    requires s.readOut == Image && s.hbin == s.vbin == s.hstart == s.vstart == 1 && s.hend == s.vend == 2048
    requires s.exposure == Num(1.0)
    ensures Resolve(s, "image", strtod).status == 0
  {
    WordLenIs("image", "");
    assert "image" + "" == "image";
    assert Tokens("image")[1..] == [];
    assert OptionsOf("image") == [];
    hide Tokens, Resolve;
    StatusExactlyWhen(s, "image", strtod);
  }

  // ----- the exposure

  /** A command without an exposure accepts one that is no number, left behind by a rejected command; apart from that,
      an accepted exposure is at least zero. */
  lemma ProperExposureExactlyWhen(s: Settings, command: string, strtod: Strtod)
    requires Resolve(s, command, strtod).status == 0
    ensures AtLeastZero(Resolve(s, command, strtod).settings.exposure)
       <==> (!s.exposure.NaN? || LastGiven(OptionsOf(command), ExposureField, strtod).Some?)
  {
    hide Resolve, OptionsOf, AllTaken, LastGiven, Between;
    AcceptedFields(s, command, strtod, ExposureField);
    StatusExactlyWhen(s, command, strtod);
    assert "image" <= command && WithinBounds(s, OptionsOf(command), strtod) by {
      AcceptedStart(s, command, strtod);
    }
    LastExposureIsTaken(OptionsOf(command), strtod);
  }

  lemma AcceptedStart(s: Settings, command: string, strtod: Strtod)
    requires Resolve(s, command, strtod).status == 0
    ensures "image" <= command && s.readOut == Image
  {
    StatusExactlyWhen(s, command, strtod);
    hide Resolve;
  }

  lemma {:induction false} LastExposureIsTaken(options: seq<Given>, strtod: Strtod)
    requires AllTaken(options, strtod)
    ensures var last := LastGiven(options, ExposureField, strtod);
            last.Some? ==> last.value.FloatValue? && AtLeastZero(last.value.f)
  {
    if options == [] {
    } else {
      LastExposureIsTaken(options[..|options| - 1], strtod);
    }
  }

  /** The bad number of a rejected option stays in the parameters: an image count below one, or an exposure that is no
      number. */
  lemma RejectedNumberStays(s: Settings, command: string, strtod: Strtod)
    requires "image" <= command && s.readOut.Image? && !AllTaken(OptionsOf(command), strtod)
    ensures var options := OptionsOf(command); var n := Reached(options, strtod);
            && Resolve(s, command, strtod).status == 1 && n > 0
            && !Taken(options[n - 1].kind, options[n - 1].arg, strtod)
            && (options[n - 1].kind.NImages? ==>
                  Resolve(s, command, strtod).settings.numImages == IntOf(options[n - 1].arg))
            && (options[n - 1].kind.Exposure? ==>
                  Resolve(s, command, strtod).settings.exposure == strtod(options[n - 1].arg).0)
  {
    var options := OptionsOf(command);
    LastReached(options, strtod);
    hide ToInt32, Strtol, Tokens, Options, Taken, Complete, AllTaken, Reached;
    var n := Reached(options, strtod);
    LastStored(s, options[..n], strtod);
  }

  lemma LastStored(s: Settings, options: seq<Given>, strtod: Strtod)
    requires options != []
    ensures var last := options[|options| - 1]; var t := StoreAll(s, options, strtod);
            && (last.kind.NImages? ==> t.numImages == IntOf(last.arg))
            && (last.kind.Exposure? ==> t.exposure == strtod(last.arg).0)
  {
    hide ToInt32, Strtol, Taken;
  }

  lemma {:induction false} LastReached(options: seq<Given>, strtod: Strtod)
    requires !AllTaken(options, strtod)
    ensures var n := Reached(options, strtod);
            n > 0 && !Taken(options[n - 1].kind, options[n - 1].arg, strtod)
  {
    if !Taken(options[0].kind, options[0].arg, strtod) {
    } else {
      assert exists i :: 0 <= i < |options[1..]| && !Taken(options[1..][i].kind, options[1..][i].arg, strtod) by {
        var i :| 0 <= i < |options| && !Taken(options[i].kind, options[i].arg, strtod);
        assert options[1..][i - 1] == options[i];
      }
      LastReached(options[1..], strtod);
    }
  }

  /** A refused option stores its number all the same, but no text, and does not touch the mode. */
  lemma RefusedStores(s: Settings, k: Kind, arg: string, strtod: Strtod, f: Field)
    requires !Taken(k, arg, strtod)
    ensures Get(Store(s, k, arg, strtod), f)
         == if Sets(k, f) && !Read(f, arg, strtod).TextValue? then Read(f, arg, strtod) else Get(s, f)
    ensures Store(s, k, arg, strtod).mode == s.mode
  {
    hide ToInt32, Strtol;
  }

  lemma {:induction false} TakenUpToLast(options: seq<Given>, strtod: Strtod)
    requires !AllTaken(options, strtod)
    ensures var n := Reached(options, strtod); n > 0 && AllTaken(options[..n - 1], strtod)
  {
    if !Taken(options[0].kind, options[0].arg, strtod) {
    } else {
      LastReached(options, strtod);
      assert options == [options[0]] + options[1..];
      var n := Reached(options, strtod);
      assert options[1..][..n - 2] == options[..n - 1][1..];
      assert exists i :: 0 <= i < |options[1..]| && !Taken(options[1..][i].kind, options[1..][i].arg, strtod) by {
        var i :| 0 <= i < |options| && !Taken(options[i].kind, options[i].arg, strtod);
        assert options[1..][i - 1] == options[i];
      }
      TakenUpToLast(options[1..], strtod);
    }
  }

  /** What a rejected command leaves behind: the last values given in front of the option that is refused, and that
      option's number; of a command that is only cut off, all values. */
  lemma RejectedFields(s: Settings, command: string, strtod: Strtod, f: Field)
    requires "image" <= command && s.readOut == Image && Resolve(s, command, strtod).status == 1
    ensures var options := OptionsOf(command); var t := Resolve(s, command, strtod).settings;
            if AllTaken(options, strtod) then Get(t, f) == Final(s, options, f, strtod)
            else
              var n := Reached(options, strtod);
              && n > 0 && AllTaken(options[..n - 1], strtod)
              && var g := options[n - 1];
                 && !Taken(g.kind, g.arg, strtod)
                 && Get(t, f) == if Sets(g.kind, f) && !Read(f, g.arg, strtod).TextValue? then Read(f, g.arg, strtod)
                                 else Final(s, options[..n - 1], f, strtod)
  {
    var options := OptionsOf(command);
    hide Store, Taken, Tokens, Options, AllTaken, LastGiven, Sets, Read, Get;
    if AllTaken(options, strtod) {
      ReachedAll(options, strtod);
      assert options[..|options|] == options;
      LastWins(s, options, strtod, f);
    } else {
      hide Reached;
      LastReached(options, strtod);
      TakenUpToLast(options, strtod);
      var n := Reached(options, strtod);
      assert options[..n][..n - 1] == options[..n - 1];
      LastWins(s, options[..n - 1], strtod, f);
      RefusedStores(StoreAll(s, options[..n - 1], strtod), options[n - 1].kind, options[n - 1].arg, strtod, f);
    }
  }

  // ----- repeating a command

  predicate HasOne(options: seq<Given>) {
    exists i :: 0 <= i < |options| && options[i].kind.NImages? && IntOf(options[i].arg) == 1
  }

  /** The mode after the options: settled by a count of one, and otherwise only moved out of single-scan mode. */
  lemma {:induction false} ModeAfter(s: Settings, t: Settings, options: seq<Given>, strtod: Strtod)
    requires AllTaken(options, strtod)
    ensures HasOne(options) ==> StoreAll(s, options, strtod).mode == StoreAll(t, options, strtod).mode
    ensures !HasOne(options) ==>
              StoreAll(s, options, strtod).mode
              == if HasCount(options) && s.mode.SingleScan? then RunTillAbort else s.mode
    decreases |options|
  {
    hide ToInt32, Strtol, AllTaken;
    if options == [] {
    } else {
      var last := |options| - 1;
      AllTakenPrefix(options, strtod);
      ModeAfter(s, t, options[..last], strtod);
      ModeAfter(t, s, options[..last], strtod);
      CountsOfPrefix(options);
    }
  }

  lemma CountsOfPrefix(options: seq<Given>)
    requires options != []
    ensures var last := |options| - 1; var counts := options[last].kind.NImages?;
            && (HasCount(options) <==> HasCount(options[..last]) || counts)
            && (HasOne(options) <==> HasOne(options[..last]) || (counts && IntOf(options[last].arg) == 1))
  {
    hide ToInt32, Strtol;
    var last := |options| - 1;
    if i :| 0 <= i < last && options[i].kind.NImages? {
      assert options[..last][i] == options[i];
    }
    if i :| 0 <= i < last && options[i].kind.NImages? && IntOf(options[i].arg) == 1 {
      assert options[..last][i] == options[i];
    }
  }

  /** Giving an accepted command again changes nothing. */
  lemma RepeatingChangesNothing(s: Settings, command: string, strtod: Strtod)
    requires Resolve(s, command, strtod).status == 0
    ensures var t := Resolve(s, command, strtod).settings;
            Resolve(t, command, strtod) == Outcome(0, t)
  {
    var options := OptionsOf(command);
    ReachedAll(options, strtod);
    assert options[..|options|] == options;
    hide Store, Taken, Tokens, Options, AllTaken, Reached, StoreAll, Get, LastGiven;
    var t := Resolve(s, command, strtod).settings;
    var u := StoreAll(t, options, strtod);
    ModeAfter(s, t, options, strtod);
    ModeAfter(t, s, options, strtod);
    FixedFields(s, options, strtod);
    FixedFields(t, options, strtod);
    forall f ensures Get(u, f) == Get(t, f) {
      AcceptedFields(s, command, strtod, f);
      LastWins(t, options, strtod, f);
    }
    SameSettings(u, t);
  }

  lemma SameSettings(s: Settings, t: Settings)
    requires forall f :: Get(s, f) == Get(t, f)
    requires s.mode == t.mode && s.readOut == t.readOut && s.saveDir == t.saveDir
    ensures s == t
  {
    assert Get(s, NumImagesField) == Get(t, NumImagesField);
    assert Get(s, HBinField) == Get(t, HBinField) && Get(s, VBinField) == Get(t, VBinField);
    assert Get(s, HStartField) == Get(t, HStartField) && Get(s, HEndField) == Get(t, HEndField);
    assert Get(s, VStartField) == Get(t, VStartField) && Get(s, VEndField) == Get(t, VEndField);
    assert Get(s, FilenameField) == Get(t, FilenameField) && Get(s, TypeField) == Get(t, TypeField);
    assert Get(s, ObjectField) == Get(t, ObjectField) && Get(s, FilterField) == Get(t, FilterField);
    assert Get(s, ExposureField) == Get(t, ExposureField) && Get(s, ArTriesField) == Get(t, ArTriesField);
  }
}
