/** The FITS filename allocator (src/fits_filenames.cpp). */
module FitsFilenames {
  import opened CString

  /** The test the directory scan applies to one entry: same generic name, then a number, then a dot. */
  predicate Matches(prefix: string, entry: string) {
    prefix <= entry &&
    var p := Strtol(entry[|prefix|..]);
    p.end != 0 && |prefix| + p.end < |entry| && entry[|prefix| + p.end] == '.'
  }

  /** The index read from a matching entry; the source stores strtol's `long` in an `int`. */
  function IndexOf(prefix: string, entry: string): int
    requires Matches(prefix, entry)
  {
    ToInt32(Strtol(entry[|prefix|..]).value)
  }

  /** No matching entry carries the one index whose successor does not fit in an `int`. */
  predicate NoOverflow(prefix: string, entries: seq<string>) {
    forall e :: e in entries && Matches(prefix, e) ==> IndexOf(prefix, e) < INT_MAX
  }

  /** What the next index has to be: 1, or one more than the largest index in use if that is positive. */
  ghost predicate IsNextIndex(prefix: string, entries: seq<string>, k: int) {
    && 1 <= k
    && (forall e :: e in entries && Matches(prefix, e) ==> IndexOf(prefix, e) < k)
    && (k == 1 || exists e :: e in entries && Matches(prefix, e) && IndexOf(prefix, e) == k - 1)
  }

  /** The index the scan has reached after visiting the entries in the given order. */
  function NextIndex(prefix: string, entries: seq<string>): (k: nat)
    ensures k >= 1
  {
    if entries == [] then 1
    else
      var before := entries[..|entries| - 1];
      var last := entries[|entries| - 1];
      var count := NextIndex(prefix, before);
      if Matches(prefix, last) && IndexOf(prefix, last) >= count then IndexOf(prefix, last) + 1 else count
  }

  lemma {:induction false} NextIndexIsNext(prefix: string, entries: seq<string>)
    ensures IsNextIndex(prefix, entries, NextIndex(prefix, entries))
  {
    if entries == [] {
    } else {
      var before, last := entries[..|entries| - 1], entries[|entries| - 1];
      NextIndexIsNext(prefix, before);
      assert entries == before + [last];
      var k := NextIndex(prefix, entries);
      if Matches(prefix, last) && IndexOf(prefix, last) == k - 1 {
        assert last in entries;
      } else if k > 1 {
        var e :| e in before && Matches(prefix, e) && IndexOf(prefix, e) == k - 1;
        assert e in entries;
      }
    }
  }

  function NameWithIndex(prefix: string, k: nat): string {
    prefix + Decimal(k) + ".fits"
  }

  function NextName(prefix: string, entries: seq<string>): string {
    NameWithIndex(prefix, NextIndex(prefix, entries))
  }

  /** The index does not depend on the order in which the directory is iterated, nor on repetitions. */
  lemma NextIndexIgnoresOrder(prefix: string, entries: seq<string>, other: seq<string>)
    requires forall e :: e in entries <==> e in other
    ensures NextIndex(prefix, entries) == NextIndex(prefix, other)
  {
    NextIndexIsNext(prefix, entries);
    NextIndexIsNext(prefix, other);
    NextIndexIsUnique(prefix, entries, NextIndex(prefix, entries), NextIndex(prefix, other));
  }

  lemma NextIndexIsUnique(prefix: string, entries: seq<string>, j: int, k: int)
    requires IsNextIndex(prefix, entries, j) && IsNextIndex(prefix, entries, k)
    ensures j == k
  {
  }

  /** Which names the scan recognises, made by the daemon or not: the generic name, a number as `strtol` reads it, and a
      dot right behind it. */
  lemma MatchesExactlyWhen(prefix: string, spaces: string, sign: string, digits: string, rest: string)
    requires AreNumberParts(spaces, sign, digits, rest)
    ensures var name := prefix + (spaces + (sign + digits + rest));
            && (Matches(prefix, name) <==> digits != "" && "." <= rest)
            && (Matches(prefix, name) && DecimalValue(digits) <= INT_MAX ==>
                  IndexOf(prefix, name) == if '-' in sign then -(DecimalValue(digits) as int) else DecimalValue(digits))
  {
    var number := spaces + (sign + digits + rest);
    StrtolReads(spaces, sign, digits, rest);
    BehindNumber(spaces, sign, digits, rest);
    BehindPrefix(prefix, number, Strtol(number).end);
    NumberInRange(Strtol(number), '-' in sign, digits, |spaces| + |sign| + |digits|);
    hide Strtol, ToInt32, DecimalValue, AreNumberParts, Saturated;
  }

  lemma NumberInRange(p: Parsed, negative: bool, digits: string, end: nat)
    requires AllDigits(digits) && digits != "" ==> ReadsNumber(p, negative, digits, end)
    ensures AllDigits(digits) && digits != "" && DecimalValue(digits) <= INT_MAX ==>
              ToInt32(p.value) == if negative then -(DecimalValue(digits) as int) else DecimalValue(digits)
  {
    hide DecimalValue;
  }

  lemma BehindNumber(spaces: string, sign: string, digits: string, rest: string)
    ensures var number, n := spaces + (sign + digits + rest), |spaces| + |sign| + |digits|;
            && |number| == n + |rest| && (rest != "" ==> number[n] == rest[0])
    ensures "." <= rest <==> rest != "" && rest[0] == '.'
  {
    assert spaces + (sign + digits + rest) == (spaces + sign + digits) + rest;
  }

  lemma BehindPrefix(prefix: string, number: string, n: nat)
    requires n <= |number|
    ensures (prefix + number)[|prefix|..] == number
    ensures n < |number| ==> (prefix + number)[|prefix| + n] == number[n]
  {
  }

  /** Names that do not start with the generic name are passed over. */
  lemma OtherNamesDoNotMatch(prefix: string, name: string)
    requires !(prefix <= name)
    ensures !Matches(prefix, name)
  {
  }

  /** A generated name matches its own prefix and gives its index back. */
  lemma GeneratedNameMatches(prefix: string, k: nat)
    requires k <= INT_MAX
    ensures Matches(prefix, NameWithIndex(prefix, k)) && IndexOf(prefix, NameWithIndex(prefix, k)) == k
  {
    var name := NameWithIndex(prefix, k);
    assert name[|prefix|..] == Decimal(k) + ".fits";
    StrtolReadsDecimal(k, ".fits");
    ToInt32Id(k);
    hide Strtol, Decimal;
    assert name[|prefix| + |Decimal(k)|] == ".fits"[0];
  }

  /** The index always fits in an `int` unless some entry already sits at the very top of the range. */
  lemma NextIndexInRange(prefix: string, entries: seq<string>)
    requires NoOverflow(prefix, entries)
    ensures 1 <= NextIndex(prefix, entries) <= INT_MAX
  {
    NextIndexIsNext(prefix, entries);
  }

  /** The allocated name is not in the directory. */
  lemma NextNameIsFresh(prefix: string, entries: seq<string>)
    requires NoOverflow(prefix, entries)
    ensures NextName(prefix, entries) !in entries
  {
    var k := NextIndex(prefix, entries);
    NextIndexInRange(prefix, entries);
    GeneratedNameMatches(prefix, k);
    NextIndexIsNext(prefix, entries);
  }

  /** Once the allocated file exists, the next allocation for the same prefix uses exactly the next index. */
  lemma NextIndexIncreases(prefix: string, entries: seq<string>)
    requires NoOverflow(prefix, entries)
    ensures NextIndex(prefix, entries + [NextName(prefix, entries)]) == NextIndex(prefix, entries) + 1
  {
    var k := NextIndex(prefix, entries);
    NextIndexInRange(prefix, entries);
    GeneratedNameMatches(prefix, k);
    assert (entries + [NextName(prefix, entries)])[..|entries|] == entries;
  }

  /** The directory after n saves under one prefix. */
  function AfterSaves(prefix: string, entries: seq<string>, n: nat): seq<string> {
    if n == 0 then entries
    else var d := AfterSaves(prefix, entries, n - 1); d + [NextName(prefix, d)]
  }

  /** The names with the n consecutive indices from k on. */
  function NamesFrom(prefix: string, k: nat, n: nat): (names: seq<string>)
    ensures |names| == n
  {
    if n == 0 then [] else NamesFrom(prefix, k, n - 1) + [NameWithIndex(prefix, k + n - 1)]
  }

  /** Every file from position `from` on differs from all files before it. */
  ghost predicate NewFrom(d: seq<string>, from: nat) {
    forall i, j :: 0 <= i < j < |d| && from <= j ==> d[i] != d[j]
  }

  lemma NewFromExtends(d: seq<string>, from: nat, name: string)
    requires NewFrom(d, from) && name !in d
    ensures NewFrom(d + [name], from)
  {
  }

  lemma SaveExtends(prefix: string, d: seq<string>)
    requires NoOverflow(prefix, d) && NextIndex(prefix, d) < INT_MAX
    ensures NoOverflow(prefix, d + [NextName(prefix, d)])
    ensures NextIndex(prefix, d + [NextName(prefix, d)]) == NextIndex(prefix, d) + 1
    ensures NextName(prefix, d) !in d
  {
    NextIndexIncreases(prefix, d);
    NextNameIsFresh(prefix, d);
    GeneratedNameMatches(prefix, NextIndex(prefix, d));
  }

  /** `d` is `entries` with n files added under consecutive indices, none of which repeats an earlier name. */
  ghost predicate ExtendedBy(prefix: string, entries: seq<string>, d: seq<string>, n: nat) {
    && NoOverflow(prefix, d)
    && NextIndex(prefix, d) == NextIndex(prefix, entries) + n
    && d == entries + NamesFrom(prefix, NextIndex(prefix, entries), n)
    && NewFrom(d, |entries|)
  }

  lemma OneMoreSave(prefix: string, entries: seq<string>, d: seq<string>, n: nat)
    requires ExtendedBy(prefix, entries, d, n) && NextIndex(prefix, d) < INT_MAX
    ensures ExtendedBy(prefix, entries, d + [NextName(prefix, d)], n + 1)
  {
    hide Matches, NextIndex, NameWithIndex;
    var k := NextIndex(prefix, entries);
    SaveExtends(prefix, d);
    NewFromExtends(d, |entries|, NextName(prefix, d));
    assert NamesFrom(prefix, k, n + 1) == NamesFrom(prefix, k, n) + [NextName(prefix, d)];
  }

  /** A whole run of saves: consecutive indices, every name new with respect to all that precede it. */
  lemma {:induction false} SavesNeverCollide(prefix: string, entries: seq<string>, n: nat)
    requires NoOverflow(prefix, entries)
    requires NextIndex(prefix, entries) + n <= INT_MAX
    ensures ExtendedBy(prefix, entries, AfterSaves(prefix, entries, n), n)
  {
    hide Matches, NextIndex, NameWithIndex;
    if n == 0 {
    } else {
      SavesNeverCollide(prefix, entries, n - 1);
      OneMoreSave(prefix, entries, AfterSaves(prefix, entries, n - 1), n - 1);
    }
  }

  predicate HasSlash(s: string) {
    '/' in s
  }

  lemma PrefixHasSlash(prefix: string, s: string)
    ensures prefix <= s && HasSlash(prefix) ==> HasSlash(s)
  {
    if prefix <= s && HasSlash(prefix) {
      var i :| 0 <= i < |prefix| && prefix[i] == '/';
      assert s[i] == '/';
    }
  }

  /** Directory entries are plain file names, so a generic name holding a '/' matches none of them and every
      request gets index 1. */
  lemma SlashPrefixGetsIndexOne(prefix: string, entries: seq<string>)
    requires HasSlash(prefix) && forall e :: e in entries ==> !HasSlash(e)
    ensures NextIndex(prefix, entries) == 1
  {
    NextIndexIsNext(prefix, entries);
    forall e | e in entries ensures !Matches(prefix, e) {
      PrefixHasSlash(prefix, e);
    }
  }

  /** What the scanned directory lists once the file of the given name has been written: the name shows up
      there only when it does not lead into another directory. */
  function Listed(entries: seq<string>, name: string): seq<string> {
    if HasSlash(name) then entries else entries + [name]
  }

  lemma DecimalHasNoSlash(n: nat)
    ensures !HasSlash(Decimal(n) + ".fits")
  {
    DecimalRoundTrip(n);
    assert forall c :: c in Decimal(n) ==> IsDigit(c);
  }

  lemma NameHasSlashIffPrefixHas(prefix: string, k: nat)
    ensures HasSlash(NameWithIndex(prefix, k)) <==> HasSlash(prefix)
  {
    DecimalHasNoSlash(k);
    assert NameWithIndex(prefix, k) == prefix + (Decimal(k) + ".fits");
  }

  /** Two consecutive saves get different names exactly when the generic name holds no '/'. */
  lemma ConsecutiveNamesDiffer(prefix: string, entries: seq<string>)
    requires NoOverflow(prefix, entries) && NextIndex(prefix, entries) < INT_MAX
    requires forall e :: e in entries ==> !HasSlash(e)
    ensures var name := NextName(prefix, entries);
            NextName(prefix, Listed(entries, name)) != name <==> !HasSlash(prefix)
  {
    var k := NextIndex(prefix, entries);
    var name := NextName(prefix, entries);
    NameHasSlashIffPrefixHas(prefix, k);
    if !HasSlash(prefix) {
      NextIndexIncreases(prefix, entries);
      GeneratedNameMatches(prefix, k);
      GeneratedNameMatches(prefix, k + 1);
    }
  }

  /** `make_fits_filename`: `date` is None when the UTC date cannot be obtained. */
  method MakeFitsFilename(isDirectory: bool, imageFilename: string, date: Option<string>, entries: seq<string>)
    returns (filename: Option<string>)
    requires date.Some? ==> NoOverflow(imageFilename + date.value, entries)
    ensures filename.None? <==> !isDirectory || date.None?
    ensures filename.Some? ==> filename.value == NextName(imageFilename + date.value, entries)
    ensures filename.Some? ==> filename.value !in entries
  {
    if !isDirectory || date.None? {
      return None;
    }
    var prefix := imageFilename + date.value;
    var imgCount := 1;
    for i := 0 to |entries|
      invariant imgCount == NextIndex(prefix, entries[..i])
      invariant 1 <= imgCount <= INT_MAX
    {
      var entry := entries[i];
      assert entries[..i + 1][..i] == entries[..i];
      NextIndexInRange(prefix, entries[..i]);
      if Matches(prefix, entry) {
        var currentCount := IndexOf(prefix, entry);
        if currentCount >= imgCount {
          imgCount := currentCount + 1;
        }
      }
    }
    assert entries[..|entries|] == entries;
    NextNameIsFresh(prefix, entries);
    return Some(prefix + Decimal(imgCount) + ".fits");
  }
}
