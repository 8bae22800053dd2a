/** Telescope header messages (src/aristarchos.cpp): the Base64 block of a reply stands between "BF=" and ';', and what
    it decodes to is handed to the bzip2 decompressor, which is a parameter here. */
module Framing {
  import opened CString
  import opened BitStream
  import opened Base64

  const MARK: seq<byte> := [66, 70, 61] // "BF="
  const SEMICOLON: byte := 59

  /** What a buffer holds as a C string. */
  function CStr(buffer: seq<byte>): (s: seq<byte>)
    ensures s <= buffer && 0 !in s
    ensures |s| < |buffer| ==> buffer[|s|] == 0
  {
    if buffer == [] || buffer[0] == 0 then [] else [buffer[0]] + CStr(buffer[1..])
  }

  // ----- where the block is

  datatype Span = Span(start: nat, end: nat)

  predicate MarkAt(s: seq<byte>, i: nat) {
    i + 3 <= |s| && s[i..i + 3] == MARK
  }

  /** The mark, character by character. */
  lemma MarkIs(s: seq<byte>, i: nat)
    ensures MarkAt(s, i) <==> i + 2 < |s| && s[i] == 66 && s[i + 1] == 70 && s[i + 2] == 61
  {
    if i + 2 < |s| {
      assert s[i..i + 3] == [s[i], s[i + 1], s[i + 2]];
    }
  }

  /** `strstr` for the mark. */
  function FindMark(s: seq<byte>, from: nat): (r: Option<nat>)
    requires from <= |s|
    ensures r.Some? ==> from <= r.value && MarkAt(s, r.value) && forall j :: from <= j < r.value ==> !MarkAt(s, j)
    ensures r.None? ==> forall j :: from <= j ==> !MarkAt(s, j)
    decreases |s| - from
  {
    if MarkAt(s, from) then Some(from)
    else if from == |s| then None
    else FindMark(s, from + 1)
  }

  function FindSemicolon(s: seq<byte>, from: nat): (r: Option<nat>)
    requires from <= |s|
    ensures r.Some? ==> from <= r.value < |s| && s[r.value] == SEMICOLON && SEMICOLON !in s[from..r.value]
    ensures r.None? ==> SEMICOLON !in s[from..]
    decreases |s| - from
  {
    if from == |s| then None
    else if s[from] == SEMICOLON then Some(from)
    else FindSemicolon(s, from + 1)
  }

  /** The characters between the first mark and the first semicolon behind it. */
  function Block(s: seq<byte>): (r: Option<Span>)
    ensures r.Some? ==> r.value.start <= r.value.end < |s|
  {
    match FindMark(s, 0)
    case None => None
    case Some(i) =>
      match FindSemicolon(s, i + 3)
      case None => None
      case Some(e) => Some(Span(i + 3, e))
  }

  /** What the message carries to the decompressor, if it passes the length check. */
  function Carried(s: seq<byte>): Option<seq<byte>> {
    match Block(s)
    case None => None
    case Some(span) =>
      var run := Run(s[span.start..span.end]);
      if |run| % 4 == 0 then Some(RfcDecode(run)) else None
  }

  /** The check as written, `bts != len - 1`, passes exactly for runs of a multiple of four characters. */
  lemma LengthCheck(n: nat)
    ensures 3 * n / 4 == DecodeLen(n) - 1 <==> n % 4 == 0
  {
    var q, r := n / 4, n % 4;
    QuarterIs(3 * n, if r == 0 then 3 * q else 3 * q + r - 1, if r == 0 then 0 else 4 - r);
    QuarterIs(n + 3, if r == 0 then q else q + 1, if r == 0 then 3 else r - 1);
  }

  lemma SixthIs(x: nat, d: nat, m: nat)
    requires x == 6 * d + m && m < 6
    ensures x / 6 == d
  {
  }

  lemma QuarterIs(x: nat, d: nat, m: nat)
    requires x == 4 * d + m && m < 4
    ensures x / 4 == d
  {
  }

  // ----- a framed payload

  /** A framed encoding is found, spells the payload, and passes the check exactly when the payload's length is a
      multiple of three: padded encodings are rejected. */
  lemma FramedPayload(before: seq<byte>, payload: seq<byte>, after: seq<byte>)
    requires var s := before + MARK + RfcEncode(payload) + [SEMICOLON] + after;
             forall j :: 0 <= j < |before| ==> !MarkAt(s, j)
    ensures var s := before + MARK + RfcEncode(payload) + [SEMICOLON] + after;
            Carried(s) == if |payload| % 3 == 0 then Some(payload) else None
  {
    hide RfcEncode, RfcDecode, Run, Sextets, BytesToBits;
    var text := RfcEncode(payload);
    var s := before + MARK + text + [SEMICOLON] + after;
    var start := |before| + 3;
    assert MarkAt(s, |before|);
    assert FindMark(s, 0) == Some(|before|);
    assert s[start..start + |text|] == text;
    NoSemicolon(payload);
    var end := FindSemicolon(s, start);
    assert s[start + |text|] == SEMICOLON;
    SemicolonIs(s, start, start + |text|);
    DecodeEncode(payload, []);
    assert text + [] == text;
    EncodedRunLength(payload);
  }

  lemma {:induction false} SemicolonIs(s: seq<byte>, from: nat, end: nat)
    requires from <= end < |s| && s[end] == SEMICOLON && SEMICOLON !in s[from..end]
    ensures FindSemicolon(s, from) == Some(end)
    decreases end - from
  {
    if from == end {
    } else {
      assert s[from..end][0] == s[from] && s[from..end][1..] == s[from + 1..end];
      SemicolonIs(s, from + 1, end);
    }
  }

  lemma NoSemicolon(payload: seq<byte>)
    ensures SEMICOLON !in RfcEncode(payload)
  {
    assert !InAlphabet(SEMICOLON);
    ValuesOfChars(Sextets(BytesToBits(payload)));
    hide Sextets, BytesToBits, Chars, InAlphabet;
    assert SEMICOLON !in Chars(Sextets(BytesToBits(payload)));
    assert SEMICOLON !in Padding(|payload|);
  }

  lemma EncodedRunLength(payload: seq<byte>)
    ensures |Chars(Sextets(BytesToBits(payload)))| % 4 == 0 <==> |payload| % 3 == 0
  {
    hide Sextets, BytesToBits, Chars;
    var q, r := |payload| / 3, |payload| % 3;
    var extra := if r == 0 then 0 else r + 1;
    SixthIs(8 * |payload| + 5, 4 * q + extra, 8 * r + 5 - 6 * extra);
    assert |Chars(Sextets(BytesToBits(payload)))| == 4 * q + extra;
  }

  // ----- decode_message

  /** A run ends where the text behind it cannot continue it. */
  lemma {:induction false} RunStops(text: seq<byte>, rest: seq<byte>)
    requires rest != [] && !InAlphabet(rest[0])
    ensures Run(text + rest) == Run(text)
  {
    if text == [] {
      assert text + rest == rest;
    } else {
      assert (text + rest)[1..] == text[1..] + rest;
      RunStops(text[1..], rest);
    }
  }

  lemma CStrAt(buffer: seq<byte>, i: nat)
    requires i <= |CStr(buffer)| < |buffer|
    ensures buffer[i] == 0 <==> i == |CStr(buffer)|
    ensures i < |CStr(buffer)| ==> buffer[i] == CStr(buffer)[i]
  {
    hide CStr;
    assert i < |CStr(buffer)| ==> CStr(buffer)[i] in CStr(buffer);
  }

  lemma FirstMarkIs(s: seq<byte>, i: nat)
    requires MarkAt(s, i) && forall j :: 0 <= j < i ==> !MarkAt(s, j)
    ensures FindMark(s, 0) == Some(i)
  {
  }

  lemma NoMark(s: seq<byte>)
    requires forall j :: 0 <= j < |s| ==> !MarkAt(s, j)
    ensures FindMark(s, 0) == None
  {
  }

  /** `strstr(raw, "BF=")`. */
  method Strstr(raw: array<byte>) returns (found: Option<nat>)
    requires |CStr(raw[..])| < raw.Length
    ensures found == FindMark(CStr(raw[..]), 0)
  {
    hide CStr;
    var i := 0;
    CStrAt(raw[..], 0);
    while raw[i] != 0
      invariant i <= |CStr(raw[..])| && (raw[i] == 0 <==> i == |CStr(raw[..])|)
      invariant forall j :: 0 <= j < i ==> !MarkAt(CStr(raw[..]), j)
      decreases |CStr(raw[..])| - i
    {
      CStrAt(raw[..], i);
      CStrAt(raw[..], i + 1);
      if raw[i] == 66 && raw[i + 1] == 70 {
        CStrAt(raw[..], i + 2);
        if raw[i + 2] == 61 {
          assert MarkAt(CStr(raw[..]), i);
          FirstMarkIs(CStr(raw[..]), i);
          return Some(i);
        }
      }
      i := i + 1;
    }
    NoMark(CStr(raw[..]));
    return None;
  }

  /** The decoder, given the rest of the buffer from the block on, sees the run of the block. */
  lemma BlockRun(block: seq<byte>, coded: seq<byte>)
    requires block < coded && coded[|block|] == 0
    ensures Run(coded) == Run(block) && |Run(coded)| < |coded|
  {
    assert !InAlphabet(0);
    assert coded == block + coded[|block|..];
    RunStops(block, coded[|block|..]);
  }

  /** `decode_message`: replaces the closing semicolon by a NUL, and hands the decoded block to the decompressor. */
  method DecodeMessage(raw: array<byte>, decompress: seq<byte> -> Option<string>) returns (ascii: Option<string>)
    requires |CStr(raw[..])| < raw.Length
    modifies raw
    ensures var s := old(CStr(raw[..]));
            && raw[..] == (if Block(s).None? then old(raw[..]) else old(raw[..])[Block(s).value.end := 0])
            && ascii == (if Carried(s).None? then None else decompress(Carried(s).value))
  {
    hide Run, RfcDecode, FindMark, FindSemicolon, CStr, InAlphabet;
    ghost var s := CStr(raw[..]);
    ascii := None;
    var found := Strstr(raw);
    if found.None? {
      return;
    }
    var start := found.value + 3;
    var end := start;
    while raw[end] != 0 && raw[end] != SEMICOLON
      invariant start <= end <= |s| && SEMICOLON !in s[start..end]
      decreases |s| - end
    {
      end := end + 1;
    }
    if raw[end] != SEMICOLON {
      return;
    }
    SemicolonIs(s, start, end);
    raw[end] := 0;
    var coded := raw[start..];
    BlockRun(s[start..end], coded);
    var len := Base64DecodeLen(coded);
    var plain := new byte[len];
    var bts := Base64Decode(plain, coded);
    LengthCheck(|Run(coded)|);
    if bts != len - 1 {
      return;
    }
    ascii := decompress(plain[..bts]);
  }
}
