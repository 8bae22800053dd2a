/** `get_aristarchos_headers` in src/aristarchos.cpp: asks the telescope until a reply can be decoded, and splits the
    decoded text into headers. What each request returns, and the decompressor, are parameters. */
module HeaderRequest {
  import opened CString
  import opened BitStream
  import opened Base64
  import opened FitsHeader
  import Framing
  import Cards

  /** The text of a reply, if it can be decoded. */
  function TextOf(reply: Option<seq<byte>>, decompress: seq<byte> -> Option<string>): Option<string> {
    if reply.None? || Framing.Carried(Framing.CStr(reply.value)).None? then None
    else decompress(Framing.Carried(Framing.CStr(reply.value)).value)
  }

  /** The first of some replies that can be decoded, or their number. */
  function FirstGood(replies: seq<Option<seq<byte>>>, decompress: seq<byte> -> Option<string>): (i: nat)
    ensures i <= |replies|
    ensures i < |replies| ==> TextOf(replies[i], decompress).Some?
    ensures forall j :: 0 <= j < i ==> TextOf(replies[j], decompress).None?
  {
    if replies == [] || TextOf(replies[0], decompress).Some? then 0 else 1 + FirstGood(replies[1..], decompress)
  }

  /** Replies are C strings, and what they decompress to can be split; `behind` is what the text buffer holds behind
      it. */
  ghost predicate Usable(replies: seq<Option<seq<byte>>>, decompress: seq<byte> -> Option<string>, behind: string) {
    forall i :: 0 <= i < |replies| && replies[i].Some? ==>
      && |Framing.CStr(replies[i].value)| < |replies[i].value|
      && (TextOf(replies[i], decompress).Some? ==>
            var text := TextOf(replies[i], decompress).value;
            text != [] && Cards.Splittable(text + behind, |text| - 1))
  }

  lemma UsableAt(replies: seq<Option<seq<byte>>>, decompress: seq<byte> -> Option<string>, behind: string, i: nat)
    requires Usable(replies, decompress, behind) && i < |replies| && TextOf(replies[i], decompress).Some?
    ensures var text := TextOf(replies[i], decompress).value;
            text != [] && Cards.Splittable(text + behind, |text| - 1)
  {
  }

  method GetAristarchosHeaders(numTries: int, replies: seq<Option<seq<byte>>>,
                               decompress: seq<byte> -> Option<string>, behind: string)
    returns (status: int, headers: seq<Header>)
    requires numTries <= |replies| && Usable(replies, decompress, behind)
    ensures var tried := if numTries < 0 then [] else replies[..numTries];
            var g := FirstGood(tried, decompress);
            if g == |tried| then status == 1 && headers == []
            else
              var text := TextOf(tried[g], decompress).value;
              var n := Cards.Visits(text + behind, |text| - 1, 0);
              var f := Cards.FirstHopeless(text + behind, n);
              status == (if f < n then -1 else 0) && headers == Cards.Headers(text + behind, f)
  {
    hide TextOf, Framing.Carried, Framing.CStr, Cards.Splittable, Cards.Visits, Cards.FirstHopeless, Cards.Headers;
    headers := [];
    var error := 1;
    var text := None;
    var ctry := 0;
    ghost var tried := if numTries < 0 then [] else replies[..numTries];
    while ctry < numTries && error != 0
      invariant 0 <= ctry <= |tried|
      invariant error == 0 ==> ctry > 0 && text == TextOf(replies[ctry - 1], decompress) && text.Some?
      invariant forall j :: 0 <= j < ctry - (if error == 0 then 1 else 0) ==> TextOf(replies[j], decompress).None?
    {
      ctry := ctry + 1;
      error := 0;
      text := Ask(replies[ctry - 1], decompress);
      if text.None? {
        error := 1;
      }
    }
    if error != 0 {
      FirstGoodIs(tried, decompress, |tried|);
      return 1, [];
    }
    FirstGoodIs(tried, decompress, ctry - 1);
    UsableAt(replies, decompress, behind, ctry - 1);
    status, headers := Cards.DecodedStrToHeader(text.value + behind, |text.value| - 1);
  }

  /** One try: the request, and the decoding of its reply. */
  method Ask(reply: Option<seq<byte>>, decompress: seq<byte> -> Option<string>) returns (text: Option<string>)
    requires reply.Some? ==> |Framing.CStr(reply.value)| < |reply.value|
    ensures text == TextOf(reply, decompress)
  {
    hide Framing.Carried, Framing.CStr;
    if reply.None? {
      return None;
    }
    var raw := new byte[|reply.value|](i requires 0 <= i < |reply.value| => reply.value[i]);
    assert raw[..] == reply.value;
    text := Framing.DecodeMessage(raw, decompress);
  }

  lemma FirstGoodIs(replies: seq<Option<seq<byte>>>, decompress: seq<byte> -> Option<string>, i: nat)
    requires i <= |replies|
    requires i < |replies| ==> TextOf(replies[i], decompress).Some?
    requires forall j :: 0 <= j < i ==> TextOf(replies[j], decompress).None?
    ensures FirstGood(replies, decompress) == i
  {
    hide FirstGood, TextOf;
    assert !(FirstGood(replies, decompress) < i) && !(i < FirstGood(replies, decompress));
  }

  /** From one end to the other: if the first decodable reply frames the compressed form of a rendered block, its length
      being a multiple of three, the request ends with exactly the headers that were rendered. */
  lemma HeadersArrive(lines: seq<Cards.Line>, before: seq<byte>, packed: seq<byte>, after: seq<byte>, reply: seq<byte>,
                      decompress: seq<byte> -> Option<string>, behind: string)
    requires lines != [] && forall i :: 0 <= i < |lines| ==> Cards.Sendable(lines[i])
    requires behind != [] && '\0' !in Cards.Block(lines)
    requires decompress(packed) == Some(Cards.Block(lines)) && |packed| % 3 == 0
    requires var s := before + Framing.MARK + RfcEncode(packed) + [Framing.SEMICOLON] + after;
             Framing.CStr(reply) == s && forall j :: 0 <= j < |before| ==> !Framing.MarkAt(s, j)
    ensures TextOf(Some(reply), decompress) == Some(Cards.Block(lines))
    ensures var text := Cards.Block(lines);
            Cards.SplitsInto(text + behind, |text| - 1, |lines|, Cards.FieldsOf(lines))
  {
    hide RfcEncode, Framing.Carried, Framing.MarkAt, Framing.CStr, Cards.Block, Cards.Sendable, Cards.SplitsInto;
    Framing.FramedPayload(before, packed, after);
    Cards.SplitRendered(lines, behind);
  }
}
