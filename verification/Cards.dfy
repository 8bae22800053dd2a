/** The card splitter and the line breaker of src/aristarchos.cpp. A header block is a string of 80-character cards
    (section 4.1 of the FITS Standard 4.0), without line ends. */
module Cards {
  import opened FitsHeader

  const CARD: nat := 80

  // ----- one card

  predicate IsHeaderCard(card: string) {
    |card| == CARD && card[8] == '='
  }

  /** Column of the first '/' from column 8 on, or 80. */
  function Slash(card: string): (c: nat)
    requires |card| == CARD
    ensures 8 <= c <= CARD && (c < CARD ==> card[c] == '/') && '/' !in card[8..c]
  {
    SlashFrom(card, 8)
  }

  function SlashFrom(card: string, from: nat): (c: nat)
    requires |card| == CARD && from <= CARD
    ensures from <= c <= CARD && (c < CARD ==> card[c] == '/') && '/' !in card[from..c]
    decreases CARD - from
  {
    if from == CARD || card[from] == '/' then from else SlashFrom(card, from + 1)
  }

  /** The value and the comment fit their fields, with the NUL behind them. */
  predicate WellPlaced(card: string) {
    IsHeaderCard(card) && 16 <= Slash(card) <= 42
  }

  /** Key from columns 0-7, value from column 11 to the slash, comment behind it; keys stay padded with spaces. */
  function Parse(card: string): (h: Header)
    requires WellPlaced(card)
    ensures h.value.TText? && |h.key| == 8 && |h.value.s| < VALUE_CHARS && |h.comment| < 64
  {
    var slash := Slash(card);
    Header(card[..8], card[slash + 1..], TText(card[11..slash]))
  }

  /** A card is rebuilt from its header and columns 8-10. */
  lemma Rebuild(card: string)
    requires WellPlaced(card)
    ensures var h := Parse(card);
            card == h.key + card[8..11] + h.value.s + "/" + h.comment
  {
    var slash := Slash(card);
    assert card == card[..8] + card[8..11] + card[11..slash] + card[slash..slash + 1] + card[slash + 1..];
  }

  /** What a well-formed sender writes: 8 columns of key, '=' and two more, a value without '/', and a comment. */
  predicate Renderable(h: Header, gap: string) {
    && |h.key| == 8 && |gap| == 3 && gap[0] == '=' && '/' !in gap
    && h.value.TText? && '/' !in h.value.s && 5 <= |h.value.s| <= 31
    && |h.comment| == CARD - 12 - |h.value.s|
  }

  function Render(h: Header, gap: string): (card: string)
    requires Renderable(h, gap)
    ensures |card| == CARD
  {
    h.key + gap + h.value.s + "/" + h.comment
  }

  lemma ParseRender(h: Header, gap: string)
    requires Renderable(h, gap)
    ensures WellPlaced(Render(h, gap)) && Parse(Render(h, gap)) == h
  {
    var card := Render(h, gap);
    var slash := 11 + |h.value.s|;
    assert card[8..slash] == gap + h.value.s;
    assert card[slash] == '/';
    SlashIs(card, 8, slash);
    assert card[..8] == h.key && card[11..slash] == h.value.s && card[slash + 1..] == h.comment;
  }

  /** Every card the splitter parses could have been rendered. */
  lemma RenderParse(card: string)
    requires WellPlaced(card)
    ensures Renderable(Parse(card), card[8..11]) && Render(Parse(card), card[8..11]) == card
  {
    var slash := Slash(card);
    hide Slash;
    Rebuild(card);
    assert card[8..11] == card[8..slash][..3] && card[11..slash] == card[8..slash][3..];
    assert card[8..11][0] == card[8];
  }

  lemma {:induction false} SlashIs(card: string, from: nat, slash: nat)
    requires |card| == CARD && from <= slash < CARD && card[slash] == '/' && '/' !in card[from..slash]
    ensures SlashFrom(card, from) == slash
    decreases slash - from
  {
    if from == slash {
    } else {
      assert card[from..slash][0] == card[from];
      assert card[from..slash][1..] == card[from + 1..slash];
      SlashIs(card, from + 1, slash);
    }
  }

  // ----- a block of cards

  function CardAt(text: string, i: nat): (card: string)
    requires CARD * (i + 1) <= |text|
    ensures |card| == CARD
  {
    text[CARD * i..CARD * i + CARD]
  }

  /** The headers of the first `n` cards, in order; cards that are no header cards are skipped. */
  function Headers(text: string, n: nat): (hs: seq<Header>)
    requires CARD * n <= |text|
    requires forall i :: 0 <= i < n && IsHeaderCard(CardAt(text, i)) ==> WellPlaced(CardAt(text, i))
    ensures |hs| <= n
  {
    if n == 0 then []
    else Headers(text, n - 1)
         + if IsHeaderCard(CardAt(text, n - 1)) then [Parse(CardAt(text, n - 1))] else []
  }

  /** How many of the first n cards have '=' in column 8. */
  function HeaderCards(text: string, n: nat): (count: nat)
    requires CARD * n <= |text|
    ensures count <= n
  {
    if n == 0 then 0 else HeaderCards(text, n - 1) + if text[80 * (n - 1) + 8] == '=' then 1 else 0
  }

  /** The headers of any block, line by line: there are as many as cards with '=' in column 8, and each such card has
      its header behind those of the cards before it, with columns 0 to 7 as key, columns 11 to the slash as value, and
      the rest as comment. */
  lemma {:induction false} HeadersAt(text: string, n: nat, i: nat)
    requires CARD * n <= |text|
    requires forall i :: 0 <= i < n && IsHeaderCard(CardAt(text, i)) ==> WellPlaced(CardAt(text, i))
    ensures |Headers(text, n)| == HeaderCards(text, n)
    ensures i < n && text[80 * i + 8] == '=' ==>
              var slash := 80 * i + Slash(CardAt(text, i));
              && HeaderCards(text, i) < |Headers(text, n)|
              && Headers(text, n)[HeaderCards(text, i)]
                 == Header(text[80 * i..80 * i + 8], text[slash + 1..80 * i + 80], TText(text[80 * i + 11..slash]))
  {
    if n == 0 {
    } else {
      HeadersAt(text, n - 1, i);
      if i == n - 1 && text[80 * i + 8] == '=' {
        HeadersAt(text, n - 1, n - 1);
        ColumnsOf(text, i);
      }
    }
  }

  /** The header of a card by the columns of the text. */
  lemma ColumnsOf(text: string, i: nat)
    requires CARD * (i + 1) <= |text| && WellPlaced(CardAt(text, i))
    ensures var slash := 80 * i + Slash(CardAt(text, i));
            Parse(CardAt(text, i))
            == Header(text[80 * i..80 * i + 8], text[slash + 1..80 * i + 80], TText(text[80 * i + 11..slash]))
  {
    hide Slash;
    var slash := Slash(CardAt(text, i));
    PieceOfCard(text, 80 * i, 0, 8);
    PieceOfCard(text, 80 * i, 11, slash);
    PieceOfCard(text, 80 * i, slash + 1, CARD);
  }

  /** How many cards the loop visits: up to a card that starts with a NUL, or starts behind the message length. */
  function Visits(buf: string, msgLen: nat, i: nat): (n: nat)
    requires CARD * (msgLen / CARD + 1) < |buf|
    ensures i <= msgLen / CARD + 1 ==> i <= n <= msgLen / CARD + 1
    decreases msgLen / CARD + 1 - i
  {
    if i > msgLen / CARD || buf[CARD * i] == '\0' then i else Visits(buf, msgLen, i + 1)
  }

  /** `strchr` for '/' meets the end of the string first. */
  predicate Slashless(buf: string, from: nat)
    decreases |buf| - from
  {
    from < |buf| && (buf[from] == '\0' || (buf[from] != '/' && Slashless(buf, from + 1)))
  }

  /** A card behind which no '/' can be found at all, so that the splitter gives up. */
  predicate Hopeless(buf: string, i: nat)
    requires CARD * (i + 1) <= |buf|
  {
    IsHeaderCard(CardAt(buf, i)) && Slashless(buf, CARD * i + 8)
  }

  /** The first hopeless card, or `n`. */
  function FirstHopeless(buf: string, n: nat): (f: nat)
    requires CARD * n <= |buf|
    ensures f <= n && (f < n ==> Hopeless(buf, f)) && forall i :: 0 <= i < f ==> !Hopeless(buf, i)
  {
    if n == 0 then 0
    else
      var f := FirstHopeless(buf, n - 1);
      if f < n - 1 || Hopeless(buf, n - 1) then f else n
  }

  /** Which buffers the splitter can be used on: no NUL inside a visited card, and in each header card the first '/' is
      well placed, unless there is none up to the end of the string. */
  ghost predicate Splittable(buf: string, msgLen: nat) {
    && CARD * (msgLen / CARD + 1) < |buf|
    && var n := Visits(buf, msgLen, 0);
       && '\0' !in buf[..CARD * n]
       && forall i :: 0 <= i < n && IsHeaderCard(CardAt(buf, i)) ==> WellPlaced(CardAt(buf, i)) || Hopeless(buf, i)
  }

  /** Splitting the buffer succeeds: k cards are visited, and these are their headers. */
  ghost predicate SplitsInto(buf: string, msgLen: nat, k: nat, hs: seq<Header>) {
    && Splittable(buf, msgLen)
    && Visits(buf, msgLen, 0) == k && FirstHopeless(buf, k) == k
    && (forall i :: 0 <= i < k && IsHeaderCard(CardAt(buf, i)) ==> WellPlaced(CardAt(buf, i)))
    && Headers(buf, k) == hs
  }

  lemma {:induction false} VisitsUpTo(buf: string, msgLen: nat, n: nat, i: nat)
    requires CARD * (msgLen / CARD + 1) < |buf| && i <= n <= msgLen / CARD + 1
    requires forall j :: i <= j < n ==> buf[CARD * j] != '\0'
    requires n == msgLen / CARD + 1 || buf[CARD * n] == '\0'
    ensures Visits(buf, msgLen, i) == n
    decreases n - i
  {
    if i == n {
    } else {
      VisitsUpTo(buf, msgLen, n, i + 1);
    }
  }

  /** On 80k characters without a NUL, and the message length its caller passes, exactly k cards are visited. */
  lemma VisitsEveryCard(text: string, rest: string, k: nat)
    requires k > 0 && |text| == CARD * k && '\0' !in text && rest != []
    ensures Visits(text + rest, CARD * k - 1, 0) == k
  {
    assert (CARD * k - 1) / CARD == k - 1;
    forall j | 0 <= j < k ensures (text + rest)[CARD * j] != '\0' {
      assert (text + rest)[CARD * j] == text[CARD * j];
    }
    VisitsUpTo(text + rest, CARD * k - 1, k, 0);
  }

  // ----- decoded_str_to_header

  /** `to` is where `strchr` finds '/', looking from `from` on. */
  predicate SlashAt(buf: string, from: nat, to: nat) {
    from <= to < |buf| && buf[to] == '/' && forall k :: from <= k < to ==> buf[k] != '/' && buf[k] != '\0'
  }

  /** There is no '/' from a position on exactly if the string ends in front of any. */
  lemma {:induction false} SlashlessExactlyWhen(buf: string, from: nat)
    ensures Slashless(buf, from) <==> exists end :: from <= end < |buf| && buf[end] == '\0' && '/' !in buf[from..end]
    decreases |buf| - from
  {
    if from >= |buf| || buf[from] == '\0' {
      assert from < |buf| ==> '/' !in buf[from..from];
    } else {
      SlashlessExactlyWhen(buf, from + 1);
      forall end | from < end < |buf| ensures '/' in buf[from..end] <==> buf[from] == '/' || '/' in buf[from + 1..end] {
        assert buf[from..end] == [buf[from]] + buf[from + 1..end];
      }
    }
  }

  lemma {:induction false} SlashFound(buf: string, from: nat, to: nat)
    requires SlashAt(buf, from, to)
    ensures !Slashless(buf, from)
    decreases |buf| - from
  {
    if from == to {
    } else {
      SlashFound(buf, from + 1, to);
    }
  }

  /** `strchr(buf + from, '/')`. */
  method Strchr(buf: string, from: nat, ghost to: nat) returns (stop: nat, found: bool)
    requires Slashless(buf, from) || SlashAt(buf, from, to)
    ensures from <= stop < |buf| && found == !Slashless(buf, from)
    ensures found ==> stop == to
  {
    stop := from;
    if SlashAt(buf, from, to) {
      SlashFound(buf, from, to);
    }
    while buf[stop] != '/' && buf[stop] != '\0'
      invariant from <= stop < |buf|
      invariant Slashless(buf, from) == Slashless(buf, stop)
      invariant !Slashless(buf, from) ==> stop <= to
      decreases |buf| - stop
    {
      stop := stop + 1;
    }
    found := buf[stop] == '/';
  }

  /** The slash of a well-placed card is the one `strchr` finds. */
  lemma SlashOfCard(buf: string, i: nat)
    requires CARD * (i + 1) <= |buf| && WellPlaced(CardAt(buf, i)) && '\0' !in buf[..CARD * (i + 1)]
    ensures SlashAt(buf, CARD * i + 8, CARD * i + Slash(CardAt(buf, i)))
  {
    var card, start := CardAt(buf, i), CARD * i;
    var c := Slash(card);
    forall k | start + 8 <= k < start + c ensures buf[k] != '/' && buf[k] != '\0' {
      assert buf[k] == card[8..c][k - start - 8];
      assert buf[k] == buf[..CARD * (i + 1)][k];
    }
  }

  lemma NotHopeless(buf: string, i: nat)
    requires CARD * (i + 1) <= |buf| && WellPlaced(CardAt(buf, i)) && '\0' !in buf[..CARD * (i + 1)]
    ensures !Hopeless(buf, i)
  {
    SlashOfCard(buf, i);
    SlashFound(buf, CARD * i + 8, CARD * i + Slash(CardAt(buf, i)));
  }

  lemma PieceOfCard(buf: string, start: nat, a: nat, b: nat)
    requires start + CARD <= |buf| && a <= b <= CARD
    ensures buf[start..start + CARD][a..b] == buf[start + a..start + b]
  {
    var card, piece := buf[start..start + CARD], buf[start + a..start + b];
    forall k | 0 <= k < b - a ensures card[a..b][k] == piece[k] {
      assert card[a..b][k] == card[a + k] == buf[start + (a + k)];
    }
  }

  /** The body of the loop: the header of one card, if it is a header card. */
  method SplitCard(buf: string, start: nat, ghost i: nat) returns (ok: bool, hs: seq<Header>)
    requires start == CARD * i && start + CARD <= |buf| && '\0' !in buf[..start + CARD]
    requires IsHeaderCard(CardAt(buf, i)) ==> WellPlaced(CardAt(buf, i)) || Hopeless(buf, i)
    ensures ok == !Hopeless(buf, i)
    ensures ok ==> hs == if IsHeaderCard(CardAt(buf, i)) then [Parse(CardAt(buf, i))] else []
  {
    ghost var card := CardAt(buf, i);
    assert card[8] == buf[start + 8];
    if buf[start + 8] != '=' {
      return true, [];
    }
    if WellPlaced(card) {
      SlashOfCard(buf, i);
    }
    hide Slash, Slashless, SlashAt;
    var vstop, found := Strchr(buf, start + 8, start + Slash(card));
    if !found {
      return false, [];
    }
    assert WellPlaced(card);
    PieceOfCard(buf, start, 0, 8);
    PieceOfCard(buf, start, 11, Slash(card));
    PieceOfCard(buf, start, Slash(card) + 1, CARD);
    return true, [Header(buf[start..start + 8], buf[vstop + 1..start + CARD], TText(buf[start + 11..vstop]))];
  }

  /** `decoded_str_to_header`: the headers of the visited cards, in order; -1 at the first header card behind which
      there is no '/', with the headers in front of it. */
  method DecodedStrToHeader(buf: string, msgLen: nat) returns (status: int, headers: seq<Header>)
    requires Splittable(buf, msgLen)
    ensures var n := Visits(buf, msgLen, 0); var f := FirstHopeless(buf, n);
            status == (if f < n then -1 else 0) && headers == Headers(buf, f)
  {
    hide IsHeaderCard, WellPlaced, Slashless;
    headers := [];
    ghost var n := Visits(buf, msgLen, 0);
    var start, i := 0, 0;
    while buf[start] != '\0'
      invariant i <= n && start == CARD * i
      invariant Visits(buf, msgLen, i) == n
      invariant forall j :: 0 <= j < i ==> !Hopeless(buf, j)
      invariant headers == Headers(buf, i)
      decreases n - i
    {
      if start > msgLen {
        break;
      }
      FreeOfNul(buf, start + CARD, CARD * n);
      var ok, hs := SplitCard(buf, start, i);
      if !ok {
        return -1, headers;
      }
      headers := headers + hs;
      start := start + CARD;
      i := i + 1;
    }
    status := 0;
  }

  lemma FreeOfNul(buf: string, k: nat, n: nat)
    requires k <= n <= |buf| && '\0' !in buf[..n]
    ensures '\0' !in buf[..k]
  {
    assert buf[..k] == buf[..n][..k];
  }

  // ----- a rendered block comes back

  /** A line of a header block: a header, or a card that is none, as END and COMMENT cards are. */
  datatype Line = Field(h: Header, gap: string) | Skipped(card: string)

  predicate Sendable(line: Line) {
    match line
    case Field(h, gap) => Renderable(h, gap)
    case Skipped(card) => |card| == CARD && card[8] != '='
  }

  function CardOf(line: Line): (card: string)
    requires Sendable(line)
    ensures |card| == CARD
  {
    match line
    case Field(h, gap) => Render(h, gap)
    case Skipped(card) => card
  }

  function FieldsOf(lines: seq<Line>): seq<Header> {
    if lines == [] then []
    else
      var last := lines[|lines| - 1];
      FieldsOf(lines[..|lines| - 1]) + if last.Field? then [last.h] else []
  }

  function Block(lines: seq<Line>): (text: string)
    requires forall i :: 0 <= i < |lines| ==> Sendable(lines[i])
    ensures |text| == CARD * |lines|
  {
    if lines == [] then [] else Block(lines[..|lines| - 1]) + CardOf(lines[|lines| - 1])
  }

  lemma {:induction false} CardOfBlock(lines: seq<Line>, rest: string, i: nat)
    requires (forall i :: 0 <= i < |lines| ==> Sendable(lines[i])) && i < |lines|
    ensures CardAt(Block(lines) + rest, i) == CardOf(lines[i])
  {
    hide CardOf, Sendable;
    var n := |lines| - 1;
    var init := Block(lines[..n]);
    var last := CardOf(lines[n]);
    assert Block(lines) + rest == init + (last + rest);
    if i == n {
      assert CardAt(init + (last + rest), i) == last;
    } else {
      CardOfBlock(lines[..n], last + rest, i);
    }
  }

  /** What a card of a rendered block is to the splitter. */
  lemma CardOfLine(line: Line)
    requires Sendable(line)
    ensures IsHeaderCard(CardOf(line)) <==> line.Field?
    ensures line.Field? ==> WellPlaced(CardOf(line)) && Parse(CardOf(line)) == line.h
  {
    if line.Field? {
      ParseRender(line.h, line.gap);
    }
  }

  lemma {:induction false} HeadersOfBlock(lines: seq<Line>, rest: string, n: nat)
    requires (forall i :: 0 <= i < |lines| ==> Sendable(lines[i])) && n <= |lines|
    ensures forall i :: 0 <= i < n && IsHeaderCard(CardAt(Block(lines) + rest, i)) ==>
              WellPlaced(CardAt(Block(lines) + rest, i))
    ensures Headers(Block(lines) + rest, n) == FieldsOf(lines[..n])
  {
    hide Block, CardOf, Sendable, Parse, WellPlaced, IsHeaderCard, CardAt;
    if n == 0 {
    } else {
      HeadersOfBlock(lines, rest, n - 1);
      CardOfBlock(lines, rest, n - 1);
      CardOfLine(lines[n - 1]);
      assert lines[..n][..n - 1] == lines[..n - 1];
    }
  }

  /** On text whose header cards are well placed, the splitter visits and accepts every card. */
  lemma SplitsWellPlaced(text: string, rest: string, k: nat)
    requires k > 0 && |text| == CARD * k && '\0' !in text && rest != []
    requires forall i :: 0 <= i < k && IsHeaderCard(CardAt(text + rest, i)) ==> WellPlaced(CardAt(text + rest, i))
    ensures var buf := text + rest;
            && Splittable(buf, CARD * k - 1)
            && Visits(buf, CARD * k - 1, 0) == k && FirstHopeless(buf, k) == k
  {
    var buf := text + rest;
    VisitsEveryCard(text, rest, k);
    assert buf[..CARD * k] == text;
    hide WellPlaced, Slashless, IsHeaderCard, CardAt, Visits;
    forall i | 0 <= i < k ensures !Hopeless(buf, i) {
      if IsHeaderCard(CardAt(buf, i)) {
        FreeOfNul(buf, CARD * (i + 1), CARD * k);
        NotHopeless(buf, i);
      }
    }
  }

  /** Splitting a rendered block with the length its caller passes gives back exactly the headers it was rendered from,
      whatever other cards stand among them and whatever the buffer holds behind it. */
  lemma SplitRendered(lines: seq<Line>, rest: string)
    requires lines != [] && forall i :: 0 <= i < |lines| ==> Sendable(lines[i])
    requires rest != [] && '\0' !in Block(lines)
    ensures SplitsInto(Block(lines) + rest, CARD * |lines| - 1, |lines|, FieldsOf(lines))
  {
    hide Block, Sendable, WellPlaced, IsHeaderCard, Splittable, Visits, FirstHopeless, Headers, CardAt, FieldsOf;
    HeadersOfBlock(lines, rest, |lines|);
    assert lines[..|lines|] == lines;
    SplitsWellPlaced(Block(lines), rest, |lines|);
  }
}
