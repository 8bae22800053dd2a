/** `add_char_every` in src/aristarchos.cpp: breaks a text into lines by inserting a delimiter after every so many
    characters, and at its end. */
module LineBreaks {
  import opened Basics

  /** The blocks of the text, each followed by the delimiter; only the last one may be shorter. */
  function Delimited(source: string, every: nat, delim: char): (s: string)
    requires every > 0
  {
    if source == [] then []
    else if |source| <= every then source + [delim]
    else source[..every] + [delim] + Delimited(source[every..], every, delim)
  }

  /** Dropping the inserted positions. */
  function Joined(lines: string, every: nat): string
    requires every > 0
  {
    if lines == [] then []
    else if |lines| <= every + 1 then lines[..|lines| - 1]
    else lines[..every] + Joined(lines[every + 1..], every)
  }

  /** Number of blocks. */
  function Blocks(len: nat, every: nat): nat
    requires every > 0
  {
    len / every + if len % every != 0 then 1 else 0
  }

  lemma BlocksAfterOne(len: nat, every: nat)
    requires 0 < every < len
    ensures Blocks(len, every) == 1 + Blocks(len - every, every)
  {
    DivMod(len, every, len / every, len % every);
    DivMod(len - every, every, len / every - 1, len % every);
  }

  lemma DivMod(x: nat, n: nat, q: nat, r: nat)
    requires n > 0 && x == q * n + r && r < n
    ensures x / n == q && x % n == r
  {
    var p := x / n;
    assert x == p * n + x % n;
    if p > q {
      TimesGrows(q + 1, p, n);
    } else if p < q {
      TimesGrows(p + 1, q, n);
    }
  }

  /** Dropping the inserted positions recovers the text, and there is one insertion for each block. */
  lemma {:induction false} JoinedDelimited(source: string, every: nat, delim: char)
    requires every > 0
    ensures Joined(Delimited(source, every, delim), every) == source
    ensures |Delimited(source, every, delim)| == |source| + Blocks(|source|, every)
  {
    var lines := Delimited(source, every, delim);
    if |source| <= every {
      BlocksOfOne(|source|, every);
    } else {
      JoinedDelimited(source[every..], every, delim);
      BlocksAfterOne(|source|, every);
      assert lines[every + 1..] == Delimited(source[every..], every, delim);
      assert lines[..every] == source[..every];
      assert |lines| > every + 1;
    }
  }

  lemma BlocksOfOne(len: nat, every: nat)
    requires 0 < every && len <= every
    ensures Blocks(len, every) == if len == 0 then 0 else 1
  {
    if len < every {
      DivMod(len, every, 0, len);
    } else {
      DivMod(len, every, 1, 0);
    }
  }

  /** How long the buffer must be: the last block is copied with `strncpy`, which pads it to its full length. */
  function Need(len: nat, every: nat): nat
    requires every > 0
  {
    var n := Blocks(len, every);
    if n == 0 then 1
    else if len + n + 1 > (every + 1) * n - 1 then len + n + 1 else (every + 1) * n - 1
  }

  lemma NoBlocks(len: nat, every: nat)
    requires every > 0
    ensures Blocks(len, every) == 0 <==> len == 0
  {
    assert len == len / every * every + len % every;
  }

  lemma OneLess(m: int, n: int)
    ensures m * (n - 1) == m * n - m
  {
  }

  /** No more and no less: the delimited text and its NUL, or all blocks but the last with their delimiters and the last
      one padded. */
  lemma NeedIsLeast(source: string, every: nat, delim: char)
    requires every > 0
    ensures var need, n := Need(|source|, every), Blocks(|source|, every);
            var text, padded := |Delimited(source, every, delim)| + 1, (every + 1) * (n - 1) + every;
            need >= text && (n > 0 ==> need >= padded) && (need == text || (n > 0 && need == padded))
  {
    JoinedDelimited(source, every, delim);
    NoBlocks(|source|, every);
    OneLess(every + 1, Blocks(|source|, every));
    hide Delimited, Blocks;
  }

  // ----- add_char_every

  /** `strncpy(dest + at, rest, every)`: pads a short text with NULs. */
  method Strncpy(dest: array<char>, at: nat, rest: string, every: nat)
    requires at + every <= dest.Length
    modifies dest
    ensures forall k :: at <= k < at + every ==> dest[k] == if k - at < |rest| then rest[k - at] else '\0'
    ensures forall k :: 0 <= k < dest.Length && !(at <= k < at + every) ==> dest[k] == old(dest[k])
  {
    for n := at to at + every
      invariant forall k :: at <= k < n ==> dest[k] == if k - at < |rest| then rest[k - at] else '\0'
      invariant forall k :: 0 <= k < dest.Length && !(at <= k < n) ==> dest[k] == old(dest[k])
    {
      dest[n] := if n - at < |rest| then rest[n - at] else '\0';
    }
  }

  function NextBlock(rest: string, every: nat): (block: string)
    ensures |block| <= every && |block| <= |rest|
  {
    if |rest| <= every then rest else rest[..every]
  }

  /** One pass of the loop: copies block `i` and puts the delimiter behind it. */
  method PutBlock(source: string, dest: array<char>, every: nat, delim: char, i: nat, at: nat) returns (next: nat)
    requires every > 0 && every * i < |source|
    requires at + every <= dest.Length && at + |NextBlock(source[every * i..], every)| < dest.Length
    modifies dest
    ensures var block := NextBlock(source[every * i..], every);
            next == at + |block| + 1 && dest[..next] == old(dest[..at]) + block + [delim]
    ensures forall k :: at + every <= k < dest.Length && next <= k ==> dest[k] == old(dest[k])
  {
    var from := every * i;
    var rest := source[from..];
    Strncpy(dest, at, rest, every);
    assert (i + 1) * every == from + every;
    var charsAdded := if (i + 1) * every < |source| then every else |source| - i * every;
    next := at + charsAdded;
    dest[next] := delim;
    next := next + 1;
  }

  /** The result is the delimited text, NUL-terminated. */
  method AddCharEvery(source: string, dest: array<char>, every: nat, delim: char)
    requires every > 0 && '\0' !in source && Need(|source|, every) <= dest.Length
    modifies dest
    ensures var lines := Delimited(source, every, delim);
            |lines| < dest.Length && dest[..|lines|] == lines && dest[|lines|] == '\0'
    ensures forall k :: Need(|source|, every) <= k < dest.Length ==> dest[k] == old(dest[k])
  {
    hide Need, Delimited, Blocks, NextBlock, Pending;
    var addNr := Blocks(|source|, every);
    var at: nat := 0;
    var i := 0;
    ghost var rest, lines := source, Delimited(source, every, delim);
    LoopStarts(source, every, delim);
    while i < addNr
      invariant i <= addNr && Pending(source, every, i, at, rest)
      invariant at <= |lines| < dest.Length && lines == dest[..at] + Delimited(rest, every, delim)
      invariant forall k :: Need(|source|, every) <= k < dest.Length ==> dest[k] == old(dest[k])
    {
      ghost var block := LoopGoesOn(source, every, delim, i, at, rest);
      ghost var later := Delimited(rest[|block|..], every, delim);
      Reassociate(dest[..at], block + [delim], later);
      Reassociate(dest[..at], block, [delim]);
      at := PutBlock(source, dest, every, delim, i, at);
      rest := rest[|block|..];
      i := i + 1;
    }
    LoopEnds(source, every, delim, at, rest);
    dest[at] := '\0';
  }

  /** Before block `i`: what is still to be copied, and where it goes. */
  ghost predicate Pending(source: string, every: nat, i: nat, at: nat, rest: string)
    requires every > 0
  {
    var n := Blocks(|source|, every);
    && i <= n && Blocks(|rest|, every) == n - i
    && (i < n ==> every * i < |source| && rest == source[every * i..] && at == every * i + i)
  }

  lemma LoopStarts(source: string, every: nat, delim: char)
    requires every > 0
    ensures Pending(source, every, 0, 0, source)
    ensures |Delimited(source, every, delim)| < Need(|source|, every)
  {
    NextOf(source, every, delim);
    JoinedDelimited(source, every, delim);
    NeedIs(|source|, every);
  }

  lemma LoopGoesOn(source: string, every: nat, delim: char, i: nat, at: nat, rest: string) returns (block: string)
    requires every > 0 && i < Blocks(|source|, every) && Pending(source, every, i, at, rest)
    ensures every * i < |source| && block == NextBlock(source[every * i..], every)
    ensures |block| <= |rest| && at + every <= Need(|source|, every)
    ensures Delimited(rest, every, delim) == block + [delim] + Delimited(rest[|block|..], every, delim)
    ensures Pending(source, every, i + 1, at + |block| + 1, rest[|block|..])
  {
    hide Need, Delimited, Blocks, NextBlock;
    NextOf(rest, every, delim);
    RoomForBlock(|source|, every, i, at);
    block := NextBlock(rest, every);
    NextStart(source, rest, every, i, |block|);
  }

  lemma LoopEnds(source: string, every: nat, delim: char, at: nat, rest: string)
    requires every > 0 && Pending(source, every, Blocks(|source|, every), at, rest)
    ensures Delimited(rest, every, delim) == []
  {
    NextOf(rest, every, delim);
  }

  lemma NextStart(source: string, rest: string, every: nat, i: nat, n: nat)
    requires every * i <= |source| && rest == source[every * i..] && n <= |rest|
    ensures every * (i + 1) == every * i + every
    ensures n == every ==> every * (i + 1) <= |source| && rest[n..] == source[every * (i + 1)..]
  {
    assert every * (i + 1) == every * i + every;
  }

  lemma NeedIs(len: nat, every: nat)
    requires every > 0
    ensures len + Blocks(len, every) < Need(len, every)
  {
  }

  /** Taking a block off the text takes it off the delimited text. */
  lemma NextOf(rest: string, every: nat, delim: char)
    requires every > 0
    ensures Blocks(|rest|, every) == 0 <==> rest == []
    ensures rest == [] ==> Delimited(rest, every, delim) == []
    ensures rest != [] ==> var block := NextBlock(rest, every);
              && Delimited(rest, every, delim) == block + [delim] + Delimited(rest[|block|..], every, delim)
              && Blocks(|rest[|block|..]|, every) == Blocks(|rest|, every) - 1
              && (Blocks(|rest|, every) > 1 ==> |block| == every && |rest| > every)
  {
    if |rest| <= every {
      BlocksOfOne(|rest|, every);
      assert rest[|rest|..] == [];
      BlocksOfOne(0, every);
    } else {
      BlocksAfterOne(|rest|, every);
    }
  }

  lemma RoomForBlock(len: nat, every: nat, i: nat, at: nat)
    requires every > 0 && i < Blocks(len, every) && at == every * i + i
    ensures at + every <= Need(len, every)
  {
    TimesGrows(i + 1, Blocks(len, every), every + 1);
  }
}
