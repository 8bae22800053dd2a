/** The retired resumable Base64 decoder (src/cdecode.cpp.old, from libb64): it skips everything outside the alphabet
    and can be fed a text in pieces. Proved against the same bit-stream reference as Base64. */
module Cdecode {
  import opened BitStream
  import opened Base64

  /** `base64_decode_value`: the table's `signed char` entries as bytes, so that -1 is 0xFF and -2 is 0xFE. */
  function DecodeValue(c: byte): byte {
    if c < 43 || c >= 0x80 then 0xFF          // below '+' as a signed char
    else if c >= 43 + 80 then 0xFF            // behind the table
    else if c == 43 then 62
    else if c == 47 then 63
    else if 48 <= c <= 57 then c + 4
    else if c == 61 then 0xFE
    else if 65 <= c <= 90 then c - 65
    else if 97 <= c <= 122 then c - 71
    else 0xFF
  }

  /** The table has -2 for '=' and -1 for everything else outside the alphabet. */
  lemma ForeignValues(c: byte)
    ensures !InAlphabet(c) ==> DecodeValue(c) == if c == 61 then 254 else 255
  {
  }

  predicate Negative(v: byte) {
    v >= 0x80
  }

  /** The two decoders' tables agree: non-negative on exactly the alphabet, with the same values. */
  lemma TablesAgree(c: byte)
    ensures Negative(DecodeValue(c)) <==> !InAlphabet(c)
    ensures InAlphabet(c) ==> DecodeValue(c) == Pr2Six(c)
  {
  }

  // ----- what is decoded

  /** The alphabet characters of a text, in order. */
  function Sieve(text: seq<byte>): (kept: seq<byte>)
    ensures IsRun(kept)
  {
    if text == [] then []
    else if InAlphabet(text[0]) then [text[0]] + Sieve(text[1..])
    else Sieve(text[1..])
  }

  lemma {:induction false} SieveConcat(a: seq<byte>, b: seq<byte>)
    ensures Sieve(a + b) == Sieve(a) + Sieve(b)
  {
    if a == [] {
      assert a + b == b;
    } else {
      assert (a + b)[1..] == a[1..] + b;
      SieveConcat(a[1..], b);
    }
  }

  lemma {:induction false} SieveOfRun(run: seq<byte>)
    requires IsRun(run)
    ensures Sieve(run) == run
  {
    if run == [] {
    } else {
      SieveOfRun(run[1..]);
    }
  }

  lemma {:induction false} SieveShrinks(text: seq<byte>)
    ensures |Sieve(text)| <= |text|
  {
    if text == [] {
    } else {
      SieveShrinks(text[1..]);
    }
  }

  function Concat(pieces: seq<seq<byte>>): seq<byte> {
    if pieces == [] then [] else pieces[0] + Concat(pieces[1..])
  }

  // ----- the bits in hand between two characters

  /** The bits of a run that do not fill a byte yet. */
  function Left(run: seq<byte>): (bits: seq<bool>)
    requires IsRun(run)
    ensures |bits| == 6 * |run| % 8
  {
    SextetsToBits(Values(run))[6 * |run| / 8 * 8..]
  }

  /** `step` counts characters modulo four, and `plainchar` starts with the bits in hand and goes on with zeros. Between
      two groups of four nothing is in hand, and `plainchar` is whatever happened to be in the output buffer. */
  ghost predicate Holds(run: seq<byte>, step: nat, plainchar: byte)
    requires IsRun(run)
  {
    && step == |run| % 4
    && (step != 0 ==> Bits8(plainchar) == Left(run) + Zeros(8 - |Left(run)|))
  }

  lemma HoldsStep(run: seq<byte>, step: nat, plainchar: byte, other: byte)
    requires IsRun(run)
    requires Holds(run, step, plainchar)
    ensures step == |run| % 4 <= 3
    ensures step == 0 || other == plainchar ==> Holds(run, step, other)
  {
  }

  /** What each case of the switch adds to the byte in hand, and starts the next one with. */
  function Completed(step: nat, plainchar: byte, fragment: byte): byte {
    if step == 1 then plainchar | ((fragment & 0x30) >> 4)
    else if step == 2 then plainchar | ((fragment & 0x3C) >> 2)
    else plainchar | (fragment & 0x3F)
  }

  function Started(step: nat, fragment: byte): byte {
    if step == 0 then (fragment & 0x3F) << 2
    else if step == 1 then (fragment & 0x0F) << 4
    else (fragment & 0x03) << 6
  }

  lemma CompletedMasks1(p: byte, f: byte)
    requires f < 64 && !On(p, 0x02) && !On(p, 0x01)
    ensures var b := Completed(1, p, f); On(b, 0x80) == On(p, 0x80) && On(b, 0x40) == On(p, 0x40)
    ensures var b := Completed(1, p, f); On(b, 0x20) == On(p, 0x20) && On(b, 0x10) == On(p, 0x10)
    ensures var b := Completed(1, p, f); On(b, 0x08) == On(p, 0x08) && On(b, 0x04) == On(p, 0x04)
    ensures var b := Completed(1, p, f); On(b, 0x02) == On(f, 0x20) && On(b, 0x01) == On(f, 0x10)
  {
  }

  lemma CompletedMasks2(p: byte, f: byte)
    requires f < 64 && !On(p, 0x08) && !On(p, 0x04) && !On(p, 0x02) && !On(p, 0x01)
    ensures var b := Completed(2, p, f); On(b, 0x80) == On(p, 0x80) && On(b, 0x40) == On(p, 0x40)
    ensures var b := Completed(2, p, f); On(b, 0x20) == On(p, 0x20) && On(b, 0x10) == On(p, 0x10)
    ensures var b := Completed(2, p, f); On(b, 0x08) == On(f, 0x20) && On(b, 0x04) == On(f, 0x10)
    ensures var b := Completed(2, p, f); On(b, 0x02) == On(f, 0x08) && On(b, 0x01) == On(f, 0x04)
  {
  }

  lemma CompletedMasks3(p: byte, f: byte)
    requires f < 64 && !On(p, 0x20) && !On(p, 0x10) && !On(p, 0x08) && !On(p, 0x04) && !On(p, 0x02) && !On(p, 0x01)
    ensures var b := Completed(3, p, f); On(b, 0x80) == On(p, 0x80) && On(b, 0x40) == On(p, 0x40)
    ensures var b := Completed(3, p, f); On(b, 0x20) == On(f, 0x20) && On(b, 0x10) == On(f, 0x10)
    ensures var b := Completed(3, p, f); On(b, 0x08) == On(f, 0x08) && On(b, 0x04) == On(f, 0x04)
    ensures var b := Completed(3, p, f); On(b, 0x02) == On(f, 0x02) && On(b, 0x01) == On(f, 0x01)
  {
  }

  /** Completing the byte in hand appends the first bits of the new character. */
  lemma CompletedBits(step: nat, left: seq<bool>, p: byte, f: byte)
    requires 1 <= step <= 3 && |left| == 8 - 2 * step && f < 64
    requires Bits8(p) == left + Zeros(2 * step)
    ensures Bits8(Completed(step, p, f)) == left + Bits6(f)[..2 * step]
  {
    hide Bits6, Bits8, On, Completed;
    assert forall k :: |left| <= k < 8 ==> !Bits8(p)[k];
    if step == 1 {
      CompletedMasks1(p, f);
    } else if step == 2 {
      CompletedMasks2(p, f);
    } else {
      CompletedMasks3(p, f);
    }
  }

  lemma StartedMasks0(f: byte)
    requires f < 64
    ensures var b := Started(0, f); On(b, 0x80) == On(f, 0x20) && On(b, 0x40) == On(f, 0x10)
    ensures var b := Started(0, f); On(b, 0x20) == On(f, 0x08) && On(b, 0x10) == On(f, 0x04)
    ensures var b := Started(0, f); On(b, 0x08) == On(f, 0x02) && On(b, 0x04) == On(f, 0x01)
    ensures var b := Started(0, f); !On(b, 0x02) && !On(b, 0x01)
  {
  }

  lemma StartedMasks1(f: byte)
    requires f < 64
    ensures var b := Started(1, f); On(b, 0x80) == On(f, 0x08) && On(b, 0x40) == On(f, 0x04)
    ensures var b := Started(1, f); On(b, 0x20) == On(f, 0x02) && On(b, 0x10) == On(f, 0x01)
    ensures var b := Started(1, f); !On(b, 0x08) && !On(b, 0x04)
    ensures var b := Started(1, f); !On(b, 0x02) && !On(b, 0x01)
  {
  }

  lemma StartedMasks2(f: byte)
    requires f < 64
    ensures var b := Started(2, f); On(b, 0x80) == On(f, 0x02) && On(b, 0x40) == On(f, 0x01)
    ensures var b := Started(2, f); !On(b, 0x20) && !On(b, 0x10)
    ensures var b := Started(2, f); !On(b, 0x08) && !On(b, 0x04)
    ensures var b := Started(2, f); !On(b, 0x02) && !On(b, 0x01)
  {
  }

  /** The next byte starts with the remaining bits of the character, and zeros. */
  lemma StartedBits(step: nat, f: byte)
    requires step <= 2 && f < 64
    ensures Bits8(Started(step, f)) == Bits6(f)[2 * step..] + Zeros(2 + 2 * step)
  {
    hide Bits6, Bits8, On, Started;
    if step == 0 {
      StartedMasks0(f);
    } else if step == 1 {
      StartedMasks1(f);
    } else {
      StartedMasks2(f);
    }
  }

  /** One more character: its bits follow the ones in hand, and the first eight, if there are as many, are a byte. */
  lemma Push(run: seq<byte>, c: byte)
    requires IsRun(run)
    requires InAlphabet(c)
    ensures IsRun(run + [c])
    ensures var bits := Left(run) + Bits6(Pr2Six(c));
            if |bits| < 8 then RfcDecode(run + [c]) == RfcDecode(run) && Left(run + [c]) == bits
            else RfcDecode(run + [c]) == RfcDecode(run) + [ByteOf(bits[..8])] && Left(run + [c]) == bits[8..]
  {
    hide SextetsToBits, Octets, Bits6, Pr2Six, ByteOf;
    var before := SextetsToBits(Values(run));
    var whole := before[..|before| / 8 * 8];
    var bits := Left(run) + Bits6(Pr2Six(c));
    assert before == whole + Left(run);
    OneMoreSextet(run, c);
    assert SextetsToBits(Values(run + [c])) == whole + bits;
    OctetsConcat(whole, Left(run));
    OctetsConcat(whole, bits);
    OctetsOfShort(Left(run));
    OctetsOfShort(bits);
  }

  lemma OneMoreSextet(run: seq<byte>, c: byte)
    requires IsRun(run)
    requires InAlphabet(c)
    ensures SextetsToBits(Values(run + [c])) == SextetsToBits(Values(run)) + Bits6(Pr2Six(c))
  {
    hide Bits6, Pr2Six;
    assert Values(run + [c]) == Values(run) + [Pr2Six(c)];
    SextetsToBitsConcat(Values(run), [Pr2Six(c)]);
    assert SextetsToBits([Pr2Six(c)]) == Bits6(Pr2Six(c)) + [];
  }

  /** Each case of the switch emits the next decoded byte, if one is complete, and keeps the bits in hand. */
  lemma CaseKeeps(run: seq<byte>, step: nat, p: byte, c: byte)
    requires IsRun(run)
    requires InAlphabet(c) && Holds(run, step, p)
    ensures IsRun(run + [c])
    ensures RfcDecode(run + [c]) == RfcDecode(run) + if step == 0 then [] else [Completed(step, p, Pr2Six(c))]
    ensures step < 3 ==> Holds(run + [c], step + 1, Started(step, Pr2Six(c)))
    ensures step == 3 ==> forall any: byte :: Holds(run + [c], 0, any)
  {
    hide Completed, Started, RfcDecode, Left, Pr2Six, Bits8, Bits6, ByteOf, IsRun;
    var f := Pr2Six(c);
    Push(run, c);
    LeftLength(|run|);
    LeftLength(|run + [c]|);
    if step > 0 {
      CompletedBits(step, Left(run), p, f);
      SplitAtEight(Left(run), Bits6(f), 2 * step);
      ByteOfBits8(Completed(step, p, f));
    } else {
      assert Left(run) + Bits6(f) == Bits6(f)[0..];
    }
    if step < 3 {
      StartedBits(step, f);
    }
  }

  lemma LeftLength(n: nat)
    ensures n % 4 == 0 ==> 6 * n % 8 == 0
    ensures n % 4 != 0 ==> 6 * n % 8 == 8 - 2 * (n % 4)
    ensures (n + 1) % 4 == if n % 4 == 3 then 0 else n % 4 + 1
  {
    var q, r := n / 4, n % 4;
    var d, m := if r == 0 then 3 * q else 3 * q + r - 1, if r == 0 then 0 else 8 - 2 * r;
    RemainderIs(6 * n, 8, d, m);
    RemainderIs(n + 1, 4, if r == 3 then q + 1 else q, if r == 3 then 0 else r + 1);
  }

  lemma RemainderIs(x: nat, n: nat, d: nat, m: nat)
    requires n == 4 || n == 8
    requires x == n * d + m && m < n
    ensures x % n == m
  {
  }

  lemma SplitAtEight(left: seq<bool>, more: seq<bool>, n: nat)
    requires |left| + n == 8 && n <= |more|
    ensures (left + more)[..8] == left + more[..n] && (left + more)[8..] == more[n..]
  {
  }

  // ----- the decoder

  /** The byte in hand between two characters, and the bytes completed so far. */
  datatype Machine = Machine(step: nat, cell: byte, bytes: seq<byte>)

  /** A character outside the alphabet is skipped. Step 0 completes no byte, and step 3 starts none. */
  function Case(m: Machine, c: byte): Machine {
    if !InAlphabet(c) then m
    else
      var bytes := if m.step == 0 then m.bytes else m.bytes + [Completed(m.step, m.cell, Pr2Six(c))];
      Machine((m.step + 1) % 4, if m.step == 3 then 0 else Started(m.step, Pr2Six(c)), bytes)
  }

  function Fed(m: Machine, text: seq<byte>): Machine {
    if text == [] then m else Case(Fed(m, text[..|text| - 1]), text[|text| - 1])
  }

  lemma CaseDecodes(run: seq<byte>, m: Machine, c: byte)
    requires IsRun(run)
    requires Holds(run, m.step, m.cell) && m.bytes == RfcDecode(run)
    ensures IsRun(run + Sieve([c]))
    ensures var next := Case(m, c);
            Holds(run + Sieve([c]), next.step, next.cell) && next.bytes == RfcDecode(run + Sieve([c]))
  {
    SieveOfOne(c);
    hide Completed, Started, RfcDecode, Holds, Pr2Six, InAlphabet, Sieve, IsRun;
    if InAlphabet(c) {
      HoldsStep(run, m.step, m.cell, m.cell);
      CaseKeeps(run, m.step, m.cell, c);
      if m.step == 0 {
        assert m.bytes + [] == m.bytes;
      } else if m.step == 3 {
        assert Holds(run + [c], 0, 0);
      }
    } else {
      assert run + [] == run;
    }
  }

  lemma SieveOfOne(c: byte)
    ensures Sieve([c]) == if InAlphabet(c) then [c] else []
  {
  }

  /** Fed any text, the machine completes the bytes spelt by the alphabet characters in it, after those fed before. */
  lemma {:induction false} FedDecodes(run: seq<byte>, m: Machine, text: seq<byte>)
    requires IsRun(run)
    requires Holds(run, m.step, m.cell)
    ensures IsRun(run + Sieve(text))
    ensures var fed := Fed(m.(bytes := RfcDecode(run)), text);
            Holds(run + Sieve(text), fed.step, fed.cell) && fed.bytes == RfcDecode(run + Sieve(text))
  {
    hide Case, RfcDecode, Holds, InAlphabet, IsRun;
    if text == [] {
      assert run + Sieve(text) == run;
    } else {
      var init, c := text[..|text| - 1], text[|text| - 1];
      FedDecodes(run, m, init);
      SieveConcat(init, [c]);
      assert init + [c] == text;
      CaseDecodes(run + Sieve(init), Fed(m.(bytes := RfcDecode(run)), init), c);
      assert run + Sieve(text) == run + Sieve(init) + Sieve([c]);
    }
  }

  lemma CaseAppends(m: Machine, cell: byte, c: byte)
    requires m.step <= 3 && (m.step != 0 ==> cell == m.cell)
    ensures var next := Case(m, c); var afresh := Case(Machine(m.step, cell, []), c);
            && next.step == afresh.step && next.bytes == m.bytes + afresh.bytes
            && (next.step != 0 ==> next.cell == afresh.cell)
  {
    hide Completed, Started, Pr2Six, InAlphabet;
  }

  /** What the machine completes does not depend on what it completed before. */
  lemma {:induction false} FedAppends(m: Machine, text: seq<byte>)
    ensures var fed := Fed(m, text); var afresh := Fed(m.(bytes := []), text);
            fed == afresh.(bytes := m.bytes + afresh.bytes)
  {
    if text == [] {
    } else {
      FedAppends(m, text[..|text| - 1]);
    }
  }

  /** The stop-at-the-first-foreign-character decoder finds a prefix of what this one finds, and all of it exactly when
      the alphabet characters behind the run do not complete another byte. */
  lemma DecodersAgreeExactlyWhen(text: seq<byte>)
    ensures RfcDecode(Run(text)) <= RfcDecode(Sieve(text))
    ensures RfcDecode(Run(text)) == RfcDecode(Sieve(text)) <==> 3 * |Run(text)| / 4 == 3 * |Sieve(text)| / 4
  {
    hide RfcDecode, Run, Pr2Six;
    var run := Run(text);
    var rest := text[|run|..];
    assert text == run + rest;
    SieveConcat(run, rest);
    SieveOfRun(run);
    DecodePrefix(run, Sieve(rest));
  }

  lemma DecodePrefix(run: seq<byte>, more: seq<byte>)
    requires IsRun(run)
    requires IsRun(more)
    ensures IsRun(run + more)
    ensures RfcDecode(run) <= RfcDecode(run + more)
  {
    hide Pr2Six, Octets, SextetsToBits;
    var bits := SextetsToBits(Values(run));
    assert Values(run + more) == Values(run) + Values(more);
    SextetsToBitsConcat(Values(run), Values(more));
    OctetsPrefix(bits, SextetsToBits(Values(more)));
  }

  /** How much room a call needs: the bytes it completes, and the one in hand. */
  function Room(length: nat): nat {
    3 * length / 4 + 2
  }

  /** The bytes a call completes, and the one in hand, fit into the room it needs, at every point of the call. */
  lemma {:induction false} RoomSuffices(m: Machine, text: seq<byte>)
    requires m.step <= 3
    ensures var fed := Fed(m, text);
            fed.step <= 3 && 4 * (|fed.bytes| - |m.bytes|) <= 3 * |text| + (3 * m.step) % 4 - (3 * fed.step) % 4
  {
    if text == [] {
    } else {
      RoomSuffices(m, text[..|text| - 1]);
    }
  }

  lemma Fits(step: nat, cell: byte, code: seq<byte>, at: nat)
    requires step <= 3 && at <= |code|
    ensures var fed := Fed(Machine(step, cell, []), code[..at]);
            fed.step <= 3 && |fed.bytes| < Room(|code|)
  {
    hide Fed;
    RoomSuffices(Machine(step, cell, []), code[..at]);
  }

  /** `base64_decodestate`; `run` is every alphabet character fed to it since it was set up. */
  class DecodeState {
    var step: nat
    var plainchar: byte
    ghost var run: seq<byte>

    ghost predicate Valid()
      reads this
    {
      && IsRun(run)
      && Holds(run, step, plainchar)
    }

    /** `base64_init_decodestate`. */
    constructor ()
      ensures Valid() && run == []
    {
      step := 0;
      plainchar := 0;
      run := [];
    }

    /** One character: skipped, or taken by the case of the switch for the current step. */
    method Take(c: byte, out: array<byte>, p: nat) returns (next: nat)
      requires step <= 3 && p < out.Length
      requires p + |Case(Machine(step, out[p], []), c).bytes| < out.Length
      modifies this`step, out
      ensures var m := Case(Machine(old(step), old(out[p]), []), c);
              && next == p + |m.bytes| && out[p..next] == m.bytes
              && step == m.step && (step != 0 ==> out[next] == m.cell)
      ensures forall k :: 0 <= k < out.Length && !(p <= k <= next) ==> out[k] == old(out[k])
    {
      hide Pr2Six, Completed, Started, DecodeValue, Negative, InAlphabet;
      next := p;
      var fragment := DecodeValue(c);
      TablesAgree(c);
      if !Negative(fragment) {
        if step > 0 {
          out[next] := Completed(step, out[next], fragment);
          next := next + 1;
        }
        if step < 3 {
          out[next] := Started(step, fragment);
        }
        step := (step + 1) % 4;
      }
    }

    /** The loop over the characters of a block. */
    method Loop(code: seq<byte>, out: array<byte>, off: nat) returns (p: nat)
      requires step <= 3 && off + Room(|code|) <= out.Length
      modifies this`step, out
      ensures off <= p < off + Room(|code|)
      ensures var fed := Fed(Machine(old(step), old(out[off]), []), code);
              step == fed.step && out[off..p] == fed.bytes && (step != 0 ==> out[p] == fed.cell)
      ensures forall k :: 0 <= k < out.Length && !(off <= k <= p) ==> out[k] == old(out[k])
    {
      hide Case, Room;
      Fits(step, plainchar, code, 0);
      p := off;
      var at := 0;
      ghost var before := Machine(step, out[p], []);
      while at < |code|
        invariant at <= |code| && step <= 3 && off <= p < off + Room(|code|)
        invariant step == Fed(before, code[..at]).step && out[off..p] == Fed(before, code[..at]).bytes
        invariant step != 0 ==> out[p] == Fed(before, code[..at]).cell
        invariant forall k :: 0 <= k < out.Length && !(off <= k <= p) ==> out[k] == old(out[k])
      {
        Fits(before.step, before.cell, code, at + 1);
        assert code[..at + 1][..at] == code[..at];
        CaseAppends(Fed(before, code[..at]), out[p], code[at]);
        ghost var done, p0 := out[off..p], p;
        p := Take(code[at], out, p);
        assert out[off..p] == done + out[p0..p];
        at := at + 1;
      }
      assert code[..at] == code;
    }

    /** `base64_decode_block`: decodes one more piece of text to `out` from `off` on, and returns how many bytes that
        completed. Cells outside the room the call needs are left alone. */
    method DecodeBlock(code: seq<byte>, out: array<byte>, off: nat) returns (n: nat)
      requires Valid() && off + Room(|code|) <= out.Length
      modifies this, out
      ensures Valid() && run == old(run) + Sieve(code)
      ensures n < Room(|code|) && RfcDecode(run) == old(RfcDecode(run)) + out[off..off + n]
      ensures forall k :: 0 <= k < out.Length && !(off <= k <= off + n) ==> out[k] == old(out[k])
    {
      hide RfcDecode, Holds, Fed;
      ghost var before := Machine(step, plainchar, []);
      HoldsStep(run, step, plainchar, plainchar);
      out[off] := plainchar;
      var p := Loop(code, out, off);
      FedDecodes(run, before, code);
      FedAppends(before.(bytes := RfcDecode(run)), code);
      HoldsStep(run + Sieve(code), step, Fed(before, code).cell, out[p]);
      run := run + Sieve(code);
      plainchar := out[p];
      n := p - off;
    }
  }

  /** A text fed in any pieces, each decoded behind the output of the one before, is decoded as in one piece: to the
      bytes spelt by its alphabet characters. */
  method DecodePieces(pieces: seq<seq<byte>>, out: array<byte>) returns (total: nat)
    requires Room(|Concat(pieces)|) <= out.Length
    modifies out
    ensures total < Room(|Concat(pieces)|) && out[..total] == RfcDecode(Sieve(Concat(pieces)))
  {
    hide RfcDecode, Sieve, Run;
    var state := new DecodeState();
    total := 0;
    var i := 0;
    ghost var fed: seq<byte> := [];
    assert Concat(pieces) == fed + Concat(pieces[0..]);
    EmptyDecodesToNothing();
    while i < |pieces|
      invariant i <= |pieces| && Concat(pieces) == fed + Concat(pieces[i..])
      invariant fresh(state) && state.Valid() && state.run == Sieve(fed)
      invariant total <= 3 * |fed| / 4 && out[..total] == RfcDecode(Sieve(fed))
    {
      var rest := Concat(pieces[i + 1..]);
      assert pieces[i..][1..] == pieces[i + 1..];
      assert Concat(pieces) == fed + pieces[i] + rest;
      SieveConcat(fed, pieces[i]);
      SieveShrinks(fed + pieces[i]);
      ghost var before := out[..total];
      var n := state.DecodeBlock(pieces[i], out, total);
      assert out[..total] == before;
      assert out[..total + n] == before + out[total..total + n];
      total := total + n;
      fed := fed + pieces[i];
      i := i + 1;
    }
    assert Concat(pieces[i..]) == [];
    assert fed + [] == fed;
  }

  lemma EmptyDecodesToNothing()
    ensures Sieve([]) == [] && RfcDecode([]) == []
  {
  }

  /** The by-hand comparison of the two decoders on one text. */
  method CompareDecoders(coded: seq<byte>) returns (same: bool)
    requires |Run(coded)| < |coded|
    ensures same <==> 3 * |Run(coded)| / 4 == 3 * |Sieve(coded)| / 4
  {
    hide RfcDecode, Sieve, Run;
    var len := Base64DecodeLen(coded);
    var plain := new byte[len];
    var n := Base64Decode(plain, coded);
    var out := new byte[Room(|coded|)];
    assert Concat([coded]) == coded + [] == coded;
    var total := DecodePieces([coded], out);
    DecodersAgreeExactlyWhen(coded);
    same := plain[..n] == out[..total];
  }
}
