/** How header keys are stored (`rtrim` and `cpy_chars` in src/fits_header.cpp): without the spaces around them. */
module FitsKeys {
  import opened CString

  const KEYNAME_CHARS: nat := 16
  const COMMENT_CHARS: nat := 64

  function TrimLeft(s: string): (t: string)
    ensures |t| <= |s| && t == s[|s| - |t|..]
    ensures forall i :: 0 <= i < |s| - |t| ==> s[i] == ' '
    ensures t != [] ==> t[0] != ' '
  {
    if s != [] && s[0] == ' ' then
      var t := TrimLeft(s[1..]);
      assert s[1..][|s| - 1 - |t|..] == s[|s| - |t|..];
      t
    else s
  }

  function TrimRight(s: string): (t: string)
    ensures t <= s
    ensures forall i :: |t| <= i < |s| ==> s[i] == ' '
    ensures t != [] ==> t[|t| - 1] != ' '
  {
    if s != [] && s[|s| - 1] == ' ' then TrimRight(s[..|s| - 1]) else s
  }

  function Trim(s: string): string {
    TrimRight(TrimLeft(s))
  }

  function Spaces(n: nat): string {
    Fill(' ', n)
  }

  // ----- which keys meet

  /** `s` is `core` with spaces around it. */
  ghost predicate Pads(s: string, core: string) {
    exists n: nat, m: nat :: s == Spaces(n) + core + Spaces(m)
  }

  lemma {:induction false} TrimLeftOfSpaces(n: nat, s: string)
    ensures TrimLeft(Spaces(n) + s) == TrimLeft(s)
  {
    if n == 0 {
      assert Spaces(0) + s == s;
    } else {
      assert (Spaces(n) + s)[1..] == Spaces(n - 1) + s;
      TrimLeftOfSpaces(n - 1, s);
    }
  }

  lemma {:induction false} TrimRightOfSpaces(s: string, m: nat)
    ensures TrimRight(s + Spaces(m)) == TrimRight(s)
  {
    if m == 0 {
      assert s + Spaces(0) == s;
    } else {
      assert (s + Spaces(m))[..|s| + m - 1] == s + Spaces(m - 1);
      TrimRightOfSpaces(s, m - 1);
    }
  }

  lemma TrimIsPadded(s: string)
    ensures Pads(s, Trim(s))
  {
    hide TrimLeft, TrimRight;
    var left := TrimLeft(s);
    var n, m := |s| - |left|, |left| - |TrimRight(left)|;
    assert s == Spaces(n) + left;
    assert left == TrimRight(left) + Spaces(m);
    assert s == Spaces(n) + Trim(s) + Spaces(m);
  }

  lemma TrimOfPadded(s: string, core: string)
    requires Pads(s, core)
    ensures Trim(s) == Trim(core)
  {
    hide TrimLeft, TrimRight, Spaces;
    var n: nat, m: nat :| s == Spaces(n) + core + Spaces(m);
    assert s == Spaces(n) + (core + Spaces(m));
    TrimLeftOfSpaces(n, core + Spaces(m));
    TrimSpacesBehind(core, m);
  }

  /** Spaces behind do not matter, even if there is nothing in front of them. */
  lemma {:induction false} TrimSpacesBehind(core: string, m: nat)
    ensures TrimRight(TrimLeft(core + Spaces(m))) == TrimRight(TrimLeft(core))
  {
    hide TrimRight, Spaces;
    if core == [] {
      TrimLeftOfSpaces(m, []);
      assert core + Spaces(m) == Spaces(m) + [];
    } else {
      assert (core + Spaces(m))[0] == core[0];
      assert (core + Spaces(m))[1..] == core[1..] + Spaces(m);
      if core[0] == ' ' {
        TrimSpacesBehind(core[1..], m);
      } else {
        TrimRightOfSpaces(core, m);
      }
    }
  }

  /** Two keys are stored alike exactly when they differ only in the spaces around them. */
  lemma SameSlotExactlyWhen(a: string, b: string)
    ensures Trim(a) == Trim(b) <==> exists core :: Pads(a, core) && Pads(b, core)
  {
    TrimIsPadded(a);
    TrimIsPadded(b);
    if core :| Pads(a, core) && Pads(b, core) {
      TrimOfPadded(a, core);
      TrimOfPadded(b, core);
    }
  }

  /** A key stored untrimmed can be met by a trimmed one exactly when it has no spaces around it itself. */
  lemma MetByTrimmedExactlyWhen(stored: string)
    ensures (exists key :: Trim(key) == stored) <==> Trim(stored) == stored
  {
    if key :| Trim(key) == stored {
      TrimIsPadded(key);
      TrimOfPadded(key, Trim(key));
    }
  }

  // ----- in place

  /** `rtrim`: overwrites the spaces at the end of a C string with NULs. */
  method Rtrim(str: array<char>)
    requires |CText(str[..])| < str.Length
    modifies str
    ensures var s := old(CText(str[..])); var t := TrimRight(s);
            && CText(str[..]) == t
            && (forall k :: |t| <= k < |s| ==> str[k] == '\0')
            && (forall k :: |s| <= k < str.Length ==> str[k] == old(str[k]))
  {
    ghost var s := CText(str[..]);
    var sz := Strlen(str);
    sz := sz - 1;
    hide CText;
    while sz >= 0 && str[sz] == ' '
      invariant -1 <= sz < |s|
      invariant forall k :: 0 <= k <= sz ==> str[k] == s[k]
      invariant forall k :: sz < k < |s| ==> str[k] == '\0' && s[k] == ' '
      invariant forall k :: |s| <= k < str.Length ==> str[k] == old(str[k])
    {
      str[sz] := '\0';
      sz := sz - 1;
    }
    TrimRightIs(s, sz + 1);
    CTextIs(s[..sz + 1], str[..]);
  }

  lemma {:induction false} TrimRightIs(s: string, n: nat)
    requires n <= |s| && forall k :: n <= k < |s| ==> s[k] == ' '
    requires n > 0 ==> s[n - 1] != ' '
    ensures TrimRight(s) == s[..n]
  {
    if n < |s| {
      TrimRightIs(s[..|s| - 1], n);
      assert s[..|s| - 1][..n] == s[..n];
    } else {
      assert s[..n] == s;
    }
  }

  lemma {:induction false} TrimLeftIs(s: string, n: nat)
    requires n <= |s| && forall k :: 0 <= k < n ==> s[k] == ' '
    requires n < |s| ==> s[n] != ' '
    ensures TrimLeft(s) == s[n..]
  {
    if n > 0 {
      TrimLeftIs(s[1..], n - 1);
      assert s[1..][n - 1..] == s[n..];
    } else {
      assert s[n..] == s;
    }
  }

  method Strlen(str: array<char>) returns (n: int)
    requires |CText(str[..])| < str.Length
    ensures n == |CText(str[..])|
  {
    hide CText;
    n := 0;
    CTextAt(str[..], 0);
    while str[n] != '\0'
      invariant 0 <= n <= |CText(str[..])| && (str[n] == '\0' <==> n == |CText(str[..])|)
      decreases |CText(str[..])| - n
    {
      CTextAt(str[..], n + 1);
      n := n + 1;
    }
  }

  /** A buffer that holds a C string, and NULs behind it. */
  ghost predicate Filled(a: array<char>, s: string)
    reads a
  {
    |s| < a.Length && CText(a[..]) == s && forall k :: |s| <= k < a.Length ==> a[k] == '\0'
  }

  /** `cpy_chars`: the key without the spaces around it, and the comment, each followed by NULs to the end of its
      field. The caller must see to it that both fit. */
  method CpyChars(key: array<char>, comment: array<char>, ikey: string, icomment: string)
    requires key != comment && key.Length == KEYNAME_CHARS && comment.Length == COMMENT_CHARS
    requires '\0' !in ikey && |TrimLeft(ikey)| < KEYNAME_CHARS
    requires '\0' !in icomment && |icomment| < COMMENT_CHARS
    modifies key, comment
    ensures Filled(key, Trim(ikey)) && Filled(comment, icomment)
  {
    hide CText, TrimRight, TrimLeft;
    Memset(key);
    Memset(comment);
    var start := 0;
    while start < |ikey| && ikey[start] == ' '
      invariant start <= |ikey| && forall k :: 0 <= k < start ==> ikey[k] == ' '
    {
      start := start + 1;
    }
    var left := ikey[start..];
    LeftTrimmed(ikey, start);
    FillKey(key, left);
    Strcpy(comment, icomment);
  }

  lemma LeftTrimmed(key: string, n: nat)
    requires n <= |key| && forall k :: 0 <= k < n ==> key[k] == ' '
    requires n < |key| ==> key[n] != ' '
    requires '\0' !in key
    ensures TrimLeft(key) == key[n..] && '\0' !in key[n..]
  {
    TrimLeftIs(key, n);
  }

  /** Copies the key into its cleared field, and cuts the spaces at its end. */
  method FillKey(key: array<char>, left: string)
    requires |left| < key.Length && '\0' !in left && forall k :: 0 <= k < key.Length ==> key[k] == '\0'
    modifies key
    ensures Filled(key, TrimRight(left))
  {
    hide CText, TrimRight;
    Strcpy(key, left);
    Rtrim(key);
  }

  method Memset(a: array<char>)
    modifies a
    ensures forall k :: 0 <= k < a.Length ==> a[k] == '\0'
  {
    for i := 0 to a.Length
      invariant forall k :: 0 <= k < i ==> a[k] == '\0'
    {
      a[i] := '\0';
    }
  }

  method Strcpy(a: array<char>, s: string)
    requires |s| < a.Length && '\0' !in s
    modifies a
    ensures CText(a[..]) == s && a[|s|] == '\0'
    ensures forall k :: |s| < k < a.Length ==> a[k] == old(a[k])
  {
    for i := 0 to |s|
      invariant forall k :: 0 <= k < i ==> a[k] == s[k]
      invariant forall k :: i <= k < a.Length ==> a[k] == old(a[k])
    {
      a[i] := s[i];
    }
    a[|s|] := '\0';
    CTextIs(s, a[..]);
  }
}
