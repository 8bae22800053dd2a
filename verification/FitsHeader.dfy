/** The FITS header store (src/fits_header.cpp, src/fits_header.hpp): an insertion-ordered list of headers with
    type-checked updates, merging, and the trimming of keys. */
module FitsHeader {
  import opened CString
  import opened FitsKeys

  const VALUE_CHARS: nat := 32

  /** The tagged union; the constructor is the `ValueType`. */
  datatype Value =
    | TInt(i: int)
    | TUInt(u: nat)
    | TFloat(f: real)
    | TDouble(d: real)
    | TText(s: string)
    | TLong(l: int)
    | TUnknown

  predicate SameType(a: Value, b: Value) {
    && a.TInt? == b.TInt? && a.TUInt? == b.TUInt? && a.TFloat? == b.TFloat? && a.TDouble? == b.TDouble?
    && a.TText? == b.TText? && a.TLong? == b.TLong? && a.TUnknown? == b.TUnknown?
  }

  /** Whether an update with value `b` may overwrite value `a`. */
  predicate Overwrites(a: Value, b: Value) {
    SameType(a, b) && !a.TUnknown?
  }

  datatype Header = Header(key: string, comment: string, value: Value)

  /** `create_fits_header`, in all its overloads; text values must fit their field. */
  method CreateFitsHeader(key: string, value: Value, comment: string) returns (h: Header)
    requires '\0' !in key && |TrimLeft(key)| < KEYNAME_CHARS
    requires '\0' !in comment && |comment| < COMMENT_CHARS
    requires value.TText? ==> '\0' !in value.s && |value.s| < VALUE_CHARS
    ensures h == Header(Trim(key), comment, value)
  {
    hide TrimLeft, TrimRight, CText;
    var keyField, commentField := new char[KEYNAME_CHARS], new char[COMMENT_CHARS];
    CpyChars(keyField, commentField, key, comment);
    var storedKey := ReadText(keyField);
    var storedComment := ReadText(commentField);
    h := Header(storedKey, storedComment, value);
  }

  method ReadText(field: array<char>) returns (s: string)
    requires |CText(field[..])| < field.Length
    ensures s == CText(field[..])
  {
    hide CText;
    var n := Strlen(field);
    s := field[..n];
  }

  // ----- update and merge on lists

  /** Position of the first header with a key, or the length of the list. */
  function Find(hs: seq<Header>, key: string): (i: nat)
    ensures i <= |hs|
    ensures i < |hs| ==> hs[i].key == key
    ensures forall j :: 0 <= j < i ==> hs[j].key != key
  {
    if hs == [] || hs[0].key == key then 0 else 1 + Find(hs[1..], key)
  }

  predicate Accepts(hs: seq<Header>, h: Header) {
    var i := Find(hs, h.key);
    i < |hs| ==> Overwrites(hs[i].value, h.value)
  }

  function Updated(hs: seq<Header>, h: Header): seq<Header> {
    var i := Find(hs, h.key);
    if i == |hs| then hs + [h] else if Overwrites(hs[i].value, h.value) then hs[i := h] else hs
  }

  /** 1 for a new key, 0 for an overwritten one, -1 for a rejected header. */
  function UpdateResult(hs: seq<Header>, h: Header): int {
    var i := Find(hs, h.key);
    if i == |hs| then 1 else if Overwrites(hs[i].value, h.value) then 0 else -1
  }

  /** Two values of one of the six known types. */
  predicate BothKnown(a: Value, b: Value) {
    match a
    case TInt(_) => b.TInt?
    case TUInt(_) => b.TUInt?
    case TFloat(_) => b.TFloat?
    case TDouble(_) => b.TDouble?
    case TText(_) => b.TText?
    case TLong(_) => b.TLong?
    case TUnknown => false
  }

  /** What an update does, by the first header with its key: without one it appends and returns 1; one of the same known
      type is replaced where it stands, and 0 returned; anything else leaves all as it is and returns -1. */
  lemma UpdateDoes(hs: seq<Header>, h: Header, i: nat)
    requires i <= |hs| && forall j :: 0 <= j < i ==> hs[j].key != h.key
    requires i < |hs| ==> hs[i].key == h.key
    ensures i == |hs| ==> Updated(hs, h) == hs + [h] && UpdateResult(hs, h) == 1
    ensures i < |hs| && BothKnown(hs[i].value, h.value) ==>
              Updated(hs, h) == hs[..i] + [h] + hs[i + 1..] && UpdateResult(hs, h) == 0
    ensures i < |hs| && !BothKnown(hs[i].value, h.value) ==> Updated(hs, h) == hs && UpdateResult(hs, h) == -1
  {
    hide Find;
    assert !(Find(hs, h.key) < i) && !(i < Find(hs, h.key));
  }

  function Fold(hs: seq<Header>, more: seq<Header>): seq<Header> {
    if more == [] then hs else Updated(Fold(hs, more[..|more| - 1]), more[|more| - 1])
  }

  /** How many of the headers are rejected when they are applied in order. */
  function Rejections(hs: seq<Header>, more: seq<Header>): (n: nat)
    ensures n <= |more|
  {
    if more == [] then 0
    else
      var init := more[..|more| - 1];
      Rejections(hs, init) + if Accepts(Fold(hs, init), more[|more| - 1]) then 0 else 1
  }

  /** The headers in front of the first rejected one. */
  function BeforeRejection(hs: seq<Header>, more: seq<Header>): (n: nat)
    ensures n <= |more|
    ensures Rejections(hs, more[..n]) == 0
    ensures n < |more| ==> !Accepts(Fold(hs, more[..n]), more[n])
  {
    if more == [] then 0
    else
      var n := BeforeRejection(hs, more[..|more| - 1]);
      if n < |more| - 1 then
        assert more[..|more| - 1][..n] == more[..n];
        n
      else if Accepts(Fold(hs, more[..|more| - 1]), more[|more| - 1]) then
        assert more[..|more| - 1][..n] == more[..|more| - 1] && more[..|more|] == more;
        |more|
      else
        assert more[..|more| - 1][..n] == more[..n];
        n
  }

  lemma OneMore(hs: seq<Header>, more: seq<Header>, i: nat)
    requires i < |more|
    ensures Fold(hs, more[..i + 1]) == Updated(Fold(hs, more[..i]), more[i])
    ensures Rejections(hs, more[..i + 1])
         == Rejections(hs, more[..i]) + if Accepts(Fold(hs, more[..i]), more[i]) then 0 else 1
  {
    assert more[..i + 1][..i] == more[..i];
  }

  lemma {:induction false} RejectionsGrow(hs: seq<Header>, more: seq<Header>, i: nat, j: nat)
    requires i <= j <= |more|
    ensures Rejections(hs, more[..i]) <= Rejections(hs, more[..j])
    ensures i < j && !Accepts(Fold(hs, more[..i]), more[i]) ==> Rejections(hs, more[..j]) > 0
  {
    if i == j {
    } else {
      assert more[..j][..j - 1] == more[..j - 1];
      RejectionsGrow(hs, more, i, j - 1);
    }
  }

  lemma StopsAt(hs: seq<Header>, more: seq<Header>, i: nat)
    requires i <= |more| && Rejections(hs, more[..i]) == 0
    requires i < |more| ==> !Accepts(Fold(hs, more[..i]), more[i])
    ensures BeforeRejection(hs, more) == i
    ensures i < |more| <==> Rejections(hs, more) > 0
  {
    hide Accepts, Fold, Rejections, BeforeRejection;
    assert more[..|more|] == more;
    var n := BeforeRejection(hs, more);
    if n < i {
      RejectionsGrow(hs, more, n, i);
    } else if i < n {
      RejectionsGrow(hs, more, i, n);
    } else if i < |more| {
      RejectionsGrow(hs, more, i, |more|);
    }
  }

  // ----- the object

  datatype Store = Store(mvec: seq<Header>, capacity: nat)

  /** `std::vector` growth: within the capacity nothing moves. */
  predicate Grown(s: Store, t: Store) {
    if |t.mvec| <= s.capacity then t.capacity == s.capacity else t.capacity >= |t.mvec|
  }

  predicate UpdateStep(s: Store, h: Header, t: Store) {
    t.mvec == Updated(s.mvec, h) && Grown(s, t)
  }

  predicate Regrows(s: Store, incoming: nat) {
    s.capacity < |s.mvec| + incoming
  }

  /** What a merge starts from: a regrow swaps the new vector, still empty, for the old one. */
  function Base(s: Store, incoming: nat): seq<Header> {
    if Regrows(s, incoming) then [] else s.mvec
  }

  /** How much of the incoming list a merge applies. */
  function Applied(hs: seq<Header>, more: seq<Header>, stop: bool): seq<Header> {
    if stop then more[..BeforeRejection(hs, more)] else more
  }

  predicate MergeStep(s: Store, more: seq<Header>, stop: bool, t: Store) {
    var base := Base(s, |more|);
    && t.mvec == Fold(base, Applied(base, more, stop))
    && (if Regrows(s, |more|) then t.capacity >= |s.mvec| + |more| else t.capacity == s.capacity)
  }

  function MergeResult(base: seq<Header>, more: seq<Header>, stop: bool): int {
    var rejected: int := Rejections(base, more);
    if rejected == 0 then |more| else if stop then -1 else -rejected
  }

  class FitsHeaders {
    var mvec: seq<Header>
    var capacity: nat

    ghost predicate Valid()
      reads this
    {
      |mvec| <= capacity
    }

    ghost function State(): Store
      reads this
    {
      Store(mvec, capacity)
    }

    constructor (sizeHint: nat)
      ensures Valid() && mvec == [] && capacity >= sizeHint
    {
      mvec := [];
      capacity := sizeHint;
    }

    method Clear()
      requires Valid()
      modifies this
      ensures Valid() && mvec == [] && capacity == old(capacity)
    {
      mvec := [];
    }

    /** `emplace_back`. */
    method EmplaceBack(h: Header)
      requires Valid()
      modifies this
      ensures Valid() && mvec == old(mvec) + [h] && Grown(old(State()), State())
    {
      if |mvec| == capacity {
        capacity := if capacity == 0 then 1 else 2 * capacity;
      }
      mvec := mvec + [h];
    }

    method Update(h: Header) returns (r: int)
      requires Valid()
      modifies this
      ensures Valid() && UpdateStep(old(State()), h, State())
      ensures r == UpdateResult(old(mvec), h)
      ensures r >= 0 <==> Accepts(old(mvec), h)
    {
      var i := 0;
      while i < |mvec| && mvec[i].key != h.key
        invariant i <= Find(mvec, h.key)
      {
        i := i + 1;
      }
      assert i == Find(mvec, h.key);
      if i == |mvec| {
        EmplaceBack(h);
        r := 1;
      } else if SameType(mvec[i].value, h.value) && !mvec[i].value.TUnknown? {
        mvec := mvec[i := h];
        r := 0;
      } else {
        r := -1;
      }
    }

    /** The templated `update`: the key is trimmed before it is looked up. */
    method UpdateValue(key: string, value: Value, comment: string) returns (r: int)
      requires Valid()
      requires '\0' !in key && |TrimLeft(key)| < KEYNAME_CHARS
      requires '\0' !in comment && |comment| < COMMENT_CHARS
      requires value.TText? ==> '\0' !in value.s && |value.s| < VALUE_CHARS
      modifies this
      ensures Valid() && UpdateStep(old(State()), Header(Trim(key), comment, value), State())
      ensures r == UpdateResult(old(mvec), Header(Trim(key), comment, value))
    {
      hide TrimLeft, TrimRight;
      var h := CreateFitsHeader(key, value, comment);
      r := Update(h);
    }

    method Merge(more: seq<Header>, stopIfError: bool) returns (r: int)
      requires Valid()
      modifies this
      ensures Valid() && MergeStep(old(State()), more, stopIfError, State())
      ensures r == MergeResult(Base(old(State()), |more|), more, stopIfError)
    {
      if capacity < |mvec| + |more| {
        capacity := |mvec| + |more|;
        mvec := [];
      }
      ghost var base := mvec;
      assert more[..0] == [] && Fold(base, []) == base && Rejections(base, []) == 0;
      hide Accepts, Fold, Rejections, BeforeRejection;
      var errors, adds, i := 0, 0, 0;
      while i < |more|
        invariant i <= |more| && Valid()
        invariant mvec == Fold(base, more[..i])
        invariant -errors == Rejections(base, more[..i]) && adds == i + errors
        invariant stopIfError ==> errors == 0
        invariant |mvec| + |more| - i <= capacity == old(if Regrows(State(), |more|) then |mvec| + |more| else capacity)
      {
        ghost var before := mvec;
        var failed := Update(more[i]);
        OneMore(base, more, i);
        if failed < 0 {
          if stopIfError {
            StopsAt(base, more, i);
            assert mvec == before;
            return -1;
          }
          errors := errors - 1;
        } else {
          adds := adds + 1;
        }
        i := i + 1;
      }
      assert more[..i] == more;
      if stopIfError {
        StopsAt(base, more, i);
      }
      r := if errors < 0 then errors else adds;
    }
  }
}
