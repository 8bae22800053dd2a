/** What any sequence of updates and merges does to a header store, against references that do not keep a store. */
module FitsHeaderRuns {
  import opened CString
  import opened FitsHeader

  predicate UniqueKeys(hs: seq<Header>) {
    forall i, j :: 0 <= i < j < |hs| ==> hs[i].key != hs[j].key
  }

  /** Every slot of `hs` is still there, with its key and its type. */
  predicate Extends(hs: seq<Header>, ht: seq<Header>) {
    && |hs| <= |ht|
    && forall i :: 0 <= i < |hs| ==> ht[i].key == hs[i].key && SameType(hs[i].value, ht[i].value)
  }

  predicate Holds(hs: seq<Header>, key: string) {
    Find(hs, key) < |hs|
  }

  lemma UpdatedKeepsUnique(hs: seq<Header>, h: Header)
    requires UniqueKeys(hs)
    ensures UniqueKeys(Updated(hs, h))
  {
  }

  lemma UpdatedExtends(hs: seq<Header>, h: Header)
    ensures Extends(hs, Updated(hs, h))
  {
  }

  lemma {:induction false} FoldKeepsUnique(hs: seq<Header>, more: seq<Header>)
    requires UniqueKeys(hs)
    ensures UniqueKeys(Fold(hs, more))
  {
    hide UniqueKeys, Updated;
    if more == [] {
    } else {
      FoldKeepsUnique(hs, more[..|more| - 1]);
      UpdatedKeepsUnique(Fold(hs, more[..|more| - 1]), more[|more| - 1]);
    }
  }

  lemma {:induction false} FoldExtends(hs: seq<Header>, more: seq<Header>)
    ensures Extends(hs, Fold(hs, more))
  {
    hide Updated, Extends;
    if more == [] {
      ExtendsItself(hs);
    } else {
      FoldExtends(hs, more[..|more| - 1]);
      UpdatedExtends(Fold(hs, more[..|more| - 1]), more[|more| - 1]);
      ExtendsFurther(hs, Fold(hs, more[..|more| - 1]), Fold(hs, more));
    }
  }

  // ----- runs

  datatype Op = UpdateOp(h: Header) | MergeOp(more: seq<Header>, stop: bool)

  predicate OpStep(s: Store, op: Op, t: Store) {
    match op
    case UpdateOp(h) => UpdateStep(s, h, t)
    case MergeOp(more, stop) => MergeStep(s, more, stop, t)
  }

  /** A run of a store that starts empty. */
  predicate IsRun(states: seq<Store>, ops: seq<Op>) {
    && |states| == |ops| + 1
    && states[0].mvec == []
    && forall i :: 0 <= i < |ops| ==> OpStep(states[i], ops[i], states[i + 1])
  }

  predicate Loses(s: Store, op: Op) {
    op.MergeOp? && Regrows(s, |op.more|)
  }

  lemma {:induction false} KeysStayUnique(states: seq<Store>, ops: seq<Op>, i: nat)
    requires IsRun(states, ops) && i < |states|
    ensures UniqueKeys(states[i].mvec)
  {
    if i == 0 {
    } else {
      KeysStayUnique(states, ops, i - 1);
      assert OpStep(states[i - 1], ops[i - 1], states[i]);
      hide UniqueKeys, Updated;
      var s := states[i - 1];
      match ops[i - 1] {
        case UpdateOp(h) => UpdatedKeepsUnique(s.mvec, h);
        case MergeOp(more, stop) =>
          assert UniqueKeys([]) by { NothingRepeats(); }
          FoldKeepsUnique(Base(s, |more|), Applied(Base(s, |more|), more, stop));
      }
    }
  }

  lemma NothingRepeats()
    ensures UniqueKeys([])
  {
  }

  /** Without a regrow in between, every key keeps its position and its type. */
  lemma {:induction false} SlotsStay(states: seq<Store>, ops: seq<Op>, i: nat, j: nat)
    requires IsRun(states, ops) && i <= j < |states|
    requires forall k :: i <= k < j ==> !Loses(states[k], ops[k])
    ensures Extends(states[i].mvec, states[j].mvec)
  {
    if i < j {
      SlotsStay(states, ops, i, j - 1);
      var s := states[j - 1];
      assert OpStep(s, ops[j - 1], states[j]) && !Loses(s, ops[j - 1]);
      hide Updated, Extends;
      match ops[j - 1] {
        case UpdateOp(h) => UpdatedExtends(s.mvec, h);
        case MergeOp(more, stop) => FoldExtends(s.mvec, Applied(s.mvec, more, stop));
      }
      ExtendsFurther(states[i].mvec, s.mvec, states[j].mvec);
    } else {
      ExtendsItself(states[i].mvec);
    }
  }

  lemma ExtendsItself(hs: seq<Header>)
    ensures Extends(hs, hs)
  {
  }

  lemma ExtendsFurther(hs: seq<Header>, ht: seq<Header>, hu: seq<Header>)
    requires Extends(hs, ht) && Extends(ht, hu)
    ensures Extends(hs, hu)
  {
  }

  // ----- what a lookup sees

  /** The headers accepted by a fold, in order. */
  function AcceptedIn(hs: seq<Header>, more: seq<Header>): (log: seq<Header>)
    ensures |log| == |more| - Rejections(hs, more)
  {
    if more == [] then []
    else
      var init, h := more[..|more| - 1], more[|more| - 1];
      AcceptedIn(hs, init) + if Accepts(Fold(hs, init), h) then [h] else []
  }

  /** What is accepted since the last regrow, after one more operation. */
  function NextLog(s: Store, op: Op, log: seq<Header>): seq<Header> {
    match op
    case UpdateOp(h) => log + if Accepts(s.mvec, h) then [h] else []
    case MergeOp(more, stop) =>
      (if Regrows(s, |more|) then [] else log)
      + AcceptedIn(Base(s, |more|), Applied(Base(s, |more|), more, stop))
  }

  /** Everything accepted in a run since the last regrow. */
  function History(states: seq<Store>, ops: seq<Op>, i: nat): seq<Header>
    requires IsRun(states, ops) && i < |states|
  {
    if i == 0 then [] else NextLog(states[i - 1], ops[i - 1], History(states, ops, i - 1))
  }

  function Lookup(hs: seq<Header>, key: string): Option<Header> {
    if Holds(hs, key) then Some(hs[Find(hs, key)]) else None
  }

  function LastOf(log: seq<Header>, key: string): Option<Header> {
    if log == [] then None
    else if log[|log| - 1].key == key then Some(log[|log| - 1])
    else LastOf(log[..|log| - 1], key)
  }

  lemma UpdateLookup(hs: seq<Header>, h: Header, key: string)
    ensures Lookup(Updated(hs, h), key) == if key == h.key && Accepts(hs, h) then Some(h) else Lookup(hs, key)
  {
    FindAfterUpdate(hs, h, key);
  }

  lemma FindAfterUpdate(hs: seq<Header>, h: Header, key: string)
    ensures Find(Updated(hs, h), key)
         == if Holds(hs, key) || key == h.key then Find(hs, key) else |Updated(hs, h)|
  {
    FindIs(Updated(hs, h), key, if Holds(hs, key) || key == h.key then Find(hs, key) else |Updated(hs, h)|);
  }

  lemma FindIs(hs: seq<Header>, key: string, i: nat)
    requires i <= |hs|
    requires i < |hs| ==> hs[i].key == key
    requires forall j :: 0 <= j < i ==> hs[j].key != key
    ensures Find(hs, key) == i
  {
    hide Find;
    assert !(Find(hs, key) < i) && !(i < Find(hs, key));
  }

  lemma {:induction false} LookupAfterFold(hs: seq<Header>, more: seq<Header>, log: seq<Header>, key: string)
    requires Lookup(hs, key) == LastOf(log, key)
    ensures Lookup(Fold(hs, more), key) == LastOf(log + AcceptedIn(hs, more), key)
  {
    hide Lookup, Updated, Accepts;
    if more == [] {
      assert log + [] == log;
    } else {
      var init, h := more[..|more| - 1], more[|more| - 1];
      LookupAfterFold(hs, init, log, key);
      UpdateLookup(Fold(hs, init), h, key);
      if Accepts(Fold(hs, init), h) {
        LastOfAppend(log + AcceptedIn(hs, init), h, key);
        assert log + AcceptedIn(hs, more) == log + AcceptedIn(hs, init) + [h];
      } else {
        assert AcceptedIn(hs, more) == AcceptedIn(hs, init);
      }
    }
  }

  lemma LastOfAppend(log: seq<Header>, h: Header, key: string)
    ensures LastOf(log + [h], key) == if h.key == key then Some(h) else LastOf(log, key)
  {
    assert (log + [h])[..|log|] == log;
  }

  /** After any run, a lookup sees the last value accepted for its key since the last regrow. */
  lemma {:induction false} LookupSeesLastAccepted(states: seq<Store>, ops: seq<Op>, i: nat, key: string)
    requires IsRun(states, ops) && i < |states|
    ensures Lookup(states[i].mvec, key) == LastOf(History(states, ops, i), key)
  {
    if i == 0 {
      NothingToLookUp(key);
    } else {
      LookupSeesLastAccepted(states, ops, i - 1, key);
      assert OpStep(states[i - 1], ops[i - 1], states[i]);
      hide Lookup, LastOf, OpStep, NextLog;
      LookupAfterStep(states[i - 1], ops[i - 1], states[i], History(states, ops, i - 1), key);
    }
  }

  lemma LookupAfterStep(s: Store, op: Op, t: Store, log: seq<Header>, key: string)
    requires OpStep(s, op, t) && Lookup(s.mvec, key) == LastOf(log, key)
    ensures Lookup(t.mvec, key) == LastOf(NextLog(s, op, log), key)
  {
    hide Lookup, LastOf, Fold, AcceptedIn;
    match op {
      case UpdateOp(h) => LookupAfterUpdate(s.mvec, h, log, key);
      case MergeOp(more, stop) =>
        var base := Base(s, |more|);
        NothingToLookUp(key);
        LookupAfterFold(base, Applied(base, more, stop), if Regrows(s, |more|) then [] else log, key);
    }
  }

  lemma LookupAfterUpdate(hs: seq<Header>, h: Header, log: seq<Header>, key: string)
    requires Lookup(hs, key) == LastOf(log, key)
    ensures Lookup(Updated(hs, h), key) == LastOf(log + if Accepts(hs, h) then [h] else [], key)
  {
    hide Lookup, Updated, Accepts, LastOf;
    UpdateLookup(hs, h, key);
    LastOfAppend(log, h, key);
    assert log + [] == log;
  }

  lemma NothingToLookUp(key: string)
    ensures Lookup([], key) == LastOf([], key) == None
  {
  }

  // ----- which headers are accepted, without looking at the store

  /** The first header with a key settles its type; from then on that type is accepted, unless it is unknown. */
  predicate Wins(more: seq<Header>, i: nat)
    requires i < |more|
  {
    var first := Find(more, more[i].key);
    i == first || (first < |more| && Overwrites(more[first].value, more[i].value))
  }

  lemma FindInPrefix(more: seq<Header>, n: nat, key: string)
    requires n <= |more|
    ensures Find(more[..n], key) == if Find(more, key) < n then Find(more, key) else n
  {
    FindIs(more[..n], key, if Find(more, key) < n then Find(more, key) else n);
  }

  /** From an empty store, slot types are the ones of the first header with each key. */
  lemma {:induction false} FoldFromEmpty(more: seq<Header>, key: string)
    ensures Holds(Fold([], more), key) <==> Holds(more, key)
    ensures Holds(more, key) ==>
              SameType(Fold([], more)[Find(Fold([], more), key)].value, more[Find(more, key)].value)
  {
    if more == [] {
    } else {
      var init, h := more[..|more| - 1], more[|more| - 1];
      FoldFromEmpty(init, key);
      FindInPrefix(more, |more| - 1, key);
      FindAfterUpdate(Fold([], init), h, key);
      UpdatedExtends(Fold([], init), h);
    }
  }

  /** Applied in order to an empty store, exactly the winning headers are accepted. */
  lemma AcceptedExactlyWhenWinning(more: seq<Header>, i: nat)
    requires i < |more|
    ensures Accepts(Fold([], more[..i]), more[i]) <==> Wins(more, i)
  {
    hide Fold;
    FoldFromEmpty(more[..i], more[i].key);
    FindInPrefix(more, i, more[i].key);
    assert Find(more, more[i].key) <= i by {
      FindAtMost(more, i);
    }
  }

  lemma FindAtMost(more: seq<Header>, i: nat)
    requires i < |more|
    ensures Find(more, more[i].key) <= i
  {
    assert !(i < Find(more, more[i].key));
  }

  /** A key that has been used keeps its place in both lists; a new one goes to the end of both. */
  lemma PlacesAfterOneMore(more: seq<Header>, key: string)
    requires more != [] && Holds(more, key)
    ensures var init := more[..|more| - 1]; var slots := Fold([], init);
            if Holds(init, key)
            then Find(more, key) == Find(init, key) && Find(Fold([], more), key) == Find(slots, key) < |slots|
            else Find(more, key) == |init| && Find(Fold([], more), key) == |slots|
  {
    var init, h := more[..|more| - 1], more[|more| - 1];
    FindInPrefix(more, |more| - 1, key);
    FindAfterUpdate(Fold([], init), h, key);
    FoldFromEmpty(init, key);
  }

  /** Slots appear in the order in which their keys first occur. */
  lemma {:induction false} SlotsInOrderOfFirstUse(more: seq<Header>, a: string, b: string)
    requires Holds(more, a) && Holds(more, b)
    ensures Find(Fold([], more), a) < Find(Fold([], more), b) <==> Find(more, a) < Find(more, b)
  {
    if more == [] {
    } else {
      hide Fold, Find;
      var init := more[..|more| - 1];
      PlacesAfterOneMore(more, a);
      PlacesAfterOneMore(more, b);
      if Holds(init, a) && Holds(init, b) {
        SlotsInOrderOfFirstUse(init, a, b);
      }
    }
  }

  // ----- what a merge loses

  lemma {:induction false} KeysOfFold(hs: seq<Header>, more: seq<Header>, key: string)
    ensures Holds(Fold(hs, more), key) <==> Holds(hs, key) || Holds(more, key)
  {
    if more == [] {
    } else {
      var init, h := more[..|more| - 1], more[|more| - 1];
      KeysOfFold(hs, init, key);
      FindInPrefix(more, |more| - 1, key);
      FindAfterUpdate(Fold(hs, init), h, key);
    }
  }

  /** A merge keeps every old key exactly when it need not regrow, or all old keys come in again among the headers it
      applies. */
  lemma MergeKeepsKeysExactlyWhen(s: Store, more: seq<Header>, stop: bool, t: Store)
    requires MergeStep(s, more, stop, t)
    ensures (forall key :: Holds(s.mvec, key) ==> Holds(t.mvec, key))
       <==> || s.capacity >= |s.mvec| + |more|
            || forall key :: Holds(s.mvec, key) ==> Holds(Applied([], more, stop), key)
  {
    hide Fold, Find, Applied;
    var base := Base(s, |more|);
    forall key ensures Holds(t.mvec, key) <==> Holds(base, key) || Holds(Applied(base, more, stop), key) {
      KeysOfFold(base, Applied(base, more, stop), key);
    }
    assert forall key :: !Holds([], key);
  }

  /** The capacity does not matter to an empty store: both branches end with the same headers, and exactly the keys of
      the headers applied have arrived. */
  lemma MergeIntoEmpty(s: Store, more: seq<Header>, stop: bool, t: Store, s': Store, t': Store)
    requires s.mvec == [] && s'.mvec == []
    requires MergeStep(s, more, stop, t) && MergeStep(s', more, stop, t')
    ensures t.mvec == t'.mvec
    ensures forall key :: Holds(t.mvec, key) <==> Holds(Applied([], more, stop), key)
  {
    hide Fold, Find, Applied;
    forall key ensures Holds(t.mvec, key) <==> Holds(Applied([], more, stop), key) {
      KeysOfFold([], Applied([], more, stop), key);
    }
  }

  /** Where a merge into an empty store that stops at errors ends: in front of the first header that does not win. */
  lemma AppliedEndsAtFirstLoser(more: seq<Header>, n: nat)
    requires n <= |more|
    ensures Applied([], more, true) == more[..n]
       <==> (forall i :: 0 <= i < n ==> Wins(more, i)) && (n < |more| ==> !Wins(more, n))
  {
    hide Fold, Wins, Accepts, BeforeRejection;
    var m := BeforeRejection([], more);
    assert forall i :: 0 <= i < m ==> Wins(more, i) by {
      forall i | 0 <= i < m ensures Wins(more, i) {
        AcceptedExactlyWhenWinning(more, i);
        if !Wins(more, i) {
          RejectionsGrow([], more, i, m);
        }
      }
    }
    if m < |more| {
      AcceptedExactlyWhenWinning(more, m);
    }
    assert |more[..n]| == n && |more[..m]| == m;
  }

  /** Headers of one known type all win, so that a merge of them into an empty store applies them all. */
  lemma OneTypeMergesCompletely(more: seq<Header>)
    requires forall i, j :: 0 <= i < |more| && 0 <= j < |more| ==> Overwrites(more[i].value, more[j].value)
    ensures Applied([], more, true) == more && Rejections([], more) == 0
  {
    forall i | 0 <= i < |more| ensures Wins(more, i) {
      FindAtMost(more, i);
    }
    AppliedEndsAtFirstLoser(more, |more|);
    assert more[..|more|] == more;
    StopsAt([], more, BeforeRejection([], more));
  }

  /** A merge returns how many headers it was given if all are accepted; if not, -1 when it stops at errors, and the
      number of the rejected ones, negated, when it goes on. */
  lemma MergeReturns(base: seq<Header>, more: seq<Header>, stop: bool)
    ensures var r := MergeResult(base, more, stop);
            if forall i :: 0 <= i < |more| ==> Accepts(Fold(base, more[..i]), more[i]) then r == |more|
            else r == if stop then -1 else |AcceptedIn(base, more)| - |more|
  {
    hide Accepts, Fold, Rejections, BeforeRejection, AcceptedIn;
    var n := BeforeRejection(base, more);
    StopsAt(base, more, n);
    forall i | 0 <= i < n ensures Accepts(Fold(base, more[..i]), more[i]) {
      if !Accepts(Fold(base, more[..i]), more[i]) {
        RejectionsGrow(base, more, i, n);
      }
    }
  }

  /** Everything offered to a store in a run. */
  function Offered(ops: seq<Op>): nat {
    if ops == [] then 0
    else
      var last := ops[|ops| - 1];
      Offered(ops[..|ops| - 1]) + if last.UpdateOp? then 1 else |last.more|
  }

  lemma {:induction false} FoldAdds(hs: seq<Header>, more: seq<Header>)
    ensures |Fold(hs, more)| <= |hs| + |more|
  {
    if more == [] {
    } else {
      hide Find;
      FoldAdds(hs, more[..|more| - 1]);
    }
  }

  /** As long as no more headers are offered than the store was made for, no merge regrows it, so nothing is
      forgotten. */
  lemma {:induction false} NothingIsForgotten(states: seq<Store>, ops: seq<Op>)
    requires IsRun(states, ops) && Offered(ops) <= states[0].capacity
    ensures forall k :: 0 <= k < |ops| ==> !Loses(states[k], ops[k])
    ensures |states[|ops|].mvec| <= Offered(ops) && states[|ops|].capacity == states[0].capacity
  {
    if ops == [] {
    } else {
      var n := |ops| - 1;
      NothingIsForgotten(states[..n + 1], ops[..n]);
      var s, op, t := states[n], ops[n], states[n + 1];
      assert OpStep(s, op, t);
      forall k | 0 <= k < n ensures !Loses(states[k], ops[k]) {
        assert states[..n + 1][k] == states[k] && ops[..n][k] == ops[k];
      }
      if op.MergeOp? {
        FoldAdds(s.mvec, Applied(s.mvec, op.more, op.stop));
      }
      hide Fold, BeforeRejection, Find;
    }
  }

  // ----- headers on top of a store

  lemma {:induction false} FoldConcat(hs: seq<Header>, a: seq<Header>, b: seq<Header>)
    ensures Fold(hs, a + b) == Fold(Fold(hs, a), b)
  {
    hide Updated;
    if b == [] {
      assert a + b == a;
    } else {
      var init := b[..|b| - 1];
      FoldConcat(hs, a, init);
      assert (a + b)[..|a + b| - 1] == a + init;
    }
  }

  /** Of headers with distinct keys, each is judged against the store alone: it ends up in the store exactly as if it
      were the only one. */
  lemma {:induction false} DistinctArrive(hs: seq<Header>, own: seq<Header>, i: nat)
    requires UniqueKeys(own) && i < |own|
    ensures Lookup(Fold(hs, own), own[i].key) == if Accepts(hs, own[i]) then Some(own[i]) else Lookup(hs, own[i].key)
  {
    hide Accepts, Updated, Lookup;
    var last := |own| - 1;
    var init := own[..last];
    UpdateLookup(Fold(hs, init), own[last], own[i].key);
    if i < last {
      DistinctArrive(hs, init, i);
    } else {
      OthersDoNotMatter(hs, init, own[last]);
    }
  }

  /** Headers with other keys change neither what a lookup finds nor what is accepted. */
  lemma {:induction false} OthersDoNotMatter(hs: seq<Header>, others: seq<Header>, h: Header)
    requires forall j :: 0 <= j < |others| ==> others[j].key != h.key
    ensures Lookup(Fold(hs, others), h.key) == Lookup(hs, h.key)
    ensures Accepts(Fold(hs, others), h) == Accepts(hs, h)
  {
    hide Updated;
    if others == [] {
    } else {
      var init := others[..|others| - 1];
      OthersDoNotMatter(hs, init, h);
      UpdateLookup(Fold(hs, init), others[|others| - 1], h.key);
    }
  }

  /** On top of text headers in an empty store, a header of one's own ends up in the store exactly when it is a text
      itself, or its key is new. */
  lemma OwnHeaderArrivesExactlyWhen(texts: seq<Header>, own: seq<Header>, i: nat)
    requires (forall j :: 0 <= j < |texts| ==> texts[j].value.TText?) && UniqueKeys(own) && i < |own|
    ensures Lookup(Fold(Fold([], texts), own), own[i].key) == Some(own[i])
       <==> own[i].value.TText? || !Holds(texts, own[i].key)
  {
    hide Fold, Find, Updated;
    var store, h := Fold([], texts), own[i];
    DistinctArrive(store, own, i);
    FoldFromEmpty(texts, h.key);
  }
}
