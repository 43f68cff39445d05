/** One direction of a relay, put together from its transfers: what arrives, and what is lost on the way. */
module Flows {
  import opened Types

  /** What was taken from the source and what was put on the target, in all or by one transfer. */
  datatype Flow = Flow(consumed: Bytes, written: Bytes)

  const NOTHING := Flow([], [])

  /** A transfer writes the first part of what it takes, or all of it. */
  ghost predicate Transfers(ps: seq<Flow>) {
    forall i :: 0 <= i < |ps| ==> ps[i].written <= ps[i].consumed
  }

  /** A transfer that loses bytes. */
  ghost predicate Cut(p: Flow) {
    |p.written| < |p.consumed|
  }

  function Then(f: Flow, p: Flow): Flow {
    Flow(f.consumed + p.consumed, f.written + p.written)
  }

  function Joined(ps: seq<Flow>): Flow {
    if ps == [] then NOTHING else Then(Joined(ps[..|ps| - 1]), ps[|ps| - 1])
  }

  lemma ThenAssociates(a: Flow, b: Flow, c: Flow)
    ensures Then(Then(a, b), c) == Then(a, Then(b, c))
  {
    assert a.consumed + b.consumed + c.consumed == a.consumed + (b.consumed + c.consumed);
    assert a.written + b.written + c.written == a.written + (b.written + c.written);
  }

  lemma ThenNothing(f: Flow)
    ensures Then(f, NOTHING) == f == Then(NOTHING, f)
  {
    assert f.consumed + [] == f.consumed && f.written + [] == f.written;
  }

  lemma {:induction false} JoinedAppend(ps: seq<Flow>, qs: seq<Flow>)
    ensures Joined(ps + qs) == Then(Joined(ps), Joined(qs))
  {
    if qs == [] {
      assert ps + qs == ps;
      ThenNothing(Joined(ps));
    } else {
      var (init, q) := (qs[..|qs| - 1], qs[|qs| - 1]);
      JoinedAppend(ps, init);
      assert (ps + qs)[..|ps + qs| - 1] == ps + init;
      ThenAssociates(Joined(ps), Joined(init), q);
    }
  }

  lemma JoinedOne(p: Flow)
    ensures Joined([p]) == p
  {
    assert [p][..0] == [];
    ThenNothing(p);
  }

  // ---- subsequences ----

  ghost predicate Subsequence(a: Bytes, b: Bytes) {
    a == [] || (b != [] && ((a[0] == b[0] && Subsequence(a[1..], b[1..])) || Subsequence(a, b[1..])))
  }

  lemma {:induction false} SubsequencePrepend(a: Bytes, skipped: Bytes, b: Bytes)
    requires Subsequence(a, b)
    ensures Subsequence(a, skipped + b)
  {
    if skipped == [] {
      assert skipped + b == b;
    } else {
      SubsequencePrepend(a, skipped[1..], b);
      assert (skipped + b)[1..] == skipped[1..] + b;
    }
  }

  lemma {:induction false} SubsequenceAppend(a: Bytes, b: Bytes, c: Bytes, d: Bytes)
    requires Subsequence(a, b) && Subsequence(c, d)
    ensures Subsequence(a + c, b + d)
    decreases |b|
  {
    if a == [] {
      assert a + c == c;
      SubsequencePrepend(c, b, d);
    } else if a[0] == b[0] && Subsequence(a[1..], b[1..]) {
      SubsequenceAppend(a[1..], b[1..], c, d);
      assert (a + c)[1..] == a[1..] + c && (b + d)[1..] == b[1..] + d;
    } else {
      SubsequenceAppend(a, b[1..], c, d);
      assert (b + d)[1..] == b[1..] + d;
    }
  }

  lemma {:induction false} PrefixIsSubsequence(a: Bytes, b: Bytes)
    requires a <= b
    ensures Subsequence(a, b)
  {
    if a != [] {
      PrefixIsSubsequence(a[1..], b[1..]);
    }
  }

  /** What arrives is an in-order part of what was taken. */
  lemma {:induction false} JoinedSubsequence(ps: seq<Flow>)
    requires Transfers(ps)
    ensures Subsequence(Joined(ps).written, Joined(ps).consumed)
  {
    if ps != [] {
      var (init, p) := (ps[..|ps| - 1], ps[|ps| - 1]);
      JoinedSubsequence(init);
      PrefixIsSubsequence(p.written, p.consumed);
      SubsequenceAppend(Joined(init).written, Joined(init).consumed, p.written, p.consumed);
    }
  }

  lemma {:induction false} LengthsIff(ps: seq<Flow>)
    requires Transfers(ps)
    ensures |Joined(ps).written| <= |Joined(ps).consumed|
    ensures |Joined(ps).written| == |Joined(ps).consumed| <==> forall i :: 0 <= i < |ps| ==> !Cut(ps[i])
  {
    if ps != [] {
      var (init, p) := (ps[..|ps| - 1], ps[|ps| - 1]);
      LengthsIff(init);
      assert ps == init + [p];
    }
  }

  lemma {:induction false} UncutIsIdentical(ps: seq<Flow>)
    requires Transfers(ps) && forall i :: 0 <= i < |ps| ==> !Cut(ps[i])
    ensures Joined(ps).written == Joined(ps).consumed
  {
    if ps != [] {
      UncutIsIdentical(ps[..|ps| - 1]);
      assert !Cut(ps[|ps| - 1]);
    }
  }

  /** Everything arrives exactly when no transfer is cut. */
  lemma NothingLostIff(ps: seq<Flow>)
    requires Transfers(ps)
    ensures Joined(ps).written == Joined(ps).consumed <==> forall i :: 0 <= i < |ps| ==> !Cut(ps[i])
  {
    LengthsIff(ps);
    if forall i :: 0 <= i < |ps| ==> !Cut(ps[i]) {
      UncutIsIdentical(ps);
    }
  }

  // ---- which bytes arrive ----

  function Range(from: nat, count: nat): (r: seq<nat>)
    ensures |r| == count && forall i :: 0 <= i < count ==> r[i] == from + i
  {
    seq(count, i requires 0 <= i < count => from + i)
  }

  /** The positions, among the bytes taken, of the bytes that arrive. */
  function Kept(ps: seq<Flow>): seq<nat> {
    if ps == [] then []
    else
      var init := ps[..|ps| - 1];
      Kept(init) + Range(|Joined(init).consumed|, |ps[|ps| - 1].written|)
  }

  lemma {:induction false} KeptLocates(ps: seq<Flow>)
    requires Transfers(ps)
    ensures |Kept(ps)| == |Joined(ps).written|
    ensures forall i :: 0 <= i < |Kept(ps)| ==>
              Kept(ps)[i] < |Joined(ps).consumed| && Joined(ps).written[i] == Joined(ps).consumed[Kept(ps)[i]]
    ensures forall i, j :: 0 <= i < j < |Kept(ps)| ==> Kept(ps)[i] < Kept(ps)[j]
  {
    if ps != [] {
      KeptLocates(ps[..|ps| - 1]);
      assert ps[|ps| - 1].written <= ps[|ps| - 1].consumed;
    }
  }

  /** Once a transfer is cut, nothing is written any more. */
  ghost predicate OnlyEndCut(ps: seq<Flow>) {
    forall i, j :: 0 <= i < j < |ps| && Cut(ps[i]) ==> ps[j].written == []
  }

  lemma OnlyEndCutSnoc(ps: seq<Flow>)
    requires ps != []
    ensures var (init, p) := (ps[..|ps| - 1], ps[|ps| - 1]);
            OnlyEndCut(ps) <==>
            OnlyEndCut(init) && (p.written == [] || forall i :: 0 <= i < |init| ==> !Cut(init[i]))
  {
    var (init, p) := (ps[..|ps| - 1], ps[|ps| - 1]);
    assert ps == init + [p];
  }

  /** The bytes that arrive are the first bytes taken, position by position, exactly when only the end is cut. */
  lemma {:induction false} KeptFirstIff(ps: seq<Flow>)
    requires Transfers(ps)
    ensures (forall i :: 0 <= i < |Kept(ps)| ==> Kept(ps)[i] == i) <==> OnlyEndCut(ps)
  {
    if ps != [] {
      var (init, p) := (ps[..|ps| - 1], ps[|ps| - 1]);
      KeptFirstIff(init);
      KeptLocates(init);
      LengthsIff(init);
      OnlyEndCutSnoc(ps);
      var n := |Kept(init)|;
      assert forall i :: 0 <= i < n ==> Kept(ps)[i] == Kept(init)[i];
      if p.written != [] {
        assert Kept(ps)[n] == |Joined(init).consumed|;
      }
    }
  }

  /** Then what arrives is a prefix of what was taken. */
  lemma PrefixIfOnlyEndCut(ps: seq<Flow>)
    requires Transfers(ps) && OnlyEndCut(ps)
    ensures Joined(ps).written <= Joined(ps).consumed
  {
    KeptFirstIff(ps);
    KeptLocates(ps);
    LengthsIff(ps);
  }

  // ---- the prefix property, whatever the bytes are ----

  /** The same transfers of possibly other bytes. */
  ghost predicate SameShape(ps: seq<Flow>, qs: seq<Flow>) {
    && |ps| == |qs|
    && forall i :: 0 <= i < |ps| ==>
         |ps[i].consumed| == |qs[i].consumed| && |ps[i].written| == |qs[i].written|
  }

  lemma {:induction false} SameShapeKeepsSame(ps: seq<Flow>, qs: seq<Flow>)
    requires SameShape(ps, qs)
    ensures Kept(ps) == Kept(qs) && |Joined(ps).consumed| == |Joined(qs).consumed|
  {
    if ps != [] {
      SameShapeKeepsSame(ps[..|ps| - 1], qs[..|qs| - 1]);
    }
  }

  /** Zeros before position `n`, ones from there on. */
  function Paint(from: nat, count: nat, n: nat): (r: Bytes)
    ensures |r| == count && forall i :: 0 <= i < count ==> r[i] == if from + i < n then 0 else 1
  {
    seq(count, i requires 0 <= i < count => if from + i < n then 0 else 1)
  }

  function Painted(ps: seq<Flow>, n: nat): seq<Flow> {
    if ps == [] then []
    else
      var (init, p) := (ps[..|ps| - 1], ps[|ps| - 1]);
      var from := |Joined(init).consumed|;
      Painted(init, n) + [Flow(Paint(from, |p.consumed|, n), Paint(from, |p.written|, n))]
  }

  lemma PaintAppend(a: nat, b: nat, n: nat)
    ensures Paint(0, a, n) + Paint(a, b, n) == Paint(0, a + b, n)
  {
  }

  lemma {:induction false} PaintedAt(ps: seq<Flow>, n: nat, i: nat)
    requires i < |ps|
    ensures |Painted(ps, n)| == |ps|
    ensures var from := |Joined(ps[..i]).consumed|;
            Painted(ps, n)[i] == Flow(Paint(from, |ps[i].consumed|, n), Paint(from, |ps[i].written|, n))
  {
    hide Paint, Joined;
    var init := ps[..|ps| - 1];
    if i < |init| {
      PaintedAt(init, n, i);
      assert init[..i] == ps[..i];
    } else if init != [] {
      PaintedAt(init, n, 0);
    }
  }

  lemma {:induction false} PaintedConsumed(ps: seq<Flow>, n: nat)
    ensures |Painted(ps, n)| == |ps|
    ensures Joined(Painted(ps, n)).consumed == Paint(0, |Joined(ps).consumed|, n)
  {
    hide Paint;
    if ps != [] {
      var init := ps[..|ps| - 1];
      PaintedConsumed(init, n);
      assert Painted(ps, n)[..|Painted(ps, n)| - 1] == Painted(init, n);
      PaintAppend(|Joined(init).consumed|, |ps[|ps| - 1].consumed|, n);
    }
  }

  lemma PaintedFits(ps: seq<Flow>, n: nat)
    requires Transfers(ps)
    ensures SameShape(ps, Painted(ps, n)) && Transfers(Painted(ps, n))
    ensures Joined(Painted(ps, n)).consumed == Paint(0, |Joined(ps).consumed|, n)
  {
    hide Paint, Joined, Painted;
    PaintedConsumed(ps, n);
    forall i | 0 <= i < |ps|
      ensures |Painted(ps, n)[i].consumed| == |ps[i].consumed| && |Painted(ps, n)[i].written| == |ps[i].written|
      ensures Painted(ps, n)[i].written <= Painted(ps, n)[i].consumed
    {
      PaintedAt(ps, n, i);
      assert ps[i].written <= ps[i].consumed;
    }
  }

  /** Bytes that show it when more than the end is cut. */
  lemma GapForSomeBytes(ps: seq<Flow>) returns (qs: seq<Flow>)
    requires Transfers(ps) && !OnlyEndCut(ps)
    ensures SameShape(ps, qs) && Transfers(qs) && !(Joined(qs).written <= Joined(qs).consumed)
  {
    hide Kept, Joined, Painted, Paint, OnlyEndCut, SameShape, Transfers;
    KeptFirstIff(ps);
    KeptLocates(ps);
    var i :| 0 <= i < |Kept(ps)| && Kept(ps)[i] != i;
    KeptAhead(ps, i);
    qs := Painted(ps, Kept(ps)[i]);
    PaintedFits(ps, Kept(ps)[i]);
    SameShapeKeepsSame(ps, qs);
    KeptLocates(qs);
    assert Joined(qs).written[i] != Joined(qs).consumed[i];
  }

  lemma SameShapeOnlyEndCut(ps: seq<Flow>, qs: seq<Flow>)
    requires SameShape(ps, qs) && OnlyEndCut(ps)
    ensures OnlyEndCut(qs)
  {
  }

  /** What arrives is a prefix of what was taken, whatever the bytes are, exactly when only the end is cut. */
  lemma PrefixForAllBytesIff(ps: seq<Flow>)
    requires Transfers(ps)
    ensures (forall qs :: SameShape(ps, qs) && Transfers(qs) ==> Joined(qs).written <= Joined(qs).consumed)
       <==> OnlyEndCut(ps)
  {
    hide Joined, OnlyEndCut, SameShape, Transfers;
    if OnlyEndCut(ps) {
      forall qs | SameShape(ps, qs) && Transfers(qs)
        ensures Joined(qs).written <= Joined(qs).consumed
      {
        SameShapeOnlyEndCut(ps, qs);
        PrefixIfOnlyEndCut(qs);
      }
    } else {
      var _ := GapForSomeBytes(ps);
    }
  }

  lemma {:induction false} KeptAhead(ps: seq<Flow>, i: nat)
    requires Transfers(ps) && i < |Kept(ps)|
    ensures i <= Kept(ps)[i]
  {
    KeptLocates(ps);
    if i > 0 {
      KeptAhead(ps, i - 1);
    }
  }

  /**
   * What transfers deliver: an in-order part of what was taken; all of it exactly when no transfer is cut;
   * and the first of it, whatever the bytes, exactly when nothing is written after a cut transfer.
   */
  ghost predicate Delivers(ps: seq<Flow>, f: Flow) {
    && f == Joined(ps) && Transfers(ps)
    && Subsequence(f.written, f.consumed)
    && (f.written == f.consumed <==> forall i :: 0 <= i < |ps| ==> !Cut(ps[i]))
    && (OnlyEndCut(ps) ==> f.written <= f.consumed)
    && ((forall qs :: SameShape(ps, qs) && Transfers(qs) ==> Joined(qs).written <= Joined(qs).consumed)
        <==> OnlyEndCut(ps))
  }

  lemma TransfersDeliver(ps: seq<Flow>)
    requires Transfers(ps)
    ensures Delivers(ps, Joined(ps))
  {
    hide Joined, OnlyEndCut, SameShape, Transfers, Subsequence;
    JoinedSubsequence(ps);
    NothingLostIff(ps);
    PrefixForAllBytesIff(ps);
    if OnlyEndCut(ps) {
      PrefixIfOnlyEndCut(ps);
    }
  }
}
