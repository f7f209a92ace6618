/** A list sorted into kinds, position by position: where each kind sits,
    the last place of a kind, and the elements of one kind in order; and how
    these move when one element is inserted or removed. */
module Partition {
  import opened Wrappers
  import opened XmlTree

  /** How the line editor sorts a child of DatiBeniServizi. */
  datatype Kind = Other | Normal | Conai

  /** The positions holding kind `k`, in increasing order. */
  function Positions(ks: seq<Kind>, k: Kind): (ps: seq<nat>)
    ensures forall p: nat :: p in ps <==> p < |ks| && ks[p] == k
    ensures forall i, j :: 0 <= i < j < |ps| ==> ps[i] < ps[j]
    ensures forall i :: 0 <= i < |ps| ==> ps[i] < |ks| && ks[ps[i]] == k
  {
    if ks == [] then []
    else
      var pre := ks[..|ks| - 1];
      assert forall p :: 0 <= p < |pre| ==> pre[p] == ks[p];
      Positions(pre, k) + (if ks[|ks| - 1] == k then [|pre|] else [])
  }

  /** The last position holding kind `k`. */
  function LastOf(ks: seq<Kind>, k: Kind): (r: Option<nat>)
    ensures r.Some? ==> r.value < |ks| && ks[r.value] == k
    ensures r.Some? ==> forall j :: r.value < j < |ks| ==> ks[j] != k
    ensures r.None? <==> k !in ks
  {
    if ks == [] then None
    else if ks[|ks| - 1] == k then Some(|ks| - 1)
    else
      var pre := ks[..|ks| - 1];
      assert forall p :: 0 <= p < |pre| ==> pre[p] == ks[p];
      assert ks == pre + [ks[|ks| - 1]];
      LastOf(pre, k)
  }

  /** Appending one element: it becomes the last `k` when it has kind `k`. */
  lemma {:induction false} LastOfSnoc(a: seq<Kind>, x: Kind, k: Kind)
    ensures LastOf(a + [x], k) == if x == k then Some(|a|) else LastOf(a, k)
  {
    SnocPrefix(a, x);
  }

  /** Appending one element: its position is appended when it has kind `k`. */
  lemma {:induction false} PositionsSnoc(a: seq<Kind>, x: Kind, k: Kind)
    ensures Positions(a + [x], k) == Positions(a, k) + (if x == k then [|a|] else [])
  {
    SnocPrefix(a, x);
  }

  /** Scanning one more element: its position is appended when it has kind `k`. */
  lemma {:induction false} PositionsStep(ks: seq<Kind>, i: nat, k: Kind)
    requires i < |ks|
    ensures Positions(ks[..i + 1], k) == Positions(ks[..i], k) + (if ks[i] == k then [i] else [])
  {
    assert ks[..i + 1][..i] == ks[..i];
  }

  /** Scanning one more element: it becomes the last `k` when it has kind `k`. */
  lemma {:induction false} LastOfStep(ks: seq<Kind>, i: nat, k: Kind)
    requires i < |ks|
    ensures LastOf(ks[..i + 1], k) == if ks[i] == k then Some(i) else LastOf(ks[..i], k)
  {
    assert ks[..i + 1][..i] == ks[..i];
  }

  lemma {:induction false} PositionsCountConcat(a: seq<Kind>, b: seq<Kind>, k: Kind)
    ensures |Positions(a + b, k)| == |Positions(a, k)| + |Positions(b, k)|
  {
    if b == [] {
      assert a + b == a;
    } else {
      assert (a + b)[..|a + b| - 1] == a + b[..|b| - 1];
      PositionsCountConcat(a, b[..|b| - 1], k);
    }
  }

  lemma {:induction false} LastOfConcat(a: seq<Kind>, b: seq<Kind>, k: Kind)
    ensures LastOf(a + b, k) == if LastOf(b, k).Some? then Some(|a| + LastOf(b, k).value) else LastOf(a, k)
  {
    if b == [] {
      assert a + b == a;
    } else {
      assert (a + b)[..|a + b| - 1] == a + b[..|b| - 1];
      LastOfConcat(a, b[..|b| - 1], k);
    }
  }

  /** Exactly `j` positions holding `k` come before the `j`-th one. */
  lemma {:induction false} PositionsBefore(ks: seq<Kind>, k: Kind, j: nat)
    requires j < |Positions(ks, k)|
    ensures |Positions(ks[..Positions(ks, k)[j]], k)| == j
  {
    var pre := ks[..|ks| - 1];
    var p := Positions(ks, k)[j];
    if p == |pre| {
      assert ks[..p] == pre;
    } else {
      assert Positions(pre, k)[j] == p;
      assert pre[..p] == ks[..p];
      PositionsBefore(pre, k, j);
    }
  }

  /** Shifting a position past an insertion or a removal at `pos`. */
  function ShiftUp(o: Option<nat>, pos: nat): Option<nat>
  {
    if o.Some? && o.value >= pos then Some(o.value + 1) else o
  }

  function ShiftDown(o: Option<nat>, pos: nat): Option<nat>
  {
    if o.Some? && o.value > pos then Some(o.value - 1) else o
  }

  lemma {:induction false} CountInsert(ks: seq<Kind>, pos: nat, a: Kind, k: Kind)
    requires pos <= |ks|
    ensures |Positions(InsertAt(ks, pos, a), k)| == |Positions(ks, k)| + (if a == k then 1 else 0)
  {
    assert InsertAt(ks, pos, a) == ks[..pos] + ([a] + ks[pos..]);
    assert ks == ks[..pos] + ks[pos..];
    PositionsCountConcat(ks[..pos], [a] + ks[pos..], k);
    PositionsCountConcat([a], ks[pos..], k);
    PositionsCountConcat(ks[..pos], ks[pos..], k);
    assert [a][..0] == [];
  }

  lemma {:induction false} CountRemove(ks: seq<Kind>, p: nat, k: Kind)
    requires p < |ks|
    ensures |Positions(RemoveAt(ks, p), k)| + (if ks[p] == k then 1 else 0) == |Positions(ks, k)|
  {
    assert ks == ks[..p] + ([ks[p]] + ks[p + 1..]);
    PositionsCountConcat(ks[..p], [ks[p]] + ks[p + 1..], k);
    PositionsCountConcat([ks[p]], ks[p + 1..], k);
    PositionsCountConcat(ks[..p], ks[p + 1..], k);
    assert [ks[p]][..0] == [];
  }

  lemma {:induction false} LastOfInsertOther(ks: seq<Kind>, pos: nat, a: Kind, k: Kind)
    requires pos <= |ks| && a != k
    ensures LastOf(InsertAt(ks, pos, a), k) == ShiftUp(LastOf(ks, k), pos)
  {
    if pos == |ks| {
      assert InsertAt(ks, pos, a) == ks + [a];
      LastOfSnoc(ks, a, k);
    } else {
      var pre, l := ks[..|ks| - 1], ks[|ks| - 1];
      ButLast(ks);
      InsertAtSnoc(pre, l, pos, a);
      LastOfInsertOther(pre, pos, a, k);
      LastOfSnoc(InsertAt(pre, pos, a), l, k);
      LastOfSnoc(pre, l, k);
    }
  }

  lemma {:induction false} LastOfInsertOnly(ks: seq<Kind>, pos: nat, k: Kind)
    requires pos <= |ks| && k !in ks
    ensures LastOf(InsertAt(ks, pos, k), k) == Some(pos)
  {
    var pre, post := ks[..pos], ks[pos..];
    assert InsertAt(ks, pos, k) == pre + ([k] + post);
    assert k !in post;
    LastOfConcat(pre, [k] + post, k);
    LastOfConcat([k], post, k);
  }

  lemma {:induction false} LastOfRemoveOther(ks: seq<Kind>, p: nat, k: Kind)
    requires p < |ks| && ks[p] != k
    ensures LastOf(RemoveAt(ks, p), k) == ShiftDown(LastOf(ks, k), p)
  {
    var pre, l := ks[..|ks| - 1], ks[|ks| - 1];
    ButLast(ks);
    if p == |ks| - 1 {
      LastOfSnoc(pre, l, k);
      assert RemoveAt(ks, p) == pre && LastOf(ks, k) == LastOf(pre, k);
    } else {
      LastOfRemoveOther(pre, p, k);
      LastOfRemoveStep(pre, l, p, k);
    }
  }

  /** The inductive step of `LastOfRemoveOther`: one more element after the
      removed one. */
  lemma {:induction false} LastOfRemoveStep(pre: seq<Kind>, l: Kind, p: nat, k: Kind)
    requires p < |pre| && LastOf(RemoveAt(pre, p), k) == ShiftDown(LastOf(pre, k), p)
    ensures LastOf(RemoveAt(pre + [l], p), k) == ShiftDown(LastOf(pre + [l], k), p)
  {
    RemoveAtSnoc(pre, l, p);
    LastOfSnoc(pre, l, k);
    LastOfSnoc(RemoveAt(pre, p), l, k);
    var r := RemoveAt(pre, p);
    if l == k {
      assert LastOf(r + [l], k) == Some(|pre| - 1);
    } else {
      assert LastOf(r + [l], k) == LastOf(r, k) && LastOf(pre + [l], k) == LastOf(pre, k);
    }
  }

  lemma {:induction false} LastOfRemoveOnly(ks: seq<Kind>, p: nat, k: Kind)
    requires p < |ks| && forall j :: 0 <= j < |ks| && ks[j] == k ==> j == p
    ensures k !in RemoveAt(ks, p)
  {
    var r := RemoveAt(ks, p);
    forall i | 0 <= i < |r| ensures r[i] != k {
      if i < p { assert r[i] == ks[i]; } else { assert r[i] == ks[i + 1]; }
    }
  }

  /** The last position of a kind is the last entry of its positions. */
  lemma {:induction false} PositionsLast(ks: seq<Kind>, k: Kind)
    ensures |Positions(ks, k)| == 0 <==> LastOf(ks, k).None?
    ensures |Positions(ks, k)| > 0 ==> Positions(ks, k)[|Positions(ks, k)| - 1] == LastOf(ks, k).value
  {
    if ks != [] {
      var pre, l := ks[..|ks| - 1], ks[|ks| - 1];
      ButLast(ks);
      PositionsLast(pre, k);
      var ps, lo := Positions(pre, k), LastOf(pre, k);
      LastOfSnoc(pre, l, k);
      PositionsSnoc(pre, l, k);
      if l == k {
        assert Positions(ks, k) == ps + [|pre|] && LastOf(ks, k) == Some(|pre|);
      } else {
        assert Positions(ks, k) == ps && LastOf(ks, k) == lo;
      }
    }
  }

  /** The elements of `xs` whose kind in `ks` is `k`, in order. */
  function Select<T>(xs: seq<T>, ks: seq<Kind>, k: Kind): (r: seq<T>)
    requires |xs| == |ks|
    ensures |r| <= |xs|
  {
    if xs == [] then []
    else
      var n := |xs| - 1;
      Select(xs[..n], ks[..n], k) + (if ks[n] == k then [xs[n]] else [])
  }

  lemma {:induction false} SelectAtPositions<T>(xs: seq<T>, ks: seq<Kind>, k: Kind)
    requires |xs| == |ks|
    ensures |Select(xs, ks, k)| == |Positions(ks, k)|
    ensures forall j :: 0 <= j < |Select(xs, ks, k)| ==> Select(xs, ks, k)[j] == xs[Positions(ks, k)[j]]
  {
    if xs != [] {
      var n := |xs| - 1;
      SelectAtPositions(xs[..n], ks[..n], k);
      var ps, sl := Positions(ks[..n], k), Select(xs[..n], ks[..n], k);
      forall j | 0 <= j < |sl| ensures sl[j] == xs[ps[j]] {
        assert xs[..n][ps[j]] == xs[ps[j]];
      }
      if ks[n] == k {
        SelectAtPositionsSnoc(xs, ps, sl, ps + [n], sl + [xs[n]]);
      } else {
        assert Positions(ks, k) == ps && Select(xs, ks, k) == sl;
      }
    }
  }

  lemma {:induction false} SelectAtPositionsSnoc<T>(xs: seq<T>, ps: seq<nat>, sl: seq<T>, ps': seq<nat>, sl': seq<T>)
    requires xs != [] && |sl| == |ps| && ps' == ps + [|xs| - 1] && sl' == sl + [xs[|xs| - 1]]
    requires forall j :: 0 <= j < |sl| ==> ps[j] < |xs| && sl[j] == xs[ps[j]]
    ensures |sl'| == |ps'| && forall j :: 0 <= j < |sl'| ==> sl'[j] == xs[ps'[j]]
  {
  }

  lemma {:induction false} SelectConcat<T>(xa: seq<T>, ka: seq<Kind>, xb: seq<T>, kb: seq<Kind>, k: Kind)
    requires |xa| == |ka| && |xb| == |kb|
    ensures Select(xa + xb, ka + kb, k) == Select(xa, ka, k) + Select(xb, kb, k)
  {
    if xb == [] {
      assert xa + xb == xa && ka + kb == ka;
    } else {
      var n := |xb| - 1;
      assert (xa + xb)[..|xa| + n] == xa + xb[..n];
      assert (ka + kb)[..|ka| + n] == ka + kb[..n];
      SelectConcat(xa, ka, xb[..n], kb[..n], k);
    }
  }

  lemma {:induction false} SelectSingle<T>(x: T, a: Kind, k: Kind)
    ensures Select([x], [a], k) == if a == k then [x] else []
  {
    assert [x][..0] == [] && [a][..0] == [];
  }

  /** Splitting both lists at `pos` splits the selection there. */
  lemma {:induction false} SelectSplit<T>(xs: seq<T>, ks: seq<Kind>, pos: nat, k: Kind)
    requires |xs| == |ks| && pos <= |xs|
    ensures Select(xs, ks, k) == Select(xs[..pos], ks[..pos], k) + Select(xs[pos..], ks[pos..], k)
  {
    assert xs == xs[..pos] + xs[pos..] && ks == ks[..pos] + ks[pos..];
    SelectConcat(xs[..pos], ks[..pos], xs[pos..], ks[pos..], k);
  }

  /** An element inserted at `pos` is selected, at its place, exactly when it has the kind. */
  lemma {:induction false} SelectInsert<T>(xs: seq<T>, ks: seq<Kind>, pos: nat, x: T, a: Kind, k: Kind)
    requires |xs| == |ks| && pos <= |xs|
    ensures Select(InsertAt(xs, pos, x), InsertAt(ks, pos, a), k) ==
      Select(xs[..pos], ks[..pos], k) + (if a == k then [x] else []) + Select(xs[pos..], ks[pos..], k)
  {
    assert InsertAt(xs, pos, x) == xs[..pos] + ([x] + xs[pos..]);
    assert InsertAt(ks, pos, a) == ks[..pos] + ([a] + ks[pos..]);
    SelectConcat(xs[..pos], ks[..pos], [x] + xs[pos..], [a] + ks[pos..], k);
    SelectConcat([x], [a], xs[pos..], ks[pos..], k);
    SelectSingle(x, a, k);
  }

  /** Inserting an element of another kind leaves the selection alone. */
  lemma {:induction false} SelectInsertOther<T>(xs: seq<T>, ks: seq<Kind>, pos: nat, x: T, a: Kind, k: Kind)
    requires |xs| == |ks| && pos <= |xs| && a != k
    ensures Select(InsertAt(xs, pos, x), InsertAt(ks, pos, a), k) == Select(xs, ks, k)
  {
    SelectInsert(xs, ks, pos, x, a, k);
    SelectSplit(xs, ks, pos, k);
  }

  /** Removing an element of another kind leaves the selection alone. */
  lemma {:induction false} SelectRemoveOther<T>(xs: seq<T>, ks: seq<Kind>, p: nat, k: Kind)
    requires |xs| == |ks| && p < |xs| && ks[p] != k
    ensures Select(RemoveAt(xs, p), RemoveAt(ks, p), k) == Select(xs, ks, k)
  {
    SelectSplit(xs, ks, p, k);
    SelectSingleSplit(xs, ks, p, k);
    SelectRemoved(xs, ks, p, k);
  }

  lemma {:induction false} SelectSingleSplit<T>(xs: seq<T>, ks: seq<Kind>, p: nat, k: Kind)
    requires |xs| == |ks| && p < |xs|
    ensures Select(xs[p..], ks[p..], k) == (if ks[p] == k then [xs[p]] else []) + Select(xs[p + 1..], ks[p + 1..], k)
  {
    assert xs[p..] == [xs[p]] + xs[p + 1..] && ks[p..] == [ks[p]] + ks[p + 1..];
    SelectConcat([xs[p]], [ks[p]], xs[p + 1..], ks[p + 1..], k);
    SelectSingle(xs[p], ks[p], k);
  }

  /** Removing the `j`-th element of kind `k` removes exactly it from the selection. */
  lemma {:induction false} SelectRemove<T>(xs: seq<T>, ks: seq<Kind>, j: nat, k: Kind)
    requires |xs| == |ks| && j < |Positions(ks, k)|
    ensures Positions(ks, k)[j] < |xs| && |Select(xs, ks, k)| == |Positions(ks, k)|
    ensures Select(RemoveAt(xs, Positions(ks, k)[j]), RemoveAt(ks, Positions(ks, k)[j]), k) ==
      RemoveAt(Select(xs, ks, k), j)
  {
    var p := Positions(ks, k)[j];
    var a := Select(xs[..p], ks[..p], k);
    var b := Select(xs[p + 1..], ks[p + 1..], k);
    SelectAtPositions(xs, ks, k);
    assert |a| == j by {
      SelectAtPositions(xs[..p], ks[..p], k);
      PositionsBefore(ks, k, j);
    }
    assert Select(xs, ks, k) == a + [xs[p]] + b by {
      SelectSplit(xs, ks, p, k);
      SelectSingleSplit(xs, ks, p, k);
    }
    SelectRemoved(xs, ks, p, k);
    RemoveMiddle(a, xs[p], b);
  }

  /** Removing position `p` from both lists selects from what is left on either side. */
  lemma {:induction false} SelectRemoved<T>(xs: seq<T>, ks: seq<Kind>, p: nat, k: Kind)
    requires |xs| == |ks| && p < |xs|
    ensures Select(RemoveAt(xs, p), RemoveAt(ks, p), k) == Select(xs[..p], ks[..p], k) + Select(xs[p + 1..], ks[p + 1..], k)
  {
    assert RemoveAt(xs, p) == xs[..p] + xs[p + 1..] && RemoveAt(ks, p) == ks[..p] + ks[p + 1..];
    SelectConcat(xs[..p], ks[..p], xs[p + 1..], ks[p + 1..], k);
  }

  function Last(ps: seq<nat>): nat
    requires |ps| > 0
  {
    ps[|ps| - 1]
  }

  /** An element of kind `k` inserted at `pos` is the last of its kind
      exactly when none follows the insertion point. */
  lemma {:induction false} InsertedIsLast(ks: seq<Kind>, pos: nat, k: Kind)
    requires pos <= |ks|
    ensures |Positions(InsertAt(ks, pos, k), k)| > 0
    ensures Last(Positions(InsertAt(ks, pos, k), k)) == pos <==> k !in ks[pos..]
  {
    CountInsert(ks, pos, k, k);
    PositionsLast(InsertAt(ks, pos, k), k);
    LastOfInsertSame(ks, pos, k);
  }

  lemma {:induction false} LastOfInsertSame(ks: seq<Kind>, pos: nat, k: Kind)
    requires pos <= |ks|
    ensures LastOf(InsertAt(ks, pos, k), k) == Some(pos) <==> k !in ks[pos..]
  {
    if pos == |ks| {
      assert InsertAt(ks, pos, k) == ks + [k];
      LastOfSnoc(ks, k, k);
    } else {
      var pre, l := ks[..|ks| - 1], ks[|ks| - 1];
      ButLast(ks);
      InsertAtSnoc(pre, l, pos, k);
      assert ks[pos..] == pre[pos..] + [l];
      LastOfInsertSame(pre, pos, k);
      LastOfSnoc(InsertAt(pre, pos, k), l, k);
    }
  }
}
