/**
 * The slot reconciliation that `drawPaths` (ViewController.swift) performs
 * on its `shapeLayers` list, stated on values: which layer ends up in which
 * slot, and the order in which layers are attached to and detached from the
 * view's layer.  Slots are positional: detection i always lands in slot i,
 * whatever marker it is.  The layer handle type L is left abstract.
 */
module OverlaySlots {

  /** One layer attached to, or detached from, the view's layer. */
  datatype LayerEvent<L> = Attached(layer: L) | Detached(layer: L)

  function Min(a: int, b: int): int
  {
    if a < b then a else b
  }

  function Elems<L>(s: seq<L>): set<L>
  {
    set x | x in s
  }

  predicate Distinct<L(==)>(s: seq<L>)
  {
    forall i, j :: 0 <= i < j < |s| ==> s[i] != s[j]
  }

  /**
   * `news` are pairwise distinct and none of them is among `olds`, stated
   * one element at a time (each new element is neither an old one nor an
   * earlier new one).
   */
  predicate AllNew<L(==)>(news: seq<L>, olds: seq<L>)
    decreases |news|
  {
    news == [] ||
    (AllNew(news[..|news| - 1], olds) && news[|news| - 1] !in olds + news[..|news| - 1])
  }

  lemma AllNewAppend<L>(news: seq<L>, olds: seq<L>, x: L)
    requires AllNew(news, olds) && x !in olds + news
    ensures AllNew(news + [x], olds)
  {
    assert (news + [x])[..|news|] == news;
  }

  lemma {:induction false} AllNewDistinct<L>(news: seq<L>, olds: seq<L>)
    requires AllNew(news, olds)
    ensures Distinct(news) && Disjoint(news, olds)
    decreases |news|
  {
    if news != [] {
      AllNewDistinct(news[..|news| - 1], olds);
    }
  }

  predicate Disjoint<L(==)>(a: seq<L>, b: seq<L>)
  {
    forall x :: x in a ==> x !in b
  }

  /**
   * The slot list after the first loop of `drawPaths`, where `news` are the
   * layers built for the detections: slot i holds the new layer i, and old
   * slots past the last detection are still there.
   */
  function FillSlots<L>(olds: seq<L>, news: seq<L>): (slots: seq<L>)
    ensures |slots| == if |olds| > |news| then |olds| else |news|
    ensures slots[..|news|] == news
    ensures forall i :: |news| <= i < |slots| ==> slots[i] == olds[i]
  {
    if |olds| > |news| then news + olds[|news|..] else news
  }

  /** What the first loop does for slot i: detach the old layer there, if any, then attach the new one. */
  function SlotEvents<L>(olds: seq<L>, i: nat, layer: L): seq<LayerEvent<L>>
  {
    if i < |olds| then [Detached(olds[i]), Attached(layer)] else [Attached(layer)]
  }

  /** The events of the first loop, one slot after the other. */
  function FillEvents<L>(olds: seq<L>, news: seq<L>): seq<LayerEvent<L>>
    decreases |news|
  {
    if news == [] then []
    else FillEvents(olds, news[..|news| - 1]) + SlotEvents(olds, |news| - 1, news[|news| - 1])
  }

  /** The events of popping `slots` down to length n: each popped layer is detached, the last slot first. */
  function TrimEvents<L>(slots: seq<L>, n: nat): seq<LayerEvent<L>>
    decreases |slots| - n
  {
    if |slots| <= n then [] else TrimEvents(slots, n + 1) + [Detached(slots[n])]
  }

  /** Every attach and detach one `drawPaths` call performs, in order. */
  function ReconcileEvents<L>(olds: seq<L>, news: seq<L>): seq<LayerEvent<L>>
  {
    FillEvents(olds, news) + TrimEvents(FillSlots(olds, news), |news|)
  }

  /** The set of attached layers after one event. */
  function Step<L>(attached: set<L>, e: LayerEvent<L>): set<L>
  {
    match e
    case Attached(l) => attached + {l}
    case Detached(l) => attached - {l}
  }

  /** The set of attached layers after a sequence of events. */
  function ApplyAll<L>(attached: set<L>, events: seq<LayerEvent<L>>): set<L>
    decreases |events|
  {
    if events == [] then attached
    else Step(ApplyAll(attached, events[..|events| - 1]), events[|events| - 1])
  }

  /** How often e occurs in events. */
  function Count<L(==)>(events: seq<LayerEvent<L>>, e: LayerEvent<L>): nat
    decreases |events|
  {
    if events == [] then 0
    else Count(events[..|events| - 1], e) + (if events[|events| - 1] == e then 1 else 0)
  }

  lemma {:induction false} ApplyAllAppend<L>(attached: set<L>, a: seq<LayerEvent<L>>, b: seq<LayerEvent<L>>)
    ensures ApplyAll(attached, a + b) == ApplyAll(ApplyAll(attached, a), b)
    decreases |b|
  {
    if b == [] {
      assert a + b == a;
    } else {
      var front := b[..|b| - 1];
      assert (a + b)[..|a + b| - 1] == a + front;
      ApplyAllAppend(attached, a, front);
    }
  }

  lemma {:induction false} CountAppend<L>(a: seq<LayerEvent<L>>, b: seq<LayerEvent<L>>, e: LayerEvent<L>)
    ensures Count(a + b, e) == Count(a, e) + Count(b, e)
    decreases |b|
  {
    if b == [] {
      assert a + b == a;
    } else {
      var front := b[..|b| - 1];
      assert (a + b)[..|a + b| - 1] == a + front;
      CountAppend(a, front, e);
    }
  }

  /**
   * The surplus slots are detached from the end: event j detaches the layer
   * in slot |slots| - 1 - j, so the highest index goes first.
   */
  lemma {:induction false} TrimOrder<L>(slots: seq<L>, n: nat)
    requires n <= |slots|
    ensures |TrimEvents(slots, n)| == |slots| - n
    ensures forall j :: 0 <= j < |slots| - n ==> TrimEvents(slots, n)[j] == Detached(slots[|slots| - 1 - j])
    decreases |slots| - n
  {
    if n < |slots| {
      TrimOrder(slots, n + 1);
    }
  }

  /**
   * The first loop handles slot after slot: for a slot that already existed
   * the old layer is detached right before the new one is attached; past
   * the old length each new layer is just attached.
   */
  lemma {:induction false} FillOrder<L>(olds: seq<L>, news: seq<L>)
    ensures |FillEvents(olds, news)| == |news| + Min(|olds|, |news|)
    ensures forall i :: 0 <= i < Min(|olds|, |news|) ==>
              FillEvents(olds, news)[2 * i] == Detached(olds[i]) &&
              FillEvents(olds, news)[2 * i + 1] == Attached(news[i])
    ensures forall i :: |olds| <= i < |news| ==> FillEvents(olds, news)[|olds| + i] == Attached(news[i])
    decreases |news|
  {
    if news != [] {
      var k := |news| - 1;
      var front := news[..k];
      FillOrder(olds, front);
      var done, step := FillEvents(olds, front), SlotEvents(olds, k, news[k]);
      assert FillEvents(olds, news) == done + step;
      assert forall i :: 0 <= i < k ==> front[i] == news[i];
      if k < |olds| {
        assert |done| == 2 * k && step == [Detached(olds[k]), Attached(news[k])];
      } else {
        assert |done| == |olds| + k && step == [Attached(news[k])];
      }
    }
  }

  /** Popping down to n detaches exactly the layers in the popped slots. */
  lemma {:induction false} TrimNet<L>(attached: set<L>, slots: seq<L>, n: nat)
    requires n <= |slots|
    ensures ApplyAll(attached, TrimEvents(slots, n)) == attached - Elems(slots[n..])
    decreases |slots| - n
  {
    if n < |slots| {
      var rest := TrimEvents(slots, n + 1);
      var gone := slots[n];
      calc {
        ApplyAll(attached, TrimEvents(slots, n));
        ApplyAll(attached, rest + [Detached(gone)]);
        { ApplyAllAppend(attached, rest, [Detached(gone)]); }
        ApplyAll(ApplyAll(attached, rest), [Detached(gone)]);
        { ApplySingle(ApplyAll(attached, rest), Detached(gone)); }
        ApplyAll(attached, rest) - {gone};
        { TrimNet(attached, slots, n + 1); }
        (attached - Elems(slots[n + 1..])) - {gone};
        attached - ({gone} + Elems(slots[n + 1..]));
        { assert slots[n..] == [gone] + slots[n + 1..];
          ElemsCons(gone, slots[n + 1..]); }
        attached - Elems(slots[n..]);
      }
    } else {
      assert slots[n..] == [];
    }
  }

  lemma ApplySingle<L>(attached: set<L>, e: LayerEvent<L>)
    ensures ApplyAll(attached, [e]) == Step(attached, e)
  {
    assert [e][..0] == [];
  }

  lemma SlotNet<L>(attached: set<L>, olds: seq<L>, i: nat, layer: L)
    ensures ApplyAll(attached, SlotEvents(olds, i, layer))
            == if i < |olds| then (attached - {olds[i]}) + {layer} else attached + {layer}
  {
    if i < |olds| {
      ApplySingle(attached, Detached(olds[i]));
      ApplySingle(attached - {olds[i]}, Attached(layer));
      ApplyAllAppend(attached, [Detached(olds[i])], [Attached(layer)]);
      assert SlotEvents(olds, i, layer) == [Detached(olds[i])] + [Attached(layer)];
    } else {
      ApplySingle(attached, Attached(layer));
    }
  }

  /** One iteration of the first loop: slot |built| is overwritten or appended. */
  lemma FillStep<L>(olds: seq<L>, built: seq<L>, layer: L)
    ensures FillSlots(olds, built + [layer])
            == if |built| < |olds| then FillSlots(olds, built)[|built| := layer] else FillSlots(olds, built) + [layer]
    ensures FillEvents(olds, built + [layer]) == FillEvents(olds, built) + SlotEvents(olds, |built|, layer)
    ensures SlotEvents(FillSlots(olds, built), |built|, layer) == SlotEvents(olds, |built|, layer)
  {
    var news := built + [layer];
    assert news[..|news| - 1] == built;
    var a, b := FillSlots(olds, news), FillSlots(olds, built);
    if |built| < |olds| {
      assert |a| == |b|;
      forall k | 0 <= k < |a|
        ensures a[k] == b[|built| := layer][k]
      {
        if k < |built| {
          assert a[k] == a[..|news|][k];
          assert b[k] == b[..|built|][k];
        } else if k == |built| {
          assert a[k] == a[..|news|][k];
        }
      }
    } else {
      assert a == news;
      assert b == built;
    }
  }

  lemma ElemsCons<L>(x: L, s: seq<L>)
    ensures Elems([x] + s) == {x} + Elems(s)
  {
    assert forall y :: y in [x] + s <==> y == x || y in s;
  }

  lemma ElemsSnoc<L>(s: seq<L>, x: L)
    ensures Elems(s + [x]) == Elems(s) + {x}
  {
    assert forall y :: y in s + [x] <==> y in s || y == x;
  }

  /** Set algebra of one replaced slot: the old layer leaves, the new one joins. */
  lemma ReplaceNet<L>(attached: set<L>, replaced: seq<L>, front: seq<L>, gone: L, layer: L)
    requires gone !in front
    ensures ((attached - Elems(replaced)) + Elems(front) - {gone}) + {layer}
            == (attached - Elems(replaced + [gone])) + Elems(front + [layer])
  {
    ElemsSnoc(replaced, gone);
    ElemsSnoc(front, layer);
  }

  /** The first loop leaves attached every new layer and none of the old layers it replaced. */
  lemma {:induction false} FillNet<L>(attached: set<L>, olds: seq<L>, news: seq<L>)
    requires Disjoint(news, olds)
    ensures ApplyAll(attached, FillEvents(olds, news))
            == (attached - Elems(olds[..Min(|olds|, |news|)])) + Elems(news)
    decreases |news|
  {
    if news != [] {
      var k := |news| - 1;
      var front, layer := news[..k], news[k];
      assert news == front + [layer];
      assert Disjoint(front, olds);
      FillNet(attached, olds, front);
      var replaced := olds[..Min(|olds|, k)];
      var before := (attached - Elems(replaced)) + Elems(front);
      ApplyAllAppend(attached, FillEvents(olds, front), SlotEvents(olds, k, layer));
      SlotNet(before, olds, k, layer);
      if k < |olds| {
        assert olds[..k + 1] == replaced + [olds[k]];
        assert olds[k] !in front;
        ReplaceNet(attached, replaced, front, olds[k], layer);
      } else {
        ElemsSnoc(front, layer);
        assert Min(|olds|, |news|) == Min(|olds|, k);
      }
    }
  }

  /**
   * Net effect of one reconciliation on the attached set: every old layer is
   * detached and every new layer attached, so nothing stale stays on screen.
   */
  lemma ReconcileNet<L>(attached: set<L>, olds: seq<L>, news: seq<L>)
    requires Disjoint(news, olds)
    ensures ApplyAll(attached, ReconcileEvents(olds, news)) == (attached - Elems(olds)) + Elems(news)
  {
    var n := |news|;
    var slots := FillSlots(olds, news);
    ApplyAllAppend(attached, FillEvents(olds, news), TrimEvents(slots, n));
    FillNet(attached, olds, news);
    TrimNet(ApplyAll(attached, FillEvents(olds, news)), slots, n);
    if |olds| > n {
      assert slots[n..] == olds[n..];
      assert olds == olds[..n] + olds[n..];
      assert Elems(olds) == Elems(olds[..n]) + Elems(olds[n..]);
      forall x | x in olds[n..]
        ensures x !in Elems(news)
      {
        assert x in olds;
      }
    } else {
      assert slots[n..] == [];
      assert olds[..|olds|] == olds;
    }
  }

  /**
   * If replaying a log shows exactly the old layers, replaying it followed
   * by one reconciliation shows exactly the new ones, each once.
   */
  lemma ReconcileReplay<L>(log: seq<LayerEvent<L>>, olds: seq<L>, news: seq<L>)
    requires ApplyAll({}, log) == Elems(olds)
    requires AllNew(news, olds)
    ensures ApplyAll({}, log + ReconcileEvents(olds, news)) == Elems(news)
    ensures Distinct(news)
  {
    AllNewDistinct(news, olds);
    ApplyAllAppend({}, log, ReconcileEvents(olds, news));
    ReconcileNet(Elems(olds), olds, news);
  }

  lemma CountSingle<L>(x: LayerEvent<L>, e: LayerEvent<L>)
    ensures Count([x], e) == if x == e then 1 else 0
  {
    assert [x][..0] == [];
  }

  lemma SlotCounts<L>(olds: seq<L>, i: nat, layer: L, l: L)
    ensures Count(SlotEvents(olds, i, layer), Attached(l)) == if layer == l then 1 else 0
    ensures Count(SlotEvents(olds, i, layer), Detached(l)) == if i < |olds| && olds[i] == l then 1 else 0
  {
    CountSingle(Attached(layer), Attached(l));
    CountSingle(Attached(layer), Detached(l));
    if i < |olds| {
      CountSingle(Detached(olds[i]), Attached(l));
      CountSingle(Detached(olds[i]), Detached(l));
      CountAppend([Detached(olds[i])], [Attached(layer)], Attached(l));
      CountAppend([Detached(olds[i])], [Attached(layer)], Detached(l));
      assert SlotEvents(olds, i, layer) == [Detached(olds[i])] + [Attached(layer)];
    }
  }

  /** Counts of the first loop's events: each new layer is attached once, each replaced old layer detached once. */
  lemma {:induction false} FillCounts<L>(olds: seq<L>, news: seq<L>, l: L)
    requires Distinct(olds) && Distinct(news)
    ensures Count(FillEvents(olds, news), Attached(l)) == if l in news then 1 else 0
    ensures Count(FillEvents(olds, news), Detached(l)) == if l in olds[..Min(|olds|, |news|)] then 1 else 0
    decreases |news|
  {
    if news != [] {
      var k := |news| - 1;
      var front := news[..k];
      assert Distinct(front);
      FillCounts(olds, front, l);
      var slot := SlotEvents(olds, k, news[k]);
      CountAppend(FillEvents(olds, front), slot, Attached(l));
      CountAppend(FillEvents(olds, front), slot, Detached(l));
      SlotCounts(olds, k, news[k], l);
      assert news == front + [news[k]];
      assert l in news <==> l in front || l == news[k];
      assert news[k] !in front;
      if k < |olds| {
        assert olds[..k + 1] == olds[..k] + [olds[k]];
        assert l in olds[..k + 1] <==> l in olds[..k] || l == olds[k];
        assert olds[k] !in olds[..k];
      } else {
        assert Min(|olds|, |news|) == Min(|olds|, |front|);
      }
    }
  }

  /** Counts of the trimming events: nothing is attached, each popped layer is detached once. */
  lemma {:induction false} TrimCounts<L>(slots: seq<L>, n: nat, l: L)
    requires n <= |slots| && Distinct(slots[n..])
    ensures Count(TrimEvents(slots, n), Attached(l)) == 0
    ensures Count(TrimEvents(slots, n), Detached(l)) == if l in slots[n..] then 1 else 0
    decreases |slots| - n
  {
    if n < |slots| {
      var rest := TrimEvents(slots, n + 1);
      assert slots[n..] == [slots[n]] + slots[n + 1..];
      assert Distinct(slots[n + 1..]);
      TrimCounts(slots, n + 1, l);
      assert (rest + [Detached(slots[n])])[..|rest|] == rest;
      assert slots[n] !in slots[n + 1..];
    } else {
      assert slots[n..] == [];
    }
  }

  /** The old layers left in the slots after the first loop, which the trimming loop pops. */
  function Surplus<L>(olds: seq<L>, n: nat): seq<L>
  {
    if |olds| > n then olds[n..] else []
  }

  lemma SurplusDistinct<L>(olds: seq<L>, n: nat)
    requires Distinct(olds)
    ensures Distinct(Surplus(olds, n))
  {
    var tail := Surplus(olds, n);
    forall i, j | 0 <= i < j < |tail|
      ensures tail[i] != tail[j]
    {
      assert tail[i] == olds[n + i] && tail[j] == olds[n + j];
    }
  }

  /** With distinct old layers, an old layer is popped by the trimming loop iff the first loop did not replace it. */
  lemma SurplusSplit<L>(olds: seq<L>, n: nat, l: L)
    requires Distinct(olds) && l in olds
    ensures l in Surplus(olds, n) <==> l !in olds[..Min(|olds|, n)]
  {
    var tail := Surplus(olds, n);
    var head := olds[..Min(|olds|, n)];
    var p :| 0 <= p < |olds| && olds[p] == l;
    if p < |head| {
      assert head[p] == l;
      assert forall q :: 0 <= q < |tail| ==> tail[q] == olds[|head| + q];
    } else {
      assert tail[p - |head|] == l;
      assert forall q :: 0 <= q < |head| ==> head[q] == olds[q];
    }
  }

  /**
   * Over a whole reconciliation each new layer is attached exactly once and
   * never detached, and each old layer is detached exactly once and never
   * re-attached.
   */
  lemma ReconcileCounts<L>(olds: seq<L>, news: seq<L>)
    requires Distinct(olds) && Distinct(news) && Disjoint(news, olds)
    ensures forall l :: l in news ==>
              Count(ReconcileEvents(olds, news), Attached(l)) == 1 &&
              Count(ReconcileEvents(olds, news), Detached(l)) == 0
    ensures forall l :: l in olds ==>
              Count(ReconcileEvents(olds, news), Detached(l)) == 1 &&
              Count(ReconcileEvents(olds, news), Attached(l)) == 0
  {
    var n := |news|;
    var slots := FillSlots(olds, news);
    var fill, trim := FillEvents(olds, news), TrimEvents(slots, n);
    assert slots[n..] == Surplus(olds, n);
    SurplusDistinct(olds, n);
    forall l | l in news || l in olds
      ensures Count(fill + trim, Attached(l)) == (if l in news then 1 else 0)
      ensures Count(fill + trim, Detached(l)) == (if l in olds then 1 else 0)
    {
      FillCounts(olds, news, l);
      TrimCounts(slots, n, l);
      CountAppend(fill, trim, Attached(l));
      CountAppend(fill, trim, Detached(l));
      if l in news {
        assert l !in olds;
        assert l !in olds[..Min(|olds|, n)];
      } else {
        SurplusSplit(olds, n, l);
      }
    }
  }
}
