/**
 * The palette of PaletteView.java: the list of custom paints, the selection
 * list, the current paint, mix mode and the subtractive N-way mix.
 *
 * Each CustomPaintView object is an identity (a `ViewId`): its position in the
 * sequence `views` of every view created so far, which holds the record of its
 * two mutable fields, colour and selected flag; creating a view appends one. Java's `List.remove(Object)` compares
 * views by identity and removes the first occurrence only.
 */
module Palette {
  import opened Options
  import opened ColorSpace

  const MIN_CUSTOM_COLORS: nat := 2
  const MAX_CUSTOM_COLORS: nat := 11

  type ViewId = nat

  /** The state of one CustomPaintView. */
  datatype CustomPaint = CustomPaint(color: Color, selected: bool)

  predicate Distinct(s: seq<ViewId>) {
    forall i, j :: 0 <= i < j < |s| ==> s[i] != s[j]
  }

  /** Every id in `ids` names one of the first `n` views created. */
  predicate InRange(ids: seq<ViewId>, n: nat) {
    forall i :: 0 <= i < |ids| ==> ids[i] < n
  }

  lemma InRangeSubset(a: seq<ViewId>, b: seq<ViewId>, n: nat)
    requires InRange(b, n) && forall k :: k in a ==> k in b
    ensures InRange(a, n)
  {
    forall i | 0 <= i < |a| ensures a[i] < n {
      assert a[i] in b;
    }
  }

  /** `List.remove(Object)`: drops the first occurrence of `v`, if there is one. */
  function RemoveFirst(s: seq<ViewId>, v: ViewId): (r: seq<ViewId>)
    ensures |r| == if v in s then |s| - 1 else |s|
  {
    if s == [] then []
    else if s[0] == v then s[1..]
    else [s[0]] + RemoveFirst(s[1..], v)
  }

  /** Removing takes exactly one copy of `v` out of the list, if it holds one, and keeps the rest. */
  lemma {:induction false} RemoveFirstMultiset(s: seq<ViewId>, v: ViewId)
    ensures multiset(RemoveFirst(s, v)) == multiset(s) - multiset{v}
    ensures v !in s ==> RemoveFirst(s, v) == s
  {
    if s != [] {
      assert s == [s[0]] + s[1..];
      if s[0] != v {
        RemoveFirstMultiset(s[1..], v);
      }
    }
  }

  /** What is left after removing is a part of what was there. */
  lemma RemoveFirstSubset(s: seq<ViewId>, v: ViewId)
    ensures forall x :: x in RemoveFirst(s, v) ==> x in s
  {
    RemoveFirstMultiset(s, v);
    forall x | x in RemoveFirst(s, v) ensures x in s {
      assert x in multiset(RemoveFirst(s, v));
    }
  }

  lemma {:induction false} RemoveFirstDistinct(s: seq<ViewId>, v: ViewId)
    requires Distinct(s)
    ensures Distinct(RemoveFirst(s, v))
  {
    if s != [] && s[0] != v {
      RemoveFirstDistinct(s[1..], v);
      var t := RemoveFirst(s[1..], v);
      RemoveFirstSubset(s[1..], v);
      assert s[0] !in s[1..];
      var r := [s[0]] + t;
      forall i, j | 0 <= i < j < |r| ensures r[i] != r[j] {
        if i == 0 {
          assert r[j] == t[j - 1];
        } else {
          assert r[i] == t[i - 1] && r[j] == t[j - 1];
        }
      }
    }
  }

  /** In a list without duplicates, removing a view removes it entirely. */
  lemma RemoveFirstGone(s: seq<ViewId>, v: ViewId)
    requires Distinct(s)
    ensures v !in RemoveFirst(s, v)
  {
    RemoveFirstMultiset(s, v);
    if v in s {
      var i :| 0 <= i < |s| && s[i] == v;
      DistinctCount(s, i);
    }
    assert multiset(RemoveFirst(s, v))[v] == 0;
  }

  /** A list without duplicates holds each of its elements once. */
  lemma {:induction false} DistinctCount(s: seq<ViewId>, i: int)
    requires Distinct(s) && 0 <= i < |s|
    ensures multiset(s)[s[i]] == 1
  {
    var n := |s|;
    assert s == s[..n - 1] + [s[n - 1]];
    if i < n - 1 {
      assert Distinct(s[..n - 1]);
      DistinctCount(s[..n - 1], i);
    } else {
      assert s[i] !in s[..n - 1];
    }
  }

  /** The selection after one `remove` per id in `ids`, in order. */
  function RemoveEach(s: seq<ViewId>, ids: seq<ViewId>): (r: seq<ViewId>)
    ensures |r| <= |s|
    decreases |ids|
  {
    if ids == [] then s
    else RemoveEach(RemoveFirst(s, ids[0]), ids[1..])
  }

  /** Removing each id in turn takes out one copy per occurrence in `ids`. */
  lemma {:induction false} RemoveEachMultiset(s: seq<ViewId>, ids: seq<ViewId>)
    ensures multiset(RemoveEach(s, ids)) == multiset(s) - multiset(ids)
    decreases |ids|
  {
    if ids != [] {
      assert ids == [ids[0]] + ids[1..];
      RemoveFirstMultiset(s, ids[0]);
      RemoveEachMultiset(RemoveFirst(s, ids[0]), ids[1..]);
    }
  }

  lemma RemoveEachSubset(s: seq<ViewId>, ids: seq<ViewId>)
    ensures forall x :: x in RemoveEach(s, ids) ==> x in s
  {
    RemoveEachMultiset(s, ids);
    forall x | x in RemoveEach(s, ids) ensures x in s {
      assert x in multiset(RemoveEach(s, ids));
    }
  }

  /** The ids other than `keep`, in order: the views a `c != keep` loop acts on. */
  function Others(ids: seq<ViewId>, keep: Option<ViewId>): (r: seq<ViewId>)
    ensures |r| <= |ids|
  {
    if ids == [] then []
    else (if Some(ids[0]) == keep then [] else [ids[0]]) + Others(ids[1..], keep)
  }

  /** `Others` keeps exactly the ids different from `keep`. */
  lemma {:induction false} OthersMembers(ids: seq<ViewId>, keep: Option<ViewId>)
    ensures forall x :: x in Others(ids, keep) <==> x in ids && Some(x) != keep
  {
    if ids != [] {
      assert ids == [ids[0]] + ids[1..];
      OthersMembers(ids[1..], keep);
    }
  }

  lemma {:induction false} OthersNone(ids: seq<ViewId>)
    ensures Others(ids, None) == ids
  {
    if ids != [] {
      assert ids == [ids[0]] + ids[1..];
      OthersNone(ids[1..]);
    }
  }

  /** One `c.setSelected(false)` of the deselecting loops, skipped for `keep`. */
  function DeselectOne(views: seq<CustomPaint>, c: ViewId, keep: Option<ViewId>): seq<CustomPaint> {
    if Some(c) != keep && c < |views| then views[c := views[c].(selected := false)] else views
  }

  /** The view records after `setSelected(false)` on every view of `ids` except `keep`, in order. */
  function Deselected(views: seq<CustomPaint>, ids: seq<ViewId>, keep: Option<ViewId>): (r: seq<CustomPaint>)
    ensures |r| == |views|
    decreases |ids|
  {
    if ids == [] then views else Deselected(DeselectOne(views, ids[0], keep), ids[1..], keep)
  }

  /** Deselecting keeps every colour, clears the flag of the listed views but `keep`, and touches nothing else. */
  lemma {:induction false} DeselectedFacts(views: seq<CustomPaint>, ids: seq<ViewId>, keep: Option<ViewId>)
    ensures var r := Deselected(views, ids, keep);
      (forall k :: 0 <= k < |r| ==> r[k].color == views[k].color)
      && (forall k :: 0 <= k < |r| && k in ids && Some(k) != keep ==> !r[k].selected)
      && (forall k :: 0 <= k < |r| && (k !in ids || Some(k) == keep) ==> r[k] == views[k])
    decreases |ids|
  {
    if ids != [] {
      assert ids == [ids[0]] + ids[1..];
      DeselectedFacts(DeselectOne(views, ids[0], keep), ids[1..], keep);
    }
  }

  /** Changing the record of the kept view before deselecting is the same as changing it after. */
  lemma {:induction false} DeselectedKeep(v: seq<CustomPaint>, ids: seq<ViewId>, c: ViewId, x: CustomPaint)
    requires c < |v|
    ensures Deselected(v[c := x], ids, Some(c)) == Deselected(v, ids, Some(c))[c := x]
    decreases |ids|
  {
    if ids != [] {
      var d := ids[0];
      assert DeselectOne(v[c := x], d, Some(c)) == DeselectOne(v, d, Some(c))[c := x];
      DeselectedKeep(DeselectOne(v, d, Some(c)), ids[1..], c, x);
    }
  }

  /** `Math.min(1f, f)`: an upper bound only. */
  function Clamp(f: real): (r: real)
    ensures r <= 1.0 && r <= f
    ensures r == f || r == 1.0
  {
    if f < 1.0 then f else 1.0
  }

  lemma ClampMonotone(a: real, b: real)
    requires a <= b
    ensures Clamp(a) <= Clamp(b)
  {
  }

  function AddCmy(a: Cmy, b: Cmy): Cmy {
    Cmy(a.c + b.c, a.m + b.m, a.y + b.y)
  }

  predicate NonNegative(a: Cmy) { a.c >= 0.0 && a.m >= 0.0 && a.y >= 0.0 }

  /** The CMY values `fromRGB` gives for the colours, in order. */
  function Components(cols: seq<Color>): (r: seq<Cmy>)
    ensures |r| == |cols|
    ensures forall i :: 0 <= i < |cols| ==> r[i] == FromRgb(cols[i])
  {
    seq(|cols|, i requires 0 <= i < |cols| => FromRgb(cols[i]))
  }

  predicate AllProper(ks: seq<Cmy>) { forall i :: 0 <= i < |ks| ==> IsProper(ks[i]) }

  /** The CMY values summed channel by channel, first to last; sums of values in [0,1] are non-negative. */
  function SumCmy(ks: seq<Cmy>): (r: Cmy)
    ensures AllProper(ks) ==> NonNegative(r)
  {
    if ks == [] then Cmy(0.0, 0.0, 0.0)
    else AddCmy(SumCmy(ks[..|ks| - 1]), ks[|ks| - 1])
  }

  lemma ComponentsProper(cols: seq<Color>)
    ensures AllProper(Components(cols))
  {
  }

  /** `mixColors`: sum the CMY components, clamp each sum at 1, convert back. */
  function Mix(cols: seq<Color>): (r: Color)
    ensures Alpha(r) == 255
    ensures cols == [] ==> r == Rgb(255, 255, 255)
  {
    ComponentsProper(cols);
    var s := SumCmy(Components(cols));
    var mixed := ToRgb(Clamp(s.c), Clamp(s.m), Clamp(s.y));
    assert cols == [] ==> mixed == Rgb(255, 255, 255) by {
      if cols == [] {
        ChannelRange(0.0);
        RgbChannels(255, 255, 255);
        RgbOfChannels(mixed);
        RgbOfChannels(Rgb(255, 255, 255));
      }
    }
    mixed
  }

  lemma {:induction false} SumCmyConcat(a: seq<Cmy>, b: seq<Cmy>)
    ensures SumCmy(a + b) == AddCmy(SumCmy(a), SumCmy(b))
    decreases |b|
  {
    if b == [] {
      assert a + b == a;
    } else {
      var n := |b|;
      assert (a + b)[..|a + b| - 1] == a + b[..n - 1];
      assert (a + b)[|a + b| - 1] == b[n - 1];
      SumCmyConcat(a, b[..n - 1]);
    }
  }

  /** The sum of one value is that value. */
  lemma SumCmySingle(k: Cmy)
    ensures SumCmy([k]) == k
  {
    var e: seq<Cmy> := [];
    assert [k][..0] == e;
  }

  /** Where the last element of `a` sits in its permutation `b`, and what is left of both without it. */
  lemma PickLast<T>(a: seq<T>, b: seq<T>) returns (j: int)
    requires multiset(a) == multiset(b) && a != []
    ensures 0 <= j < |b| && b[j] == a[|a| - 1]
    ensures b == b[..j] + [b[j]] + b[j + 1..]
    ensures a == a[..|a| - 1] + [a[|a| - 1]]
    ensures multiset(a[..|a| - 1]) == multiset(b[..j] + b[j + 1..])
  {
    var n := |a|;
    var x := a[n - 1];
    assert a == a[..n - 1] + [x];
    assert x in multiset(b);
    j :| 0 <= j < |b| && b[j] == x;
    var l, r := b[..j], b[j + 1..];
    assert b == l + [x] + r;
    assert multiset(l + r) == multiset(l) + multiset(r);
    MultisetCancel(multiset(a[..n - 1]), multiset(l + r), x);
  }

  lemma MultisetCancel<T>(p: multiset<T>, q: multiset<T>, x: T)
    requires p + multiset{x} == q + multiset{x}
    ensures p == q
  {
    forall y ensures p[y] == q[y] {
      assert (p + multiset{x})[y] == (q + multiset{x})[y];
    }
  }

  /** Summing does not depend on the order of the values. */
  lemma {:induction false} SumCmyPermutation(a: seq<Cmy>, b: seq<Cmy>)
    requires multiset(a) == multiset(b)
    ensures SumCmy(a) == SumCmy(b)
    decreases |a|
  {
    if a != [] {
      var n := |a|;
      var j := PickLast(a, b);
      var x := a[n - 1];
      var rest := b[..j] + b[j + 1..];
      SumCmyPermutation(a[..n - 1], rest);
      SumCmyConcat(b[..j] + [x], b[j + 1..]);
      SumCmyConcat(b[..j], [x]);
      SumCmyConcat(b[..j], b[j + 1..]);
      SumCmyConcat(a[..n - 1], [x]);
      SumCmySingle(x);
    }
  }

  lemma ComponentsConcat(a: seq<Color>, b: seq<Color>)
    ensures Components(a + b) == Components(a) + Components(b)
  {
  }

  /** Reordering the colours reorders their CMY values the same way. */
  lemma {:induction false} ComponentsPermutation(a: seq<Color>, b: seq<Color>)
    requires multiset(a) == multiset(b)
    ensures multiset(Components(a)) == multiset(Components(b))
    decreases |a|
  {
    if a != [] {
      var n := |a|;
      var j := PickLast(a, b);
      var x := a[n - 1];
      ComponentsPermutation(a[..n - 1], b[..j] + b[j + 1..]);
      ComponentsConcat(a[..n - 1], [x]);
      ComponentsConcat(b[..j] + [x], b[j + 1..]);
      ComponentsConcat(b[..j], [x]);
      ComponentsConcat(b[..j], b[j + 1..]);
    }
  }

  /** The mix does not depend on the order of the colours in the selection. */
  lemma MixPermutation(a: seq<Color>, b: seq<Color>)
    requires multiset(a) == multiset(b)
    ensures Mix(a) == Mix(b)
  {
    ComponentsPermutation(a, b);
    SumCmyPermutation(Components(a), Components(b));
  }

  /** Mixing one colour gives that colour back, made opaque. */
  lemma MixSingle(col: Color)
    ensures Mix([col]) == MakeOpaque(col)
    ensures Red(Mix([col])) == Red(col) && Green(Mix([col])) == Green(col) && Blue(Mix([col])) == Blue(col)
  {
    var k := FromRgb(col);
    assert Components([col]) == [k];
    SumCmySingle(k);
    assert Clamp(k.c) == k.c && Clamp(k.m) == k.m && Clamp(k.y) == k.y;
    RoundTrip(col);
  }

  /** Adding a colour to the mix never makes any channel of the result lighter. */
  lemma MixDarkens(cols: seq<Color>, x: Color)
    ensures Red(Mix(cols + [x])) <= Red(Mix(cols))
    ensures Green(Mix(cols + [x])) <= Green(Mix(cols))
    ensures Blue(Mix(cols + [x])) <= Blue(Mix(cols))
  {
    ComponentsConcat(cols, [x]);
    var ks := Components(cols);
    var kx := Components(cols + [x]);
    assert kx[..|ks|] == ks;
    ComponentsProper(cols + [x]);
    var s, t := SumCmy(ks), SumCmy(kx);
    ClampMonotone(s.c, t.c);
    ClampMonotone(s.m, t.m);
    ClampMonotone(s.y, t.y);
    ToRgbAntitone(Cmy(Clamp(s.c), Clamp(s.m), Clamp(s.y)), Cmy(Clamp(t.c), Clamp(t.m), Clamp(t.y)));
  }

  lemma PrimaryComponents()
    ensures Components([0xFFFF_0000, 0xFF00_FF00, 0xFF00_00FF]) == [Cmy(0.0, 1.0, 1.0), Cmy(1.0, 0.0, 1.0), Cmy(1.0, 1.0, 0.0)]
  {
    assert Red(0xFFFF_0000) == 255 && Green(0xFFFF_0000) == 0 && Blue(0xFFFF_0000) == 0;
    assert Red(0xFF00_FF00) == 0 && Green(0xFF00_FF00) == 255 && Blue(0xFF00_FF00) == 0;
    assert Red(0xFF00_00FF) == 0 && Green(0xFF00_00FF) == 0 && Blue(0xFF00_00FF) == 255;
  }

  lemma SumCmyThree(a: Cmy, b: Cmy, c: Cmy)
    ensures SumCmy([a, b, c]) == AddCmy(AddCmy(a, b), c)
  {
    assert [a, b, c][..2] == [a, b];
    assert [a, b][..1] == [a];
    SumCmySingle(a);
  }

  /** Mixing pure red, green and blue gives opaque black. */
  lemma MixPrimaries()
    ensures Mix([0xFFFF_0000, 0xFF00_FF00, 0xFF00_00FF]) == 0xFF00_0000
  {
    PrimaryComponents();
    SumCmyThree(Cmy(0.0, 1.0, 1.0), Cmy(1.0, 0.0, 1.0), Cmy(1.0, 1.0, 0.0));
    ChannelRange(1.0);
    assert ToRgb(1.0, 1.0, 1.0) == Rgb(0, 0, 0);
  }

  /** The colours of the views in `ids`, in order: what `mixColors` reads. */
  function ColorsOf(views: seq<CustomPaint>, ids: seq<ViewId>): (r: seq<Color>)
    requires InRange(ids, |views|)
    ensures |r| == |ids|
    ensures forall i :: 0 <= i < |ids| ==> r[i] == views[ids[i]].color
  {
    seq(|ids|, i requires 0 <= i < |ids| => views[ids[i]].color)
  }

  /** `mixColors`: accumulates the CMY components over the list, then clamps and converts back. */
  method MixColors(views: seq<CustomPaint>, ids: seq<ViewId>) returns (col: Color)
    requires InRange(ids, |views|)
    ensures col == Mix(ColorsOf(views, ids))
  {
    var c, m, y := 0.0, 0.0, 0.0;
    for i := 0 to |ids|
      invariant Cmy(c, m, y) == SumCmy(Components(ColorsOf(views, ids[..i])))
    {
      var color := FromRgb(views[ids[i]].color);
      var pre, post := Components(ColorsOf(views, ids[..i])), Components(ColorsOf(views, ids[..i + 1]));
      assert post[..i] == pre;
      c := c + color.c;
      m := m + color.m;
      y := y + color.y;
    }
    assert ids[..|ids|] == ids;
    col := ToRgb(Clamp(c), Clamp(m), Clamp(y));
  }

  /**
   * The palette's invariant: every referenced view exists, the list holds each
   * view once and at most eleven of them, and a current view exists once any
   * view has been added.
   */
  ghost predicate Coherent(views: seq<CustomPaint>, cpv: seq<ViewId>, sel: seq<ViewId>, cur: Option<ViewId>) {
    InRange(cpv, |views|)
    && InRange(sel, |views|)
    && (cur.Some? ==> cur.value < |views|)
    && |cpv| <= MAX_CUSTOM_COLORS
    && Distinct(cpv)
    && (cpv != [] || sel != [] ==> cur.Some?)
  }

  /** Adding a fresh selected view after deselecting the list keeps the invariant. */
  lemma CoherentAdd(views: seq<CustomPaint>, cpv: seq<ViewId>, sel: seq<ViewId>, cur: Option<ViewId>, x: CustomPaint)
    requires Coherent(views, cpv, sel, cur) && |cpv| < MAX_CUSTOM_COLORS
    ensures Coherent(views + [x], cpv + [|views|], sel + [|views|], Some(|views|))
  {
    var t := cpv + [|views|];
    forall i, j | 0 <= i < j < |t| ensures t[i] != t[j] {
      if j == |cpv| {
        assert t[i] in cpv;
      } else {
        assert t[i] == cpv[i] && t[j] == cpv[j];
      }
    }
  }

  /**
   * The `for` loop over the list `ids` that deselects every view but `keep` in the
   * records `v0` and removes it once from the selection `s0`.
   */
  method DeselectLoop(ids: seq<ViewId>, v0: seq<CustomPaint>, s0: seq<ViewId>, keep: Option<ViewId>)
    returns (vs: seq<CustomPaint>, sel: seq<ViewId>)
    requires InRange(ids, |v0|)
    ensures vs == Deselected(v0, ids, keep)
    ensures sel == RemoveEach(s0, Others(ids, keep))
  {
    vs, sel := v0, s0;
    for i := 0 to |ids|
      invariant |vs| == |v0|
      invariant Deselected(vs, ids[i..], keep) == Deselected(v0, ids, keep)
      invariant RemoveEach(sel, Others(ids[i..], keep)) == RemoveEach(s0, Others(ids, keep))
    {
      var c := ids[i];
      assert ids[i..] == [c] + ids[i + 1..];
      var rest := Others(ids[i + 1..], keep);
      assert Others(ids[i..], keep) == (if Some(c) == keep then [] else [c]) + rest;
      if Some(c) != keep {
        assert ([c] + rest)[1..] == rest;
        vs := vs[c := vs[c].(selected := false)];
        sel := RemoveFirst(sel, c);
      } else {
        assert [] + rest == rest;
      }
    }
  }

  /** Deselecting views and dropping selection entries keeps the invariant. */
  lemma CoherentDeselect(views: seq<CustomPaint>, cpv: seq<ViewId>, sel: seq<ViewId>, cur: Option<ViewId>,
                         views': seq<CustomPaint>, sel': seq<ViewId>)
    requires Coherent(views, cpv, sel, cur)
    requires |views'| == |views|
    requires forall k :: k in sel' ==> k in sel
    ensures Coherent(views', cpv, sel', cur)
  {
    InRangeSubset(sel', sel, |views|);
    if sel' != [] {
      assert sel'[0] in sel;
    }
  }

  /** After deselecting the list and adding a selected view `n`, `n` is the only selected view of the longer list. */
  lemma OnlyNewSelected(views: seq<CustomPaint>, cpv: seq<ViewId>)
    requires InRange(cpv, |views|)
    ensures var r := Deselected(views, cpv, None) + [CustomPaint(0, true)];
      forall k :: k in cpv + [|views|] ==> k < |r| && (r[k].selected <==> k == |views|)
  {
    DeselectedFacts(views, cpv, None);
  }

  /** After deselecting every listed view but `c` and selecting `c`, `c` is the only selected view of the list. */
  lemma OnlyClickedSelected(views: seq<CustomPaint>, cpv: seq<ViewId>, c: ViewId)
    requires InRange(cpv, |views|) && c < |views|
    ensures var r := Deselected(views, cpv, Some(c))[c := views[c].(selected := true)];
      forall k :: k in cpv ==> k < |r| && (r[k].selected <==> k == c)
  {
    DeselectedFacts(views, cpv, Some(c));
  }

  /** The palette as `mySaveInstanceState` stores it, without the layout fields. */
  datatype SavedPalette = SavedPalette(paletteVisible: bool, inMixMode: bool, customColors: seq<Color>,
                                       selectedIndexes: seq<int>, currentIndex: int)

  /** The indexes below `n` whose view is in the selection list, in increasing order. */
  function SelectedIndexes(cpv: seq<ViewId>, sel: seq<ViewId>, n: nat): seq<int>
    requires n <= |cpv|
  {
    if n == 0 then [] else SelectedIndexes(cpv, sel, n - 1) + (if cpv[n - 1] in sel then [n - 1] else [])
  }

  /** The saved indexes are exactly those of the listed views found in the selection, increasing. */
  lemma {:induction false} SelectedIndexesFacts(cpv: seq<ViewId>, sel: seq<ViewId>, n: nat)
    requires n <= |cpv|
    ensures var r := SelectedIndexes(cpv, sel, n);
      (forall i :: i in r <==> 0 <= i < n && cpv[i] in sel)
      && (forall a, b :: 0 <= a < b < |r| ==> r[a] < r[b])
  {
    if n > 0 {
      SelectedIndexesFacts(cpv, sel, n - 1);
      var p := SelectedIndexes(cpv, sel, n - 1);
      var r := SelectedIndexes(cpv, sel, n);
      forall a, b | 0 <= a < b < |r| ensures r[a] < r[b] {
        if b < |p| {
          assert r[a] == p[a] && r[b] == p[b];
        } else {
          assert r[a] == p[a] && p[a] in p;
        }
      }
    }
  }

  /** The index the save loop records for the current view: the last match, or 0. */
  function CurrentIndex(cpv: seq<ViewId>, cur: Option<ViewId>, n: nat): int
    requires n <= |cpv|
  {
    if n == 0 then 0 else if cur == Some(cpv[n - 1]) then n - 1 else CurrentIndex(cpv, cur, n - 1)
  }

  /** The recorded index names the current view when it is listed, and is 0 otherwise. */
  lemma {:induction false} CurrentIndexFacts(cpv: seq<ViewId>, cur: Option<ViewId>, n: nat)
    requires n <= |cpv|
    ensures var r := CurrentIndex(cpv, cur, n);
      (cur.Some? && cur.value in cpv[..n] ==> 0 <= r < n && cpv[r] == cur.value)
      && (cur.None? || cur.value !in cpv[..n] ==> r == 0)
  {
    if n > 0 {
      assert cpv[..n] == cpv[..n - 1] + [cpv[n - 1]];
      CurrentIndexFacts(cpv, cur, n - 1);
    }
  }

  /** The ids `a`, `a + 1`, ..., `a + m - 1`: the views `m` successive adds create. */
  function Fresh(a: nat, m: nat): (r: seq<ViewId>)
    ensures |r| == m && forall j :: 0 <= j < m ==> r[j] == a + j
  {
    seq(m, j requires 0 <= j < m => a + j)
  }

  /** The selection after the restore loop from index `i` on: add the view of a saved index, remove it once otherwise. */
  function Reselect(s: seq<ViewId>, cpv: seq<ViewId>, idx: seq<int>, i: nat): seq<ViewId>
    decreases |cpv| - i
  {
    if i >= |cpv| then s
    else Reselect(if i in idx then s + [cpv[i]] else RemoveFirst(s, cpv[i]), cpv, idx, i + 1)
  }

  /** The listed views from index `i` on whose index was saved as selected, in order. */
  function Picked(cpv: seq<ViewId>, idx: seq<int>, i: nat): seq<ViewId>
    decreases |cpv| - i
  {
    if i >= |cpv| then [] else (if i in idx then [cpv[i]] else []) + Picked(cpv, idx, i + 1)
  }

  /** `Picked` holds the view of each saved index once, and nothing else. */
  lemma {:induction false} PickedFacts(cpv: seq<ViewId>, idx: seq<int>, i: nat)
    requires Distinct(cpv) && i <= |cpv|
    ensures var r := Picked(cpv, idx, i);
      Distinct(r)
      && (forall x :: x in r ==> x in cpv[i..])
      && (forall j :: i <= j < |cpv| ==> (cpv[j] in r <==> j in idx))
    decreases |cpv| - i
  {
    if i < |cpv| {
      PickedFacts(cpv, idx, i + 1);
      var t := Picked(cpv, idx, i + 1);
      var h: seq<ViewId> := if i in idx then [cpv[i]] else [];
      var r := h + t;
      assert cpv[i..] == [cpv[i]] + cpv[i + 1..];
      assert cpv[i] !in t by {
        forall x | x in t ensures x != cpv[i] {
          var j :| 0 <= j < |cpv| - (i + 1) && cpv[i + 1..][j] == x;
          assert x == cpv[i + 1 + j];
        }
      }
      forall a, b | 0 <= a < b < |r| ensures r[a] != r[b] {
        if |h| == 1 && a == 0 {
          assert r[b] == t[b - 1];
        } else {
          assert r[a] == t[a - |h|] && r[b] == t[b - |h|];
        }
      }
      forall j | i <= j < |cpv| ensures cpv[j] in r <==> j in idx {
        if j > i {
          assert cpv[j] != cpv[i];
        }
      }
    }
  }

  /** With no listed view from `i` on in the selection, the loop appends exactly the picked views. */
  lemma {:induction false} ReselectFresh(s: seq<ViewId>, cpv: seq<ViewId>, idx: seq<int>, i: nat)
    requires Distinct(cpv) && i <= |cpv|
    requires forall j :: i <= j < |cpv| ==> cpv[j] !in s
    ensures Reselect(s, cpv, idx, i) == s + Picked(cpv, idx, i)
    decreases |cpv| - i
  {
    if i < |cpv| {
      var c := cpv[i];
      var t := Picked(cpv, idx, i + 1);
      if i in idx {
        assert forall j :: i + 1 <= j < |cpv| ==> cpv[j] != c;
        ReselectFresh(s + [c], cpv, idx, i + 1);
        assert (s + [c]) + t == s + ([c] + t);
      } else {
        RemoveFirstMultiset(s, c);
        ReselectFresh(s, cpv, idx, i + 1);
        assert [] + t == t;
      }
    } else {
      assert s + [] == s;
    }
  }

  /** A head entry that no later unselected index removes stays in front of everything the loop does. */
  lemma {:induction false} ReselectKeepsHead(x: ViewId, s: seq<ViewId>, cpv: seq<ViewId>, idx: seq<int>, i: nat)
    requires forall j :: i <= j < |cpv| && j !in idx ==> cpv[j] != x
    ensures Reselect([x] + s, cpv, idx, i) == [x] + Reselect(s, cpv, idx, i)
    decreases |cpv| - i
  {
    if i < |cpv| {
      var c := cpv[i];
      if i in idx {
        assert ([x] + s) + [c] == [x] + (s + [c]);
        ReselectKeepsHead(x, s + [c], cpv, idx, i + 1);
      } else {
        assert ([x] + s)[0] == x && ([x] + s)[1..] == s;
        ReselectKeepsHead(x, RemoveFirst(s, c), cpv, idx, i + 1);
      }
    }
  }

  /** Everything the restore loop leaves in the selection was there before or is listed. */
  lemma {:induction false} ReselectSubset(s: seq<ViewId>, cpv: seq<ViewId>, idx: seq<int>, i: nat)
    ensures forall x :: x in Reselect(s, cpv, idx, i) ==> x in s || x in cpv
    decreases |cpv| - i
  {
    if i < |cpv| {
      var s' := if i in idx then s + [cpv[i]] else RemoveFirst(s, cpv[i]);
      RemoveFirstSubset(s, cpv[i]);
      ReselectSubset(s', cpv, idx, i + 1);
    }
  }

  /** What the restore loop that sets the selections has done after its first `i` passes. */
  ghost predicate SelectedUpTo(i: nat, cpv: seq<ViewId>, idx: seq<int>, v0: seq<CustomPaint>, s0: seq<ViewId>,
                               vs: seq<CustomPaint>, sel: seq<ViewId>)
  {
    InRange(cpv, |v0|) && Distinct(cpv) && i <= |cpv| && |vs| == |v0|
    && Reselect(sel, cpv, idx, i) == Reselect(s0, cpv, idx, 0)
    && (forall j :: 0 <= j < i ==> vs[cpv[j]] == v0[cpv[j]].(selected := j in idx))
    && (forall k :: 0 <= k < |vs| && k !in cpv[..i] ==> vs[k] == v0[k])
  }

  /** One pass of that loop: the view at `i` is added and flagged, or removed once and unflagged. */
  method SelectPass(i: nat, cpv: seq<ViewId>, idx: seq<int>, ghost v0: seq<CustomPaint>, ghost s0: seq<ViewId>,
                    vs: seq<CustomPaint>, sel: seq<ViewId>)
    returns (vs': seq<CustomPaint>, sel': seq<ViewId>)
    requires SelectedUpTo(i, cpv, idx, v0, s0, vs, sel) && i < |cpv|
    ensures SelectedUpTo(i + 1, cpv, idx, v0, s0, vs', sel')
  {
    var v := cpv[i];
    assert cpv[..i + 1] == cpv[..i] + [v];
    assert forall j :: 0 <= j < i ==> cpv[j] != v;
    if i in idx {
      sel' := sel + [v];
      vs' := vs[v := vs[v].(selected := true)];
    } else {
      sel' := RemoveFirst(sel, v);
      vs' := vs[v := vs[v].(selected := false)];
    }
  }

  /**
   * The restore loop that sets the selections: a saved index is added to the selection
   * list and flagged, any other listed view is removed once and unflagged.
   */
  method SelectLoop(cpv: seq<ViewId>, idx: seq<int>, v0: seq<CustomPaint>, s0: seq<ViewId>)
    returns (vs: seq<CustomPaint>, sel: seq<ViewId>)
    requires InRange(cpv, |v0|) && Distinct(cpv)
    ensures sel == Reselect(s0, cpv, idx, 0)
    ensures |vs| == |v0|
    ensures forall i :: 0 <= i < |cpv| ==> vs[cpv[i]] == v0[cpv[i]].(selected := i in idx)
    ensures forall k :: 0 <= k < |vs| && k !in cpv ==> vs[k] == v0[k]
  {
    vs, sel := v0, s0;
    for i := 0 to |cpv|
      invariant SelectedUpTo(i, cpv, idx, v0, s0, vs, sel)
    {
      vs, sel := SelectPass(i, cpv, idx, v0, s0, vs, sel);
    }
    assert cpv[..|cpv|] == cpv;
  }

  /** Dropping views from the front of the list keeps the invariant. */
  lemma SuffixCoherent(views: seq<CustomPaint>, cpv: seq<ViewId>, sel: seq<ViewId>, cur: Option<ViewId>, d: nat)
    requires Coherent(views, cpv, sel, cur) && d <= |cpv|
    ensures Coherent(views, cpv[d..], sel, cur)
  {
    var t := cpv[d..];
    assert forall i :: 0 <= i < |t| ==> t[i] == cpv[d + i];
  }

  /** The loop that removes the first element of `c0` while more than `n` remain. */
  method DropFront(c0: seq<ViewId>, n: nat) returns (cpv: seq<ViewId>)
    ensures cpv == if |c0| > n then c0[|c0| - n..] else c0
  {
    cpv := c0;
    var d := 0;
    assert c0[0..] == c0;
    while |cpv| > n
      invariant 0 <= d <= |c0| && cpv == c0[d..]
      invariant |c0| > n ==> d <= |c0| - n
      invariant |c0| <= n ==> d == 0
      decreases |cpv|
    {
      var v := cpv[0];
      assert cpv[1..] == c0[d + 1..];
      cpv := RemoveFirst(cpv, v);
      d := d + 1;
    }
  }

  /** Removing every listed view once empties a selection holding at most one of them. */
  lemma {:induction false} RemoveEachEmpty(s: seq<ViewId>, ids: seq<ViewId>)
    requires s == [] || (|s| == 1 && s[0] in ids)
    ensures RemoveEach(s, ids) == []
  {
    RemoveEachMultiset(s, ids);
    if s != [] {
      assert multiset(s) == multiset{s[0]};
    }
    assert multiset(RemoveEach(s, ids)) == multiset{};
  }

    /** Adding a paint to a coherent palette with room left keeps it coherent. */
  lemma CoherentAfterAdd(views: seq<CustomPaint>, cpv: seq<ViewId>, sel: seq<ViewId>, cur: Option<ViewId>)
    requires Coherent(views, cpv, sel, cur) && |cpv| < MAX_CUSTOM_COLORS
    ensures Coherent(Deselected(views, cpv, None) + [CustomPaint(0, true)], cpv + [|views|],
                     RemoveEach(sel, cpv) + [|views|], Some(|views|))
  {
    var d := Deselected(views, cpv, None);
    RemoveEachSubset(sel, cpv);
    CoherentDeselect(views, cpv, sel, cur, d, RemoveEach(sel, cpv));
    CoherentAdd(d, cpv, RemoveEach(sel, cpv), cur, CustomPaint(0, true));
  }

/**
   * `addCustomPaintView` on a list with room, on the view records, the list and the
   * selection: the deselecting loop, then a new selected paint of colour 0 appended.
   */
  method AddPaint(v0: seq<CustomPaint>, c0: seq<ViewId>, s0: seq<ViewId>)
    returns (vs: seq<CustomPaint>, cpv: seq<ViewId>, sel: seq<ViewId>)
    requires InRange(c0, |v0|)
    ensures vs == Deselected(v0, c0, None) + [CustomPaint(0, true)]
    ensures cpv == c0 + [|v0|] && sel == RemoveEach(s0, c0) + [|v0|]
  {
    OthersNone(c0);
    vs, sel := DeselectLoop(c0, v0, s0, None);
    vs, cpv, sel := vs + [CustomPaint(0, true)], c0 + [|v0|], sel + [|v0|];
  }

  /** After an add that gives the new paint colour `colors[|listed|]`, the listed colours are kept and only the new paint is selected. */
  lemma AddedColours(before: seq<CustomPaint>, listed: seq<ViewId>, colors: seq<Color>)
    requires InRange(listed, |before|) && |listed| < |colors|
    requires forall j :: 0 <= j < |listed| ==> before[listed[j]].color == colors[j]
    ensures var vs, cpv := Deselected(before, listed, None) + [CustomPaint(colors[|listed|], true)], listed + [|before|];
      forall j :: 0 <= j <= |listed| ==> vs[cpv[j]].color == colors[j] && (vs[cpv[j]].selected <==> j == |listed|)
  {
    DeselectedFacts(before, listed, None);
    var vs, cpv := Deselected(before, listed, None) + [CustomPaint(colors[|listed|], true)], listed + [|before|];
    forall j | 0 <= j < |listed| ensures vs[cpv[j]].color == colors[j] && !vs[cpv[j]].selected {
      assert cpv[j] == listed[j] && listed[j] in listed;
    }
  }

  /**
   * What the second restore loop has done after its first `i` passes, started from
   * the records `v0`, the list `c0` and the current paint `cur0` on a cleared selection.
   */
  ghost predicate RestoredUpTo(i: nat, v0: seq<CustomPaint>, c0: seq<ViewId>, cur0: Option<ViewId>, colors: seq<Color>, ci: int,
                               vs: seq<CustomPaint>, cpv: seq<ViewId>, sel: seq<ViewId>, cur: Option<ViewId>)
  {
    var k0 := |c0|;
    InRange(c0, |v0|) && Distinct(c0) && k0 <= |colors| && i <= |colors|
    && |cpv| == (if i > k0 then i else k0) && |vs| == |v0| + (|cpv| - k0)
    && (forall j :: 0 <= j < k0 ==> cpv[j] == c0[j])
    && (forall j :: k0 <= j < |cpv| ==> cpv[j] == |v0| + (j - k0))
    && (forall j :: 0 <= j < i ==> vs[cpv[j]].color == colors[j])
    && (forall k :: 0 <= k < |v0| && k !in c0 ==> vs[k] == v0[k])
    && sel == (if i > k0 then [cpv[i - 1]] else [])
    && cur == (if i > k0 then Some(cpv[i - 1]) else if 0 <= ci < i then Some(cpv[ci]) else cur0)
    && (i > k0 ==> forall j :: 0 <= j < i ==> (vs[cpv[j]].selected <==> j == i - 1))
    && (i <= k0 ==> forall k :: 0 <= k < |vs| ==> vs[k].selected == v0[k].selected)
  }

  /** A pass of the second restore loop inside the list: the paint at `i` is recoloured, and made current if `ci` is `i`. */
  method RecolorPass(i: nat, ghost v0: seq<CustomPaint>, ghost c0: seq<ViewId>, ghost cur0: Option<ViewId>, colors: seq<Color>, ci: int,
                     vs: seq<CustomPaint>, cpv: seq<ViewId>, sel: seq<ViewId>, cur: Option<ViewId>)
    returns (vs': seq<CustomPaint>, cur': Option<ViewId>)
    requires RestoredUpTo(i, v0, c0, cur0, colors, ci, vs, cpv, sel, cur) && i < |colors| && i < |cpv|
    ensures RestoredUpTo(i + 1, v0, c0, cur0, colors, ci, vs', cpv, sel, cur')
  {
    var v := cpv[i];
    vs', cur' := vs[v := vs[v].(color := colors[i])], cur;
    forall j | 0 <= j <= i ensures vs'[cpv[j]].color == colors[j] {
      if j < i {
        assert cpv[j] == c0[j] && c0[i] == v;
      }
    }
    if ci == i {
      cur' := Some(v);
    }
  }

  /** A pass of the second restore loop past the end of the list: a paint is added and receives the colour. */
  method AddPass(i: nat, ghost v0: seq<CustomPaint>, ghost c0: seq<ViewId>, ghost cur0: Option<ViewId>, colors: seq<Color>, ci: int,
                 vs: seq<CustomPaint>, cpv: seq<ViewId>, sel: seq<ViewId>, cur: Option<ViewId>)
    returns (vs': seq<CustomPaint>, cpv': seq<ViewId>, sel': seq<ViewId>, cur': Option<ViewId>)
    requires RestoredUpTo(i, v0, c0, cur0, colors, ci, vs, cpv, sel, cur) && i < |colors| && i >= |cpv|
    ensures RestoredUpTo(i + 1, v0, c0, cur0, colors, ci, vs', cpv', sel', cur')
  {
    var n := |vs|;
    RemoveEachEmpty(sel, cpv);
    InRangeListed(v0, c0, vs, cpv);
    vs', cpv', sel' := AddPaint(vs, cpv, sel);
    vs' := vs'[n := vs'[n].(color := colors[i])];
    ghost var d := Deselected(vs, cpv, None);
    assert vs' == d + [CustomPaint(colors[i], true)];
    AddedColours(vs, cpv, colors);
    forall k | 0 <= k < |v0| && k !in c0 ensures vs'[k] == v0[k] {
      assert k !in cpv by {
        forall j | 0 <= j < |cpv| ensures cpv[j] != k {
          if j < |c0| {
            assert cpv[j] == c0[j] && c0[j] in c0;
          }
        }
      }
      DeselectedFacts(vs, cpv, None);
    }
    cur' := Some(n);
  }

  /** The list the second restore loop builds refers to existing records only. */
  lemma InRangeListed(v0: seq<CustomPaint>, c0: seq<ViewId>, vs: seq<CustomPaint>, cpv: seq<ViewId>)
    requires InRange(c0, |v0|) && |c0| <= |cpv| && |vs| == |v0| + (|cpv| - |c0|)
    requires forall j :: 0 <= j < |c0| ==> cpv[j] == c0[j]
    requires forall j :: |c0| <= j < |cpv| ==> cpv[j] == |v0| + (j - |c0|)
    ensures InRange(cpv, |vs|)
  {
    forall j | 0 <= j < |cpv| ensures cpv[j] < |vs| {
      if j < |c0| {
        assert cpv[j] == c0[j];
      }
    }
  }

  /**
   * The second restore loop, started on a cleared selection: the first `|colors|`
   * paints receive the saved colours, paints being added past the end of the list;
   * the paint at index `ci` becomes current, but every add makes its own paint current.
   */
  method RestoreColors(v0: seq<CustomPaint>, c0: seq<ViewId>, cur0: Option<ViewId>, colors: seq<Color>, ci: int)
    returns (vs: seq<CustomPaint>, cpv: seq<ViewId>, sel: seq<ViewId>, cur: Option<ViewId>)
    requires InRange(c0, |v0|) && Distinct(c0) && |c0| <= |colors|
    ensures var k0, n := |c0|, |colors|;
      cpv == c0 + Fresh(|v0|, n - k0) && |vs| == |v0| + (n - k0)
      && (forall j :: 0 <= j < n ==> vs[cpv[j]].color == colors[j])
      && (forall k :: 0 <= k < |v0| && k !in c0 ==> vs[k] == v0[k])
      && sel == (if k0 < n then [cpv[n - 1]] else [])
      && cur == (if k0 < n then Some(cpv[n - 1]) else if 0 <= ci < n then Some(cpv[ci]) else cur0)
      && (k0 < n ==> forall j :: 0 <= j < n ==> (vs[cpv[j]].selected <==> j == n - 1))
      && (k0 == n ==> forall k :: 0 <= k < |vs| ==> vs[k].selected == v0[k].selected)
  {
    vs, cpv, sel, cur := v0, c0, [], cur0;
    for i := 0 to |colors|
      invariant RestoredUpTo(i, v0, c0, cur0, colors, ci, vs, cpv, sel, cur)
    {
      if i < |cpv| {
        vs, cur := RecolorPass(i, v0, c0, cur0, colors, ci, vs, cpv, sel, cur);
      } else {
        vs, cpv, sel, cur := AddPass(i, v0, c0, cur0, colors, ci, vs, cpv, sel, cur);
      }
    }
    assert cpv == c0 + Fresh(|v0|, |colors| - |c0|);
  }

  /** The list the first restore loop leaves: the last `n` listed views. */
  function Trimmed(c0: seq<ViewId>, n: nat): (r: seq<ViewId>)
    ensures |r| == if |c0| > n then n else |c0|
    ensures forall j :: 0 <= j < |r| ==> r[j] == c0[|c0| - |r| + j]
  {
    if |c0| > n then c0[|c0| - n..] else c0
  }

  /** Appending freshly created views to a list of existing distinct views keeps it distinct and in range. */
  lemma FreshExtends(c0: seq<ViewId>, a: nat, m: nat)
    requires InRange(c0, a) && Distinct(c0)
    ensures InRange(c0 + Fresh(a, m), a + m) && Distinct(c0 + Fresh(a, m))
  {
    var t := c0 + Fresh(a, m);
    forall i, j | 0 <= i < j < |t| ensures t[i] != t[j] {
      if j < |c0| {
        assert t[i] == c0[i] && t[j] == c0[j];
      } else if i < |c0| {
        assert t[i] == c0[i] < a;
      }
    }
  }

  /** With only index `t` saved as selected, the picked views are the view at `t` alone. */
  lemma {:induction false} PickedSingle(cpv: seq<ViewId>, t: nat, i: nat)
    requires i <= t < |cpv|
    ensures Picked(cpv, [t], i) == [cpv[t]]
    decreases |cpv| - i
  {
    if i < t {
      PickedSingle(cpv, t, i + 1);
      assert [] + [cpv[t]] == [cpv[t]];
    } else {
      PickedNone(cpv, [t], i + 1);
      assert [cpv[t]] + [] == [cpv[t]];
    }
  }

  /** No saved index from `i` on means nothing is picked. */
  lemma {:induction false} PickedNone(cpv: seq<ViewId>, idx: seq<int>, i: nat)
    requires forall j :: j in idx ==> j < i
    ensures Picked(cpv, idx, i) == []
    decreases |cpv| - i
  {
    if i < |cpv| {
      PickedNone(cpv, idx, i + 1);
    }
  }

  /**
   * When restore has added paints, the last one `l` is still in the selection as the
   * third loop starts; if its index was saved as selected, the loop appends it again,
   * so the selection begins with `l` and holds it a second time further on.
   */
  lemma RestoreRepeatsLastAdded(c0: seq<ViewId>, a: nat, m: nat, idx: seq<int>)
    requires InRange(c0, a) && Distinct(c0) && m > 0
    requires |c0| + m - 1 in idx
    ensures var cpv := c0 + Fresh(a, m); var l := cpv[|cpv| - 1];
      var sel := Reselect([l], cpv, idx, 0);
      |sel| >= 2 && sel[0] == l && l in sel[1..]
  {
    var cpv := c0 + Fresh(a, m);
    var l := cpv[|cpv| - 1];
    FreshExtends(c0, a, m);
    forall j | 0 <= j < |cpv| && j !in idx ensures cpv[j] != l {
      assert j != |cpv| - 1;
    }
    ReselectKeepsHead(l, [], cpv, idx, 0);
    ReselectFresh([], cpv, idx, 0);
    PickedFacts(cpv, idx, 0);
    assert [l] + [] == [l] && [] + Picked(cpv, idx, 0) == Picked(cpv, idx, 0);
    assert ([l] + Picked(cpv, idx, 0))[1..] == Picked(cpv, idx, 0);
  }

  /** A palette restored with only its last, freshly added paint selected holds that paint twice. */
  lemma SingleSavedSelectionDoubled(c0: seq<ViewId>, a: nat, m: nat)
    requires InRange(c0, a) && Distinct(c0) && m > 0
    ensures var cpv := c0 + Fresh(a, m); var l := cpv[|cpv| - 1];
      Reselect([l], cpv, [|cpv| - 1], 0) == [l, l]
  {
    var cpv := c0 + Fresh(a, m);
    var l := cpv[|cpv| - 1];
    FreshExtends(c0, a, m);
    ReselectKeepsHead(l, [], cpv, [|cpv| - 1], 0);
    ReselectFresh([], cpv, [|cpv| - 1], 0);
    PickedSingle(cpv, |cpv| - 1, 0);
    assert [l] + ([] + [l]) == [l, l];
  }

  /** Mixing a mid grey with itself gives a near black, while the grey alone mixes to itself. */
  lemma DoubledGreyMix()
    ensures Mix([0xFF80_8080]) == 0xFF80_8080
    ensures Mix([0xFF80_8080, 0xFF80_8080]) == 0xFF01_0101
  {
    var g: Color := 0xFF80_8080;
    RgbChannels(128, 128, 128);
    assert Rgb(128, 128, 128) == g;
    MixSingle(g);
    var x := 127.0 / 255.0;
    var k := FromRgb(g);
    assert k == Cmy(x, x, x);
    assert Components([g, g]) == [k] + [k];
    SumCmyConcat([k], [k]);
    SumCmySingle(k);
    var y := 254.0 / 255.0;
    assert SumCmy(Components([g, g])) == Cmy(y, y, y);
    assert Clamp(y) == y;
    assert Channel(y) == 1 by {
      assert (1.0 - y) * 255.0 == 1.0;
    }
    assert ToRgb(y, y, y) == Rgb(1, 1, 1);
  }

  /**
   * What a restore from `s` leaves of the paints, starting from the records `v0`,
   * the list `c0` and the current paint `cur0`: the trimmed list followed by the
   * paints added for the remaining colours; each listed paint has its saved colour
   * and is selected exactly when its index was saved as selected; every other
   * earlier record is unchanged; and the current paint is the last added one when
   * paints were added, otherwise the paint at the saved index when it is in range,
   * otherwise the old current paint.
   */
  ghost predicate Restored(v0: seq<CustomPaint>, c0: seq<ViewId>, cur0: Option<ViewId>, s: SavedPalette,
                           vs: seq<CustomPaint>, cpv: seq<ViewId>, cur: Option<ViewId>)
  {
    var t, n := Trimmed(c0, |s.customColors|), |s.customColors|;
    cpv == t + Fresh(|v0|, n - |t|) && |vs| == |v0| + (n - |t|)
    && InRange(cpv, |vs|)
    && ColorsOf(vs, cpv) == s.customColors
    && (forall i :: 0 <= i < n ==> (vs[cpv[i]].selected <==> i in s.selectedIndexes))
    && (forall k :: 0 <= k < |v0| && k !in cpv ==> vs[k] == v0[k])
    && cur == (if |t| < n then Some(cpv[n - 1])
               else if 0 <= s.currentIndex < n then Some(cpv[s.currentIndex])
               else cur0)
  }

  /** Started on an empty selection, the third restore loop selects each picked view exactly once. */
  lemma FreshSelection(cpv: seq<ViewId>, idx: seq<int>)
    requires Distinct(cpv)
    ensures var r := Reselect([], cpv, idx, 0);
      r == Picked(cpv, idx, 0) && Distinct(r)
      && (forall i :: 0 <= i < |cpv| ==> (cpv[i] in r <==> i in idx))
      && (forall x :: x in r ==> x in cpv)
  {
    ReselectFresh([], cpv, idx, 0);
    PickedFacts(cpv, idx, 0);
    assert [] + Picked(cpv, idx, 0) == Picked(cpv, idx, 0);
    assert cpv[0..] == cpv;
  }

  /**
   * After the second restore loop has left the records `v1` and the third has changed
   * only the flags of the listed paints, to those the saved indexes give, the palette
   * is restored as `Restored` says.
   */
  lemma RestoredBySelection(v0: seq<CustomPaint>, c0: seq<ViewId>, cur0: Option<ViewId>, s: SavedPalette,
                            v1: seq<CustomPaint>, vs: seq<CustomPaint>, cpv: seq<ViewId>, cur: Option<ViewId>)
    requires var t, n := Trimmed(c0, |s.customColors|), |s.customColors|;
      cpv == t + Fresh(|v0|, n - |t|) && |v1| == |v0| + (n - |t|) && InRange(cpv, |v1|)
      && ColorsOf(v1, cpv) == s.customColors
      && (forall k :: 0 <= k < |v0| && k !in cpv ==> v1[k] == v0[k])
      && cur == (if |t| < n then Some(cpv[n - 1])
                 else if 0 <= s.currentIndex < n then Some(cpv[s.currentIndex])
                 else cur0)
    requires |vs| == |v1|
    requires forall i :: 0 <= i < |cpv| ==> vs[cpv[i]] == v1[cpv[i]].(selected := i in s.selectedIndexes)
    requires forall k :: 0 <= k < |vs| && k !in cpv ==> vs[k] == v1[k]
    ensures Restored(v0, c0, cur0, s, vs, cpv, cur)
  {
    assert forall i :: 0 <= i < |cpv| ==> vs[cpv[i]].color == v1[cpv[i]].color;
  }

  /** The state of the palette of custom paints and of the mix button it drives. */
  class PaletteView {
    /** Every CustomPaintView ever created, indexed by identity, with its colour and selected flag. */
    var views: seq<CustomPaint>
    var customPaintViews: seq<ViewId>
    var selectedCustomPaintViews: seq<ViewId>
    var currentCustomPaintView: Option<ViewId>
    var inMixMode: bool
    var paletteVisible: bool
    /** `mixButtonView.setActive` and `mixButtonView.setClickable`. */
    var mixButtonActive: bool
    var mixButtonClickable: bool

    ghost predicate Valid()
      reads this
    {
      Coherent(views, customPaintViews, selectedCustomPaintViews, currentCustomPaintView)
    }

    /** A new palette is visible, outside mix mode, with no custom paints. */
    constructor ()
      ensures Valid()
      ensures views == [] && customPaintViews == [] && selectedCustomPaintViews == []
      ensures currentCustomPaintView == None && !inMixMode && paletteVisible
      ensures !mixButtonActive && mixButtonClickable
    {
      views := [];
      customPaintViews, selectedCustomPaintViews := [], [];
      currentCustomPaintView := None;
      inMixMode, paletteVisible := false, true;
      mixButtonActive, mixButtonClickable := false, true;
    }

    /**
     * The loop over `customPaintViews` that deselects every view but `keep` and
     * removes each of them once from the selection list.
     */
    method DeselectOthers(keep: Option<ViewId>)
      requires Valid()
      modifies this
      ensures Valid()
      ensures views == Deselected(old(views), customPaintViews, keep)
      ensures selectedCustomPaintViews == RemoveEach(old(selectedCustomPaintViews), Others(customPaintViews, keep))
      ensures customPaintViews == old(customPaintViews)
      ensures currentCustomPaintView == old(currentCustomPaintView) && inMixMode == old(inMixMode)
      ensures paletteVisible == old(paletteVisible)
      ensures mixButtonActive == old(mixButtonActive) && mixButtonClickable == old(mixButtonClickable)
    {
      DeselectedFacts(views, customPaintViews, keep);
      RemoveEachSubset(selectedCustomPaintViews, Others(customPaintViews, keep));
      InRangeSubset(RemoveEach(selectedCustomPaintViews, Others(customPaintViews, keep)), selectedCustomPaintViews, |views|);
      views, selectedCustomPaintViews := DeselectLoop(customPaintViews, views, selectedCustomPaintViews, keep);
    }

    /**
     * `addCustomPaintView`: with the list full it returns null and changes nothing.
     * Otherwise every listed paint is deselected and removed once from the selection,
     * and a new paint of colour 0 is appended to both lists, selected and current.
     */
    method AddCustomPaintView() returns (v: Option<ViewId>)
      requires Valid()
      modifies this
      ensures Valid()
      ensures old(|customPaintViews|) == MAX_CUSTOM_COLORS ==> v == None && unchanged(this)
      ensures old(|customPaintViews|) < MAX_CUSTOM_COLORS ==>
        var n := old(|views|);
        v == Some(n)
        && customPaintViews == old(customPaintViews) + [n]
        && selectedCustomPaintViews == RemoveEach(old(selectedCustomPaintViews), old(customPaintViews)) + [n]
        && views == Deselected(old(views), old(customPaintViews), None) + [CustomPaint(0, true)]
        && currentCustomPaintView == v
        && inMixMode == old(inMixMode) && paletteVisible == old(paletteVisible)
        && mixButtonActive == old(mixButtonActive) && mixButtonClickable == old(mixButtonClickable)
      ensures v.Some? ==> forall k :: k in customPaintViews ==> (views[k].selected <==> Some(k) == v)
    {
      if |customPaintViews| == MAX_CUSTOM_COLORS {
        return None;
      }
      var n := |views|;
      OnlyNewSelected(views, customPaintViews);
      CoherentAfterAdd(views, customPaintViews, selectedCustomPaintViews, currentCustomPaintView);
      views, customPaintViews, selectedCustomPaintViews := AddPaint(views, customPaintViews, selectedCustomPaintViews);
      currentCustomPaintView := Some(n);
      v := Some(n);
    }

    /**
     * The click listener of a listed view. In mix mode the current view stays
     * selected and nothing else changes; any other view has its flag toggled and is
     * appended to, or removed once from, the selection, and the listener receives the
     * mix of the selection. Outside mix mode the clicked view becomes current and the
     * only selected view of the list, is appended to the selection, and the listener
     * receives its colour. The result is what the listener receives, if anything.
     */
    method OnCustomPaintClick(cview: ViewId) returns (notified: Option<Color>)
      requires Valid() && cview in customPaintViews
      modifies this
      ensures Valid()
      ensures customPaintViews == old(customPaintViews) && inMixMode == old(inMixMode)
      ensures paletteVisible == old(paletteVisible)
      ensures mixButtonActive == old(mixButtonActive) && mixButtonClickable == old(mixButtonClickable)
      ensures |views| == old(|views|) && views[cview].color == old(views[cview].color)
      ensures old(inMixMode) && old(currentCustomPaintView) == Some(cview) ==>
        views == old(views)[cview := old(views[cview]).(selected := true)]
        && selectedCustomPaintViews == old(selectedCustomPaintViews)
        && currentCustomPaintView == old(currentCustomPaintView) && notified == None
      ensures old(inMixMode) && old(currentCustomPaintView) != Some(cview) ==>
        var now := !old(views[cview].selected);
        views == old(views)[cview := old(views[cview]).(selected := now)]
        && selectedCustomPaintViews == (if now then old(selectedCustomPaintViews) + [cview] else RemoveFirst(old(selectedCustomPaintViews), cview))
        && currentCustomPaintView == old(currentCustomPaintView)
        && notified == Some(Mix(ColorsOf(views, selectedCustomPaintViews)))
      ensures !old(inMixMode) ==>
        views == Deselected(old(views), customPaintViews, Some(cview))[cview := old(views[cview]).(selected := true)]
        && selectedCustomPaintViews == RemoveEach(old(selectedCustomPaintViews), Others(customPaintViews, Some(cview))) + [cview]
        && currentCustomPaintView == Some(cview)
        && notified == Some(old(views[cview].color))
        && forall k :: k in customPaintViews ==> (views[k].selected <==> k == cview)
    {
      assert cview < |views|;
      if inMixMode {
        notified := ToggleInMix(cview);
      } else {
        SelectOnly(cview);
        notified := Some(views[cview].color);
      }
    }

    /** The mix-mode branch of the click listener. */
    method ToggleInMix(cview: ViewId) returns (notified: Option<Color>)
      requires Valid() && cview in customPaintViews && inMixMode
      modifies this
      ensures Valid()
      ensures customPaintViews == old(customPaintViews) && inMixMode == old(inMixMode)
      ensures paletteVisible == old(paletteVisible)
      ensures mixButtonActive == old(mixButtonActive) && mixButtonClickable == old(mixButtonClickable)
      ensures currentCustomPaintView == old(currentCustomPaintView)
      ensures old(currentCustomPaintView) == Some(cview) ==>
        views == old(views)[cview := old(views[cview]).(selected := true)]
        && selectedCustomPaintViews == old(selectedCustomPaintViews) && notified == None
      ensures old(currentCustomPaintView) != Some(cview) ==>
        var now := !old(views[cview].selected);
        views == old(views)[cview := old(views[cview]).(selected := now)]
        && selectedCustomPaintViews == (if now then old(selectedCustomPaintViews) + [cview] else RemoveFirst(old(selectedCustomPaintViews), cview))
        && notified == Some(Mix(ColorsOf(views, selectedCustomPaintViews)))
    {
      assert cview < |views|;
      views := views[cview := views[cview].(selected := !views[cview].selected)];
      if currentCustomPaintView == Some(cview) {
        views := views[cview := views[cview].(selected := true)];
        return None;
      }
      if views[cview].selected {
        views := views[cview := views[cview].(selected := true)];
        selectedCustomPaintViews := selectedCustomPaintViews + [cview];
      } else {
        views := views[cview := views[cview].(selected := false)];
        RemoveFirstSubset(selectedCustomPaintViews, cview);
        InRangeSubset(RemoveFirst(selectedCustomPaintViews, cview), selectedCustomPaintViews, |views|);
        selectedCustomPaintViews := RemoveFirst(selectedCustomPaintViews, cview);
      }
      var mixed := MixColors(views, selectedCustomPaintViews);
      return Some(mixed);
    }

    /** The branch of the click listener outside mix mode. */
    method SelectOnly(cview: ViewId)
      requires Valid() && cview in customPaintViews
      modifies this
      ensures Valid()
      ensures customPaintViews == old(customPaintViews) && inMixMode == old(inMixMode)
      ensures paletteVisible == old(paletteVisible)
      ensures mixButtonActive == old(mixButtonActive) && mixButtonClickable == old(mixButtonClickable)
      ensures views == Deselected(old(views), customPaintViews, Some(cview))[cview := old(views[cview]).(selected := true)]
      ensures selectedCustomPaintViews == RemoveEach(old(selectedCustomPaintViews), Others(customPaintViews, Some(cview))) + [cview]
      ensures currentCustomPaintView == Some(cview)
      ensures forall k :: k in customPaintViews ==> (views[k].selected <==> k == cview)
    {
      assert cview < |views|;
      var v0 := views;
      views := views[cview := views[cview].(selected := !views[cview].selected)];
      currentCustomPaintView := Some(cview);
      var toggled := views;
      DeselectOthers(Some(cview));
      DeselectedKeep(v0, customPaintViews, cview, toggled[cview]);
      views := views[cview := views[cview].(selected := true)];
      OnlyClickedSelected(v0, customPaintViews, cview);
      selectedCustomPaintViews := selectedCustomPaintViews + [cview];
    }

    /**
     * `setInMixMode`: sets the mode and the mix button. Leaving mix mode with more
     * than one selection entry mixes the selection, adds a paint if there is room
     * (it becomes current), gives the current paint the mixed colour and deselects
     * every other listed paint, removing each once from the selection.
     */
    method SetInMixMode(m: bool)
      requires Valid()
      modifies this
      ensures Valid()
      ensures inMixMode == m && mixButtonActive == m
      ensures paletteVisible == old(paletteVisible) && mixButtonClickable == old(mixButtonClickable)
      ensures !(!m && old(|selectedCustomPaintViews|) > 1) ==>
        views == old(views) && customPaintViews == old(customPaintViews)
        && selectedCustomPaintViews == old(selectedCustomPaintViews) && currentCustomPaintView == old(currentCustomPaintView)
      ensures !m && old(|selectedCustomPaintViews|) > 1 && old(|customPaintViews|) < MAX_CUSTOM_COLORS ==>
        var n, mixed := old(|views|), Mix(ColorsOf(old(views), old(selectedCustomPaintViews)));
        customPaintViews == old(customPaintViews) + [n] && currentCustomPaintView == Some(n)
        && views == Deselected(Deselected(old(views), old(customPaintViews), None) + [CustomPaint(mixed, true)], customPaintViews, Some(n))
        && selectedCustomPaintViews == RemoveEach(RemoveEach(old(selectedCustomPaintViews), old(customPaintViews)) + [n], Others(customPaintViews, Some(n)))
      ensures !m && old(|selectedCustomPaintViews|) > 1 && old(|customPaintViews|) == MAX_CUSTOM_COLORS ==>
        var c, mixed := old(currentCustomPaintView).value, Mix(ColorsOf(old(views), old(selectedCustomPaintViews)));
        customPaintViews == old(customPaintViews) && currentCustomPaintView == old(currentCustomPaintView)
        && views == Deselected(old(views)[c := old(views[c]).(color := mixed)], customPaintViews, Some(c))
        && selectedCustomPaintViews == RemoveEach(old(selectedCustomPaintViews), Others(customPaintViews, Some(c)))
      ensures !m && old(|selectedCustomPaintViews|) > 1 ==>
        currentCustomPaintView.Some?
        && views[currentCustomPaintView.value].color == Mix(ColorsOf(old(views), old(selectedCustomPaintViews)))
        && forall k :: k in customPaintViews && Some(k) != currentCustomPaintView ==> !views[k].selected
    {
      inMixMode, mixButtonActive := m, m;
      if !m && |selectedCustomPaintViews| > 1 {
        var mixed := MixColors(views, selectedCustomPaintViews);
        if |customPaintViews| < MAX_CUSTOM_COLORS {
          MixIntoNewPaint(mixed);
        } else {
          PaintCurrent(mixed);
        }
      }
    }

    /**
     * `setInMixMode` when the list has room: the added paint becomes current and
     * receives the colour, and every other listed paint is deselected.
     */
    method MixIntoNewPaint(mixed: Color)
      requires Valid() && |customPaintViews| < MAX_CUSTOM_COLORS
      modifies this
      ensures Valid()
      ensures var n := old(|views|);
        customPaintViews == old(customPaintViews) + [n] && currentCustomPaintView == Some(n)
        && views == Deselected(Deselected(old(views), old(customPaintViews), None) + [CustomPaint(mixed, true)], customPaintViews, Some(n))
        && selectedCustomPaintViews == RemoveEach(RemoveEach(old(selectedCustomPaintViews), old(customPaintViews)) + [n], Others(customPaintViews, Some(n)))
      ensures views[currentCustomPaintView.value].color == mixed
      ensures forall k :: k in customPaintViews && Some(k) != currentCustomPaintView ==> !views[k].selected
      ensures inMixMode == old(inMixMode) && paletteVisible == old(paletteVisible)
      ensures mixButtonActive == old(mixButtonActive) && mixButtonClickable == old(mixButtonClickable)
    {
      var v := AddCustomPaintView();
      currentCustomPaintView := v;
      ghost var d := Deselected(old(views), old(customPaintViews), None);
      assert (d + [CustomPaint(0, true)])[|d| := CustomPaint(mixed, true)] == d + [CustomPaint(mixed, true)];
      PaintCurrent(mixed);
    }

    /**
     * The end of `setInMixMode`: the current paint receives the colour and every
     * other listed paint is deselected and removed once from the selection.
     */
    method PaintCurrent(mixed: Color)
      requires Valid() && currentCustomPaintView.Some?
      modifies this
      ensures Valid()
      ensures var c := old(currentCustomPaintView).value;
        views == Deselected(old(views)[c := old(views[c]).(color := mixed)], customPaintViews, Some(c))
        && selectedCustomPaintViews == RemoveEach(old(selectedCustomPaintViews), Others(customPaintViews, Some(c)))
      ensures customPaintViews == old(customPaintViews) && currentCustomPaintView == old(currentCustomPaintView)
      ensures views[currentCustomPaintView.value].color == mixed
      ensures forall k :: k in customPaintViews && Some(k) != currentCustomPaintView ==> !views[k].selected
      ensures inMixMode == old(inMixMode) && paletteVisible == old(paletteVisible)
      ensures mixButtonActive == old(mixButtonActive) && mixButtonClickable == old(mixButtonClickable)
    {
      var c := currentCustomPaintView.value;
      views := views[c := views[c].(color := mixed)];
      DeselectedFacts(views, customPaintViews, currentCustomPaintView);
      DeselectOthers(currentCustomPaintView);
    }

    /**
     * `mySaveInstanceState`: the colour of every listed paint in order, the indexes
     * of the listed paints found in the selection list, and the index of the current
     * paint (0 when it is not listed).
     */
    method MySaveInstanceState() returns (s: SavedPalette)
      requires Valid()
      ensures s.paletteVisible == paletteVisible && s.inMixMode == inMixMode
      ensures s.customColors == ColorsOf(views, customPaintViews)
      ensures s.selectedIndexes == SelectedIndexes(customPaintViews, selectedCustomPaintViews, |customPaintViews|)
      ensures s.currentIndex == CurrentIndex(customPaintViews, currentCustomPaintView, |customPaintViews|)
      ensures |s.customColors| <= MAX_CUSTOM_COLORS
      ensures forall i :: i in s.selectedIndexes <==> 0 <= i < |customPaintViews| && customPaintViews[i] in selectedCustomPaintViews
      ensures currentCustomPaintView.Some? && currentCustomPaintView.value in customPaintViews ==>
        0 <= s.currentIndex < |customPaintViews| && customPaintViews[s.currentIndex] == currentCustomPaintView.value
    {
      var colors: seq<Color> := [];
      var idx: seq<int> := [];
      var current := 0;
      for i := 0 to |customPaintViews|
        invariant colors == ColorsOf(views, customPaintViews[..i])
        invariant idx == SelectedIndexes(customPaintViews, selectedCustomPaintViews, i)
        invariant current == CurrentIndex(customPaintViews, currentCustomPaintView, i)
      {
        var v := customPaintViews[i];
        assert customPaintViews[..i + 1] == customPaintViews[..i] + [v];
        colors := colors + [views[v].color];
        if v in selectedCustomPaintViews {
          idx := idx + [i];
        }
        if currentCustomPaintView == Some(v) {
          current := i;
        }
      }
      assert customPaintViews[..|customPaintViews|] == customPaintViews;
      SelectedIndexesFacts(customPaintViews, selectedCustomPaintViews, |customPaintViews|);
      CurrentIndexFacts(customPaintViews, currentCustomPaintView, |customPaintViews|);
      s := SavedPalette(paletteVisible, inMixMode, colors, idx, current);
    }

    /** The first restore loop: drops the first listed paint until at most `n` remain. */
    method TrimViews(n: nat)
      requires Valid()
      modifies this
      ensures Valid()
      ensures customPaintViews == if old(|customPaintViews|) > n then old(customPaintViews)[old(|customPaintViews|) - n..] else old(customPaintViews)
      ensures views == old(views) && selectedCustomPaintViews == old(selectedCustomPaintViews)
      ensures currentCustomPaintView == old(currentCustomPaintView) && inMixMode == old(inMixMode)
      ensures paletteVisible == old(paletteVisible)
      ensures mixButtonActive == old(mixButtonActive) && mixButtonClickable == old(mixButtonClickable)
    {
      var c0 := customPaintViews;
      var cpv := DropFront(c0, n);
      SuffixCoherent(views, c0, selectedCustomPaintViews, currentCustomPaintView, |c0| - |cpv|);
      customPaintViews := cpv;
    }

    /**
     * `removeCustomPaintView`: removes the view from the list only outside mix mode,
     * when it is not the current view and more than two paints are listed; the
     * selection list and the view records are left alone.
     */
    method RemoveCustomPaintView(v: ViewId) returns (removed: bool)
      requires Valid()
      modifies this
      ensures Valid()
      ensures removed <==> !old(inMixMode) && old(currentCustomPaintView) != Some(v) && old(|customPaintViews|) > MIN_CUSTOM_COLORS
      ensures customPaintViews == if removed then RemoveFirst(old(customPaintViews), v) else old(customPaintViews)
      ensures removed ==> |customPaintViews| >= MIN_CUSTOM_COLORS && v !in customPaintViews
      ensures views == old(views)
      ensures selectedCustomPaintViews == old(selectedCustomPaintViews) && currentCustomPaintView == old(currentCustomPaintView)
      ensures inMixMode == old(inMixMode) && paletteVisible == old(paletteVisible)
      ensures mixButtonActive == old(mixButtonActive) && mixButtonClickable == old(mixButtonClickable)
    {
      if !inMixMode && currentCustomPaintView != Some(v) && |customPaintViews| > MIN_CUSTOM_COLORS {
        RemoveFirstDistinct(customPaintViews, v);
        RemoveFirstSubset(customPaintViews, v);
        RemoveFirstGone(customPaintViews, v);
        InRangeSubset(RemoveFirst(customPaintViews, v), customPaintViews, |views|);
        customPaintViews := RemoveFirst(customPaintViews, v);
        return true;
      }
      return false;
    }

    /** `togglePaletteVisible`: flips visibility; the mix button is clickable exactly when visible. */
    method TogglePaletteVisible()
      requires Valid()
      modifies this
      ensures Valid()
      ensures paletteVisible == !old(paletteVisible) && mixButtonClickable == paletteVisible
      ensures views == old(views) && customPaintViews == old(customPaintViews)
      ensures selectedCustomPaintViews == old(selectedCustomPaintViews) && currentCustomPaintView == old(currentCustomPaintView)
      ensures inMixMode == old(inMixMode) && mixButtonActive == old(mixButtonActive)
    {
      if paletteVisible {
        paletteVisible, mixButtonClickable := false, false;
      } else {
        paletteVisible, mixButtonClickable := true, true;
      }
    }

    /**
     * The part of `myRestoreInstanceState` before the paints are recoloured: the
     * flags are restored (the mix button is only made unclickable, and only when
     * the palette is hidden), the first listed paints are dropped until no more
     * than `n` remain, and the selection is cleared.
     */
    method BeginRestore(visible: bool, mixMode: bool, n: nat)
      requires Valid()
      modifies this
      ensures Valid()
      ensures paletteVisible == visible && inMixMode == mixMode
      ensures mixButtonActive == old(mixButtonActive)
      ensures mixButtonClickable == (visible && old(mixButtonClickable))
      ensures customPaintViews == Trimmed(old(customPaintViews), n)
      ensures views == old(views) && selectedCustomPaintViews == []
      ensures currentCustomPaintView == old(currentCustomPaintView)
    {
      paletteVisible, inMixMode := visible, mixMode;
      if !paletteVisible {
        mixButtonClickable := false;
      }
      TrimViews(n);
      ClearSelection();
    }

    /** `selectedCustomPaintViews.clear()`: empties the selection list and changes nothing else. */
    method ClearSelection()
      requires Valid()
      modifies this
      ensures Valid()
      ensures selectedCustomPaintViews == []
      ensures views == old(views) && customPaintViews == old(customPaintViews)
      ensures currentCustomPaintView == old(currentCustomPaintView) && inMixMode == old(inMixMode)
      ensures paletteVisible == old(paletteVisible)
      ensures mixButtonActive == old(mixButtonActive) && mixButtonClickable == old(mixButtonClickable)
    {
      selectedCustomPaintViews := [];
    }

    /** The second restore loop on the palette's own lists. */
    method RestorePaints(colors: seq<Color>, ci: int)
      requires Valid() && selectedCustomPaintViews == []
      requires |customPaintViews| <= |colors| <= MAX_CUSTOM_COLORS
      modifies this
      ensures Valid()
      ensures var k0, n := old(|customPaintViews|), |colors|;
        customPaintViews == old(customPaintViews) + Fresh(old(|views|), n - k0)
        && |views| == old(|views|) + (n - k0)
        && ColorsOf(views, customPaintViews) == colors
        && (forall k :: 0 <= k < old(|views|) && k !in customPaintViews ==> views[k] == old(views[k]))
        && selectedCustomPaintViews == (if k0 < n then [customPaintViews[n - 1]] else [])
        && currentCustomPaintView == (if k0 < n then Some(customPaintViews[n - 1])
                                      else if 0 <= ci < n then Some(customPaintViews[ci])
                                      else old(currentCustomPaintView))
      ensures inMixMode == old(inMixMode) && paletteVisible == old(paletteVisible)
      ensures mixButtonActive == old(mixButtonActive) && mixButtonClickable == old(mixButtonClickable)
    {
      var c0, v0 := customPaintViews, views;
      FreshExtends(c0, |v0|, |colors| - |c0|);
      var vs, cpv, sel, cur := RestoreColors(views, customPaintViews, currentCustomPaintView, colors, ci);
      views, customPaintViews, selectedCustomPaintViews, currentCustomPaintView := vs, cpv, sel, cur;
      forall k | k in c0 ensures k in cpv {
        var j :| 0 <= j < |c0| && c0[j] == k;
        assert cpv[j] == k;
      }
    }

    /** The third restore loop: each listed paint is selected exactly when its index was saved as selected. */
    method RestoreSelection(idx: seq<int>)
      requires Valid()
      modifies this
      ensures Valid()
      ensures customPaintViews == old(customPaintViews) && |views| == old(|views|)
      ensures selectedCustomPaintViews == Reselect(old(selectedCustomPaintViews), customPaintViews, idx, 0)
      ensures forall i :: 0 <= i < |customPaintViews| ==>
        views[customPaintViews[i]] == old(views[customPaintViews[i]]).(selected := i in idx)
      ensures forall k :: 0 <= k < |views| && k !in customPaintViews ==> views[k] == old(views[k])
      ensures currentCustomPaintView == old(currentCustomPaintView)
      ensures inMixMode == old(inMixMode) && paletteVisible == old(paletteVisible)
      ensures mixButtonActive == old(mixButtonActive) && mixButtonClickable == old(mixButtonClickable)
    {
      var s0 := selectedCustomPaintViews;
      ReselectSubset(s0, customPaintViews, idx, 0);
      var vs, sel := SelectLoop(customPaintViews, idx, views, s0);
      forall i | 0 <= i < |sel| ensures sel[i] < |vs| {
        var x := sel[i];
        assert x in sel;
        if x in s0 {
          var j :| 0 <= j < |s0| && s0[j] == x;
        } else {
          var j :| 0 <= j < |customPaintViews| && customPaintViews[j] == x;
        }
      }
      if sel != [] && s0 == [] {
        assert sel[0] in customPaintViews;
      }
      views, selectedCustomPaintViews := vs, sel;
    }

    /**
     * `myRestoreInstanceState` as written: restores the flags, trims the list, gives
     * the listed paints the saved colours (adding paints as needed), selects each
     * paint exactly when its index was saved as selected, and returns the mix of the
     * selection for the listener. The colours and the selected flags are restored
     * exactly; the selection list starts with the last added paint when paints were
     * added, and the current paint is the last added one in that case.
     */
    method MyRestoreInstanceState(s: SavedPalette) returns (notified: Color)
      requires Valid() && |s.customColors| <= MAX_CUSTOM_COLORS
      modifies this
      ensures Valid()
      ensures paletteVisible == s.paletteVisible && inMixMode == s.inMixMode
      ensures mixButtonActive == old(mixButtonActive)
      ensures mixButtonClickable == (s.paletteVisible && old(mixButtonClickable))
      ensures Restored(old(views), old(customPaintViews), old(currentCustomPaintView), s,
                       views, customPaintViews, currentCustomPaintView)
      ensures var c0, n := Trimmed(old(customPaintViews), |s.customColors|), |s.customColors|;
        selectedCustomPaintViews == Reselect(if |c0| < n then [customPaintViews[n - 1]] else [], customPaintViews, s.selectedIndexes, 0)
      ensures notified == Mix(ColorsOf(views, selectedCustomPaintViews))
    {
      BeginRestore(s.paletteVisible, s.inMixMode, |s.customColors|);
      RestorePaints(s.customColors, s.currentIndex);
      ghost var v1 := views;
      RestoreSelection(s.selectedIndexes);
      RestoredBySelection(old(views), old(customPaintViews), old(currentCustomPaintView), s,
                          v1, views, customPaintViews, currentCustomPaintView);
      notified := MixColors(views, selectedCustomPaintViews);
    }

    /**
     * `myRestoreInstanceState` with the selection cleared again after the paints are
     * recoloured: the selection is then exactly the listed paints whose index was
     * saved as selected, each once and in list order, and a listed paint is selected
     * exactly when it is in the selection.
     */
    method MyRestoreInstanceStateFixed(s: SavedPalette) returns (notified: Color)
      requires Valid() && |s.customColors| <= MAX_CUSTOM_COLORS
      modifies this
      ensures Valid()
      ensures paletteVisible == s.paletteVisible && inMixMode == s.inMixMode
      ensures mixButtonActive == old(mixButtonActive)
      ensures mixButtonClickable == (s.paletteVisible && old(mixButtonClickable))
      ensures Restored(old(views), old(customPaintViews), old(currentCustomPaintView), s,
                       views, customPaintViews, currentCustomPaintView)
      ensures selectedCustomPaintViews == Picked(customPaintViews, s.selectedIndexes, 0)
      ensures Distinct(selectedCustomPaintViews)
      ensures forall i :: 0 <= i < |customPaintViews| ==> (customPaintViews[i] in selectedCustomPaintViews <==> i in s.selectedIndexes)
      ensures forall x :: x in selectedCustomPaintViews ==> x in customPaintViews
      ensures notified == Mix(ColorsOf(views, selectedCustomPaintViews))
    {
      BeginRestore(s.paletteVisible, s.inMixMode, |s.customColors|);
      RestorePaints(s.customColors, s.currentIndex);
      ClearSelection();
      ghost var v1 := views;
      RestoreSelection(s.selectedIndexes);
      RestoredBySelection(old(views), old(customPaintViews), old(currentCustomPaintView), s,
                          v1, views, customPaintViews, currentCustomPaintView);
      FreshSelection(customPaintViews, s.selectedIndexes);
      notified := MixColors(views, selectedCustomPaintViews);
    }
  }
}
