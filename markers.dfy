/**
 * `SPMarker` (src/marker.cpp): the marker object, its attribute handling, the child-to-parent
 * transform `update` computes, the table of views shapes keep of it, and the fork step.
 */
module Markers {
  import opened Wrappers
  import opened Geometry
  import opened MarkerAttributes
  import opened MarkerFit
  import opened DrawingBackend

  // ---------------------------------------------------------------- the view table

  /** One `SPMarkerView`: the key of the shape view that owns it and one item slot per marker position. */
  datatype MarkerView = MarkerView(key: nat, items: seq<Option<Handle>>)

  /** Index of the first view with `key` (the `for ... break` walk over the list), `|vs|` when there is none. */
  function FindView(vs: seq<MarkerView>, key: nat): (r: nat)
    ensures r <= |vs|
    ensures r < |vs| ==> vs[r].key == key
    ensures forall j :: 0 <= j < r ==> vs[j].key != key
    decreases |vs|
  {
    if vs == [] then 0
    else if vs[0].key == key then 0
    else 1 + FindView(vs[1..], key)
  }

  /** No two views share a key: `show_dimension` only adds a view for a key that has none. */
  predicate KeysUnique(vs: seq<MarkerView>) {
    forall i, j :: 0 <= i < j < |vs| ==> vs[i].key != vs[j].key
  }

  /** Unlinking one view from the list. */
  function RemoveAt(vs: seq<MarkerView>, i: nat): (r: seq<MarkerView>)
    requires i < |vs|
    ensures |r| == |vs| - 1
    ensures forall j :: 0 <= j < i ==> r[j] == vs[j]
    ensures forall j :: i <= j < |r| ==> r[j] == vs[j + 1]
  {
    vs[..i] + vs[i + 1..]
  }

  /** A fresh view's slots: `size` empty items. */
  function Empty(size: nat): (r: seq<Option<Handle>>)
    ensures |r| == size && forall j :: 0 <= j < size ==> r[j].None?
  {
    seq(size, _ => None)
  }

  /** The items a view holds (see `ItemHandlesMembers`). */
  function ItemHandles(items: seq<Option<Handle>>): set<Handle>
    decreases |items|
  {
    if items == [] then {}
    else ItemHandles(items[..|items| - 1]) + match items[|items| - 1] case Some(h) => {h} case None => {}
  }

  lemma {:induction false} ItemHandlesMembers(items: seq<Option<Handle>>, h: Handle)
    ensures h in ItemHandles(items) <==> exists j :: 0 <= j < |items| && items[j] == Some(h)
    decreases |items|
  {
    if items != [] {
      var init := items[..|items| - 1];
      ItemHandlesMembers(init, h);
      assert forall j :: 0 <= j < |init| ==> init[j] == items[j];
    }
  }

  /** The items all views hold (see `AllHandlesMembers`). */
  function AllHandles(vs: seq<MarkerView>): set<Handle>
    decreases |vs|
  {
    if vs == [] then {}
    else AllHandles(vs[..|vs| - 1]) + ItemHandles(vs[|vs| - 1].items)
  }

  lemma {:induction false} AllHandlesMembers(vs: seq<MarkerView>, h: Handle)
    ensures h in AllHandles(vs) <==> exists i :: 0 <= i < |vs| && h in ItemHandles(vs[i].items)
    decreases |vs|
  {
    if vs != [] {
      var init := vs[..|vs| - 1];
      AllHandlesMembers(init, h);
      assert forall i :: 0 <= i < |init| ==> init[i] == vs[i];
      if h in ItemHandles(vs[|vs| - 1].items) {
        assert h in AllHandles(vs);
      }
    }
  }

  lemma ItemHandlesPrefix(items: seq<Option<Handle>>, j: nat)
    requires j < |items|
    ensures ItemHandles(items[..j + 1]) ==
            ItemHandles(items[..j]) + match items[j] case Some(h) => {h} case None => {}
  {
    assert items[..j + 1][..j] == items[..j];
  }

  lemma AllHandlesPrefix(vs: seq<MarkerView>, k: nat)
    requires k < |vs|
    ensures AllHandles(vs[..k + 1]) == AllHandles(vs[..k]) + ItemHandles(vs[k].items)
  {
    assert vs[..k + 1][..k] == vs[..k];
  }

  lemma EmptyHoldsNothing(size: nat)
    ensures ItemHandles(Empty(size)) == {}
  {
    forall h | true
      ensures h !in ItemHandles(Empty(size))
    {
      ItemHandlesMembers(Empty(size), h);
    }
  }

  /** `m` with every key of `s` mapped to `t`: what re-stamping a set of groups leaves behind. */
  function Stamp(m: map<Handle, Transform>, s: set<Handle>, t: Transform): (r: map<Handle, Transform>)
    ensures r.Keys == m.Keys + s
    ensures forall h :: h in s ==> r[h] == t
    ensures forall h :: h in m && h !in s ==> r[h] == m[h]
  {
    map h | h in m.Keys + s :: if h in s then t else m[h]
  }

  lemma StampOne(m: map<Handle, Transform>, s: set<Handle>, t: Transform, h: Handle)
    ensures Stamp(m, s, t)[h := t] == Stamp(m, s + {h}, t)
  {
  }

  /** Stamping the slots of a view up to `j + 1` is stamping those up to `j`, then slot `j`. */
  lemma StampNext(m: map<Handle, Transform>, done: set<Handle>, items: seq<Option<Handle>>, j: nat, t: Transform)
    requires j < |items|
    ensures Stamp(m, done + ItemHandles(items[..j + 1]), t) ==
            match items[j]
            case Some(h) => Stamp(m, done + ItemHandles(items[..j]), t)[h := t]
            case None => Stamp(m, done + ItemHandles(items[..j]), t)
  {
    ItemHandlesPrefix(items, j);
    var s := done + ItemHandles(items[..j]);
    match items[j]
    case Some(h) =>
      assert done + ItemHandles(items[..j + 1]) == s + {h};
      StampOne(m, s, t, h);
    case None =>
      assert done + ItemHandles(items[..j + 1]) == s;
  }

  /** A view removed from a table with unique keys takes the only view with its key along. */
  lemma {:induction false} RemoveKeepsUnique(vs: seq<MarkerView>, i: nat)
    requires KeysUnique(vs) && i < |vs|
    ensures KeysUnique(RemoveAt(vs, i))
    ensures FindView(RemoveAt(vs, i), vs[i].key) == |vs| - 1
  {
    var r := RemoveAt(vs, i);
    forall a, b | 0 <= a < b < |r|
      ensures r[a].key != r[b].key
    {
      var a' := if a < i then a else a + 1;
      var b' := if b < i then b else b + 1;
      assert r[a] == vs[a'] && r[b] == vs[b'] && a' < b';
    }
    forall j | 0 <= j < |r|
      ensures r[j].key != vs[i].key
    {
      if j < i {
        assert r[j] == vs[j];
      } else {
        assert r[j] == vs[j + 1];
      }
    }
    FindViewAt(r, vs[i].key, |r|);
  }

  lemma PrependKeepsUnique(vs: seq<MarkerView>, v: MarkerView)
    requires KeysUnique(vs) && FindView(vs, v.key) == |vs|
    ensures KeysUnique([v] + vs)
  {
    var r := [v] + vs;
    forall a, b | 0 <= a < b < |r|
      ensures r[a].key != r[b].key
    {
      if a == 0 {
        assert r[b] == vs[b - 1];
      } else {
        assert r[a] == vs[a - 1] && r[b] == vs[b - 1];
      }
    }
  }

  /**
   * The views own their items: every item in a slot is live in the drawing, and no item sits in
   * two views, so destroying one view's items leaves those of the others alive.
   */
  predicate Owned(vs: seq<MarkerView>, live: set<Handle>) {
    AllHandles(vs) <= live &&
    forall a, b :: 0 <= a < b < |vs| ==> ItemHandles(vs[a].items) !! ItemHandles(vs[b].items)
  }

  /** Removing a view and destroying its items keeps the others owned, and only its items leave the table. */
  lemma RemoveKeepsOwned(vs: seq<MarkerView>, i: nat, live: set<Handle>)
    requires Owned(vs, live) && i < |vs|
    ensures AllHandles(RemoveAt(vs, i)) == AllHandles(vs) - ItemHandles(vs[i].items)
    ensures Owned(RemoveAt(vs, i), live - ItemHandles(vs[i].items))
  {
    var r := RemoveAt(vs, i);
    forall h | true
      ensures h in AllHandles(r) <==> h in AllHandles(vs) && h !in ItemHandles(vs[i].items)
    {
      AllHandlesMembers(r, h);
      AllHandlesMembers(vs, h);
      if h in AllHandles(r) {
        var k :| 0 <= k < |r| && h in ItemHandles(r[k].items);
        var k' := if k < i then k else k + 1;
        assert r[k] == vs[k'];
        if k' < i {
          assert ItemHandles(vs[k'].items) !! ItemHandles(vs[i].items);
        } else {
          assert ItemHandles(vs[i].items) !! ItemHandles(vs[k'].items);
        }
      }
      if h in AllHandles(vs) && h !in ItemHandles(vs[i].items) {
        var k :| 0 <= k < |vs| && h in ItemHandles(vs[k].items);
        if k < i {
          assert r[k] == vs[k];
        } else {
          assert r[k - 1] == vs[k];
        }
      }
    }
    forall a, b | 0 <= a < b < |r|
      ensures ItemHandles(r[a].items) !! ItemHandles(r[b].items)
    {
      var a' := if a < i then a else a + 1;
      var b' := if b < i then b else b + 1;
      assert r[a] == vs[a'] && r[b] == vs[b'] && a' < b';
    }
  }

  /** A new, empty view at the head owns nothing. */
  lemma PrependEmptyKeepsOwned(vs: seq<MarkerView>, key: nat, size: nat, live: set<Handle>)
    requires Owned(vs, live)
    ensures Owned([MarkerView(key, Empty(size))] + vs, live)
  {
    var r := [MarkerView(key, Empty(size))] + vs;
    EmptyHoldsNothing(size);
    assert r[1..] == vs;
    assert AllHandles(r) == AllHandles(vs) by {
      forall h | true
        ensures h in AllHandles(r) <==> h in AllHandles(vs)
      {
        AllHandlesMembers(r, h);
        AllHandlesMembers(vs, h);
        if h in AllHandles(vs) {
          var k :| 0 <= k < |vs| && h in ItemHandles(vs[k].items);
          assert r[k + 1] == vs[k];
        }
      }
    }
    forall a, b | 0 <= a < b < |r|
      ensures ItemHandles(r[a].items) !! ItemHandles(r[b].items)
    {
      if a > 0 {
        assert r[a] == vs[a - 1] && r[b] == vs[b - 1];
      }
    }
  }

  /** An item that was not live, put into an empty slot, is owned by that view alone. */
  lemma FillSlotKeepsOwned(vs: seq<MarkerView>, i: nat, pos: nat, h: Handle, live: set<Handle>)
    requires Owned(vs, live) && i < |vs| && pos < |vs[i].items| && vs[i].items[pos].None? && h !in live
    ensures Owned(vs[i := MarkerView(vs[i].key, vs[i].items[pos := Some(h)])], live + {h})
  {
    var items := vs[i].items[pos := Some(h)];
    var r := vs[i := MarkerView(vs[i].key, items)];
    assert ItemHandles(items) == ItemHandles(vs[i].items) + {h} by {
      forall g | true
        ensures g in ItemHandles(items) <==> g in ItemHandles(vs[i].items) + {h}
      {
        ItemHandlesMembers(items, g);
        ItemHandlesMembers(vs[i].items, g);
        if g in ItemHandles(vs[i].items) {
          var j :| 0 <= j < |vs[i].items| && vs[i].items[j] == Some(g);
          assert items[j] == Some(g);
        }
        if g == h {
          assert items[pos] == Some(h);
        }
      }
    }
    forall g | g in AllHandles(r)
      ensures g in live + {h}
    {
      AllHandlesMembers(r, g);
      AllHandlesMembers(vs, g);
      var k :| 0 <= k < |r| && g in ItemHandles(r[k].items);
      if k != i {
        assert r[k] == vs[k];
      }
    }
    forall a, b | 0 <= a < b < |r|
      ensures ItemHandles(r[a].items) !! ItemHandles(r[b].items)
    {
      AllHandlesMembers(vs, h);
      if a == i {
        assert r[b] == vs[b];
      } else if b == i {
        assert r[a] == vs[a];
      } else {
        assert r[a] == vs[a] && r[b] == vs[b];
      }
    }
  }

  /** What the walk that stops at the first match finds. */
  lemma FindViewAt(vs: seq<MarkerView>, key: nat, i: nat)
    requires i <= |vs| && (i < |vs| ==> vs[i].key == key)
    requires forall j :: 0 <= j < i ==> vs[j].key != key
    ensures FindView(vs, key) == i
  {
  }

  // ---------------------------------------------------------------- instance transforms

  /** Instances are not shown for a zero line width when the marker scales with the stroke. */
  predicate Suppressed(units: Units, linewidth: real) {
    units == StrokeWidth && linewidth == 0.0
  }

  /**
   * The transform `show_instance` gives an instance: the vertex transform `base` itself for
   * `orient="auto"`, else a rotation by the fixed angle followed by the vertex position; then,
   * for `markerUnits="strokeWidth"`, a uniform scale by the line width applied first.
   */
  function InstanceTransform(orient: Orient, units: Units, base: Affine, linewidth: real): (r: Transform)
    ensures units == StrokeWidth ==> r.Compose? && r.first == Matrix(Scale(linewidth, linewidth))
    ensures orient.auto && units == UserSpaceOnUse ==> r == Matrix(base)
  {
    var m := if orient.auto then Matrix(base)
             else Compose(RotateDegrees(orient.angle), Matrix(Translate(Translation(base).x, Translation(base).y)));
    if units == StrokeWidth then Compose(Matrix(Scale(linewidth, linewidth)), m) else m
  }

  /** Whatever the orientation and units, the marker's own origin is placed at the vertex. */
  lemma InstancePlacesOrigin(orient: Orient, units: Units, base: Affine, linewidth: real)
    ensures MapPoint(InstanceTransform(orient, units, base, linewidth), Point(0.0, 0.0)) == Some(Translation(base))
  {
    var o := Point(0.0, 0.0);
    var t := Translation(base);
    var m := if orient.auto then Matrix(base)
             else Compose(RotateDegrees(orient.angle), Matrix(Translate(t.x, t.y)));
    if orient.auto {
      assert Apply(base, o) == t;
    } else {
      assert MapPoint(RotateDegrees(orient.angle), o) == Some(o);
      assert Apply(Translate(t.x, t.y), o) == t;
    }
    assert MapPoint(m, o) == Some(t);
    assert Apply(Scale(linewidth, linewidth), o) == o;
    assert InstanceTransform(orient, units, base, linewidth) ==
           if units == StrokeWidth then Compose(Matrix(Scale(linewidth, linewidth)), m) else m;
  }

  /**
   * The marker contents' reference point (`refX`, `refY`) is drawn at the vertex: the group's
   * child transform maps it to the marker origin and the instance transform maps that there.
   */
  lemma RefPointAtVertex(markerWidth: real, markerHeight: real, viewBox: Option<Rect>, aspect: AspectRatio,
                         refX: real, refY: real, orient: Orient, units: Units, base: Affine, linewidth: real)
    requires ChildToParent(markerWidth, markerHeight, viewBox, aspect, refX, refY).Matrix?
    ensures var c2p := ChildToParent(markerWidth, markerHeight, viewBox, aspect, refX, refY);
            MapPoint(Compose(c2p, InstanceTransform(orient, units, base, linewidth)), Point(refX, refY))
              == Some(Translation(base))
  {
    var m := ChildToParent(markerWidth, markerHeight, viewBox, aspect, refX, refY).m;
    assert m.a * refX + m.c * refY + m.e == 0.0;
    assert m.b * refX + m.d * refY + m.f == 0.0;
    assert Apply(m, Point(refX, refY)) == Point(0.0, 0.0);
    InstancePlacesOrigin(orient, units, base, linewidth);
  }

  // ---------------------------------------------------------------- forking

  /** An absent `inkscape:isstock` counts as stock. */
  predicate IsStock(isstock: Option<string>) {
    isstock.None? || isstock.value == "true"
  }

  /**
   * The gate of `sp_marker_fork_if_necessary`: a marker is copied only when it is used more than
   * once and the colouring preference for its kind (stock or custom) is on.
   */
  function ShouldFork(hrefcount: nat, isstock: Option<string>, colorStock: bool, colorCustom: bool): (r: bool)
    ensures r ==> hrefcount >= 2
    ensures r ==> (if IsStock(isstock) then colorStock else colorCustom)
  {
    if hrefcount < 2 then false
    else if IsStock(isstock) then colorStock
    else colorCustom
  }

  /** A marker used at most once is never copied, whatever the preferences. */
  lemma UnsharedNeverForks(hrefcount: nat, isstock: Option<string>, colorStock: bool, colorCustom: bool)
    requires hrefcount < 2
    ensures !ShouldFork(hrefcount, isstock, colorStock, colorCustom)
  {
  }

  /** A shared stock marker is copied exactly when stock markers are to be coloured. */
  lemma SharedStockForks(hrefcount: nat, isstock: Option<string>, colorStock: bool, colorCustom: bool)
    requires hrefcount >= 2 && IsStock(isstock)
    ensures ShouldFork(hrefcount, isstock, colorStock, colorCustom) <==> colorStock
  {
  }

  /** A shared custom marker is copied exactly when custom markers are to be coloured. */
  lemma SharedCustomForks(hrefcount: nat, isstock: Option<string>, colorStock: bool, colorCustom: bool)
    requires hrefcount >= 2 && !IsStock(isstock)
    ensures ShouldFork(hrefcount, isstock, colorStock, colorCustom) <==> colorCustom
  {
  }

  /** With the preferences at their defaults (stock markers coloured, custom ones not). */
  lemma DefaultPreferencesFork(hrefcount: nat, isstock: Option<string>)
    ensures ShouldFork(hrefcount, isstock, true, false) <==> hrefcount >= 2 && IsStock(isstock)
  {
  }

  /**
   * The attributes of the copy: the original's without `inkscape:collect`, under the identifier
   * the document gives the duplicate, with an `inkscape:stockid` naming that identifier when the
   * original had none.
   */
  function ForkedRepr(repr: Attributes, uniqueId: string): (r: Attributes)
    ensures CollectKey !in r
    ensures Get(r, IdKey) == Some(uniqueId)
    ensures StockIdKey in r && (StockIdKey in repr ==> r[StockIdKey] == repr[StockIdKey])
    ensures StockIdKey !in repr ==> r[StockIdKey] == uniqueId
    ensures forall k :: k !in {CollectKey, IdKey, StockIdKey} ==> Get(r, k) == Get(repr, k)
  {
    var dup := (repr - {CollectKey})[IdKey := uniqueId];
    if StockIdKey in dup then dup else dup[StockIdKey := uniqueId]
  }

  /** The copy reads back the same marker fields as the original. */
  lemma ForkKeepsFields(repr: Attributes, uniqueId: string, n: NumberSyntax)
    ensures ReadAll(ForkedRepr(repr, uniqueId), n) == ReadAll(repr, n)
  {
    var r := ForkedRepr(repr, uniqueId);
    assert Get(r, MarkerUnitsKey) == Get(repr, MarkerUnitsKey);
    assert Get(r, RefXKey) == Get(repr, RefXKey);
    assert Get(r, RefYKey) == Get(repr, RefYKey);
    assert Get(r, MarkerWidthKey) == Get(repr, MarkerWidthKey);
    assert Get(r, MarkerHeightKey) == Get(repr, MarkerHeightKey);
    assert Get(r, OrientKey) == Get(repr, OrientKey);
    assert Get(r, ViewBoxKey) == Get(repr, ViewBoxKey);
    assert Get(r, PreserveAspectRatioKey) == Get(repr, PreserveAspectRatioKey);
  }

  // ---------------------------------------------------------------- the marker object

  class Marker {
    var markerUnits: MarkerUnits
    var refX: SvgLength
    var refY: SvgLength
    var markerWidth: SvgLength
    var markerHeight: SvgLength
    var orient: Orient
    var viewBox: Option<Rect>
    var aspect: AspectRatio
    /** The child-to-parent transform `update` computes. */
    var c2p: Transform
    /** The list of `SPMarkerView`s, head first. */
    var views: seq<MarkerView>
    var hrefcount: nat
    /** The attributes of the marker's own XML node. */
    var repr: Attributes

    function Attrs(): MarkerAttrs
      reads this
    {
      MarkerAttrs(markerUnits, refX, refY, markerWidth, markerHeight, orient, viewBox, aspect)
    }

    predicate Valid()
      reads this
    {
      KeysUnique(views)
    }

    /** The items in the views' slots are live items of `drawing`, each held by one view. */
    predicate Owns(drawing: Drawing)
      reads this, drawing
    {
      Owned(views, drawing.live)
    }

    constructor (repr: Attributes)
      ensures Valid() && Attrs() == InitialAttrs && this.repr == repr
      ensures c2p == Matrix(Identity) && views == [] && hrefcount == 0
    {
      markerUnits := InitialAttrs.markerUnits;
      refX, refY := InitialAttrs.refX, InitialAttrs.refY;
      markerWidth, markerHeight := InitialAttrs.markerWidth, InitialAttrs.markerHeight;
      orient := InitialAttrs.orient;
      viewBox := None;
      aspect := DefaultAspect;
      c2p := Matrix(Identity);
      views := [];
      hrefcount := 0;
      this.repr := repr;
    }

    /** A marker object made for an XML node and built from it, as the document does for a new node. */
    constructor FromRepr(repr: Attributes, n: NumberSyntax)
      ensures Valid() && Attrs() == ReadAll(repr, n) && this.repr == repr
      ensures c2p == Matrix(Identity) && views == [] && hrefcount == 0
    {
      markerUnits := InitialAttrs.markerUnits;
      refX, refY := InitialAttrs.refX, InitialAttrs.refY;
      markerWidth, markerHeight := InitialAttrs.markerWidth, InitialAttrs.markerHeight;
      orient := InitialAttrs.orient;
      viewBox := None;
      aspect := DefaultAspect;
      c2p := Matrix(Identity);
      views := [];
      hrefcount := 0;
      this.repr := repr;
      new;
      Build(n);
    }

    /** `SPMarker::set`. */
    method Set(key: AttrKey, value: Option<string>, n: NumberSyntax)
      modifies this`markerUnits, this`refX, this`refY, this`markerWidth, this`markerHeight,
               this`orient, this`viewBox, this`aspect
      ensures Attrs() == SetAttribute(old(Attrs()), key, value, n)
    {
      match key
      case MarkerUnitsKey => markerUnits := ParseMarkerUnits(value);
      case RefXKey => refX := ParseLength(value, n.readLength, 0.0);
      case RefYKey => refY := ParseLength(value, n.readLength, 0.0);
      case MarkerWidthKey => markerWidth := ParseLength(value, n.readLength, 3.0);
      case MarkerHeightKey => markerHeight := ParseLength(value, n.readLength, 3.0);
      case OrientKey => orient := ParseOrient(value, n.readNumber);
      case ViewBoxKey => viewBox := ScanViewBox(value, n.strtod);
      case PreserveAspectRatioKey => aspect := ScanAspectRatio(value);
      case _ =>
    }

    /** `SPMarker::build`: the eight attributes are read in turn from the marker's node. */
    method Build(n: NumberSyntax)
      modifies this`markerUnits, this`refX, this`refY, this`markerWidth, this`markerHeight,
               this`orient, this`viewBox, this`aspect
      ensures Attrs() == ReadAll(repr, n)
    {
      ghost var goal := ReadAll(repr, n);
      Set(MarkerUnitsKey, Get(repr, MarkerUnitsKey), n);
      assert markerUnits == goal.markerUnits;
      Set(RefXKey, Get(repr, RefXKey), n);
      assert refX == goal.refX;
      Set(RefYKey, Get(repr, RefYKey), n);
      assert refY == goal.refY;
      Set(MarkerWidthKey, Get(repr, MarkerWidthKey), n);
      assert markerWidth == goal.markerWidth;
      Set(MarkerHeightKey, Get(repr, MarkerHeightKey), n);
      assert markerHeight == goal.markerHeight;
      Set(OrientKey, Get(repr, OrientKey), n);
      assert orient == goal.orient;
      Set(ViewBoxKey, Get(repr, ViewBoxKey), n);
      assert viewBox == goal.viewBox;
      Set(PreserveAspectRatioKey, Get(repr, PreserveAspectRatioKey), n);
    }

    /**
     * `SPMarker::update`: recompute `c2p`, then give every item of every view `c2p` as its
     * child transform.
     */
    method Update(drawing: Drawing)
      modifies this`c2p, drawing`childTransform
      ensures c2p == ChildToParent(markerWidth.computed, markerHeight.computed, viewBox, aspect,
                                   refX.computed, refY.computed)
      ensures drawing.childTransform == Stamp(old(drawing.childTransform), AllHandles(views), c2p)
    {
      c2p := ChildToParent(markerWidth.computed, markerHeight.computed, viewBox, aspect,
                           refX.computed, refY.computed);
      // the parent class's update of the contents happens here
      SetChildTransforms(drawing);
    }

    /** The last step of `update`: every item of every view gets `c2p` as its child transform. */
    method SetChildTransforms(drawing: Drawing)
      modifies drawing`childTransform
      ensures drawing.childTransform == Stamp(old(drawing.childTransform), AllHandles(views), c2p)
    {
      var i := 0;
      while i < |views|
        invariant 0 <= i <= |views|
        invariant drawing.childTransform == Stamp(old(drawing.childTransform), AllHandles(views[..i]), c2p)
      {
        StampItems(views[i].items, drawing, old(drawing.childTransform), AllHandles(views[..i]));
        AllHandlesPrefix(views, i);
        i := i + 1;
      }
      assert views[..i] == views;
    }

    /** The inner loop of that step, over the slots of one view. */
    method StampItems(items: seq<Option<Handle>>, drawing: Drawing,
                      ghost start: map<Handle, Transform>, ghost done: set<Handle>)
      requires drawing.childTransform == Stamp(start, done, c2p)
      modifies drawing`childTransform
      ensures drawing.childTransform == Stamp(start, done + ItemHandles(items), c2p)
    {
      var j := 0;
      while j < |items|
        invariant 0 <= j <= |items|
        invariant drawing.childTransform == Stamp(start, done + ItemHandles(items[..j]), c2p)
      {
        StampNext(start, done, items, j, c2p);
        if items[j].Some? {
          drawing.SetChildTransform(items[j].value, c2p);
        }
        j := j + 1;
      }
      assert items[..j] == items;
    }

    /** `sp_marker_view_remove`: unlink view `i`, and destroy its items when asked to. */
    method ViewRemove(i: nat, destroyItems: bool, drawing: Drawing)
      requires i < |views| && drawing.Valid()
      modifies this`views, drawing`live
      ensures views == RemoveAt(old(views), i) && drawing.Valid()
      ensures i == 0 ==> views == old(views)[1..]
      ensures drawing.live == if destroyItems then old(drawing.live) - ItemHandles(old(views)[i].items)
                              else old(drawing.live)
      ensures old(Owns(drawing)) ==> Owns(drawing)
    {
      if Owns(drawing) {
        RemoveKeepsOwned(views, i, drawing.live);
      }
      var view := views[i];
      if i == 0 {
        views := views[1..];
      } else {
        views := views[..i] + views[i + 1..];
      }
      if destroyItems {
        var j := 0;
        while j < |view.items|
          invariant 0 <= j <= |view.items| && drawing.Valid()
          invariant views == old(views)[..i] + old(views)[i + 1..]
          invariant drawing.live == old(drawing.live) - ItemHandles(view.items[..j])
        {
          ItemHandlesPrefix(view.items, j);
          if view.items[j].Some? {
            drawing.Destroy(view.items[j].value);
          }
          j := j + 1;
        }
        assert view.items[..j] == view.items;
      }
    }

    /**
     * `sp_marker_show_dimension`: make sure the view with `key` has `size` slots; a view of
     * another size is removed with its items and a new, empty one is put at the head.
     */
    method ShowDimension(key: nat, size: nat, drawing: Drawing)
      requires Valid() && drawing.Valid() && Owns(drawing)
      modifies this`views, drawing`live
      ensures Valid() && drawing.Valid() && Owns(drawing)
      ensures FindView(views, key) < |views| && |views[FindView(views, key)].items| == size
      ensures var i := FindView(old(views), key);
              i < |old(views)| && |old(views)[i].items| == size ==>
                views == old(views) && drawing.live == old(drawing.live)
      ensures var i := FindView(old(views), key);
              i < |old(views)| && |old(views)[i].items| != size ==>
                views == [MarkerView(key, Empty(size))] + RemoveAt(old(views), i) &&
                drawing.live == old(drawing.live) - ItemHandles(old(views)[i].items)
      ensures FindView(old(views), key) == |old(views)| ==>
                views == [MarkerView(key, Empty(size))] + old(views) && drawing.live == old(drawing.live)
    {
      var i := 0;
      while i < |views| && views[i].key != key
        invariant 0 <= i <= |views|
        invariant forall j :: 0 <= j < i ==> views[j].key != key
      {
        i := i + 1;
      }
      FindViewAt(views, key, i);
      var found := i < |views|;
      if found && |views[i].items| != size {
        // the parent class's hide(key) is the backend's own bookkeeping
        RemoveKeepsUnique(views, i);
        ViewRemove(i, true, drawing);
        found := false;
      }
      if !found {
        PrependKeepsUnique(views, MarkerView(key, Empty(size)));
        PrependEmptyKeepsOwned(views, key, size, drawing.live);
        views := [MarkerView(key, Empty(size))] + views;
      }
    }

    /**
     * `sp_marker_show_instance`: show the instance at slot `pos` of the view with `key` under
     * `parent`, creating its group on first use, and give it its instance transform.
     */
    method ShowInstance(parent: Handle, key: nat, pos: nat, base: Affine, linewidth: real, drawing: Drawing)
      returns (r: Option<Handle>)
      requires Valid() && drawing.Valid() && Owns(drawing)
      modifies this`views, drawing
      ensures Valid() && drawing.Valid() && Owns(drawing)
      ensures var i := FindView(old(views), key);
              Suppressed(markerUnits.units, linewidth) || i == |old(views)| || pos >= |old(views)[i].items| ==>
                r == None && views == old(views) && unchanged(drawing)
      ensures var i := FindView(old(views), key);
              !(Suppressed(markerUnits.units, linewidth) || i == |old(views)| || pos >= |old(views)[i].items|) ==>
                r.Some? &&
                views == old(views)[i := MarkerView(key, old(views)[i].items[pos := r])] &&
                drawing.transform == old(drawing.transform)[r.value := InstanceTransform(orient, markerUnits.units, base, linewidth)]
      ensures var i := FindView(old(views), key);
              !(Suppressed(markerUnits.units, linewidth) || i == |old(views)| || pos >= |old(views)[i].items|) &&
              old(views)[i].items[pos].Some? ==>
                r == old(views)[i].items[pos] && drawing.live == old(drawing.live) &&
                drawing.children == old(drawing.children) && drawing.childTransform == old(drawing.childTransform)
      ensures var i := FindView(old(views), key);
              !(Suppressed(markerUnits.units, linewidth) || i == |old(views)| || pos >= |old(views)[i].items|) &&
              old(views)[i].items[pos].None? ==>
                r.Some? && r.value !in old(drawing.live) && drawing.live == old(drawing.live) + {r.value} &&
                drawing.children == old(drawing.children)[parent := [r.value] + old(drawing.ChildrenOf(parent))] &&
                drawing.childTransform == old(drawing.childTransform)[r.value := c2p]
    {
      if markerUnits.units == StrokeWidth && linewidth == 0.0 {
        return None;
      }
      var i := 0;
      while i < |views| && views[i].key != key
        invariant 0 <= i <= |views|
        invariant forall j :: 0 <= j < i ==> views[j].key != key
      {
        i := i + 1;
      }
      FindViewAt(views, key, i);
      if i == |views| {
        return None;
      }
      var v := views[i];
      if pos >= |v.items| {
        return None;
      }
      var item := v.items[pos];
      if item.None? {
        // the parent class's show(): a new group for the marker's contents
        var h := drawing.CreateGroup();
        FillSlotKeepsOwned(views, i, pos, h, old(drawing.live));
        item := Some(h);
        views := views[i := MarkerView(v.key, v.items[pos := item])];
        drawing.PrependChild(parent, h);
        drawing.SetChildTransform(h, c2p);
      } else {
        assert v.items[pos := item] == v.items;
        assert views[i := MarkerView(key, v.items[pos := item])] == views;
      }
      drawing.SetTransform(item.value, InstanceTransform(orient, markerUnits.units, base, linewidth));
      r := item;
      assert Valid() by {
        forall a, b | 0 <= a < b < |views|
          ensures views[a].key != views[b].key
        {
          assert views[a].key == old(views)[a].key && views[b].key == old(views)[b].key;
        }
      }
    }

    /** `sp_marker_hide`: remove the view with `key`, destroying its items. */
    method Hide(key: nat, drawing: Drawing)
      requires Valid() && drawing.Valid() && Owns(drawing)
      modifies this`views, drawing`live
      ensures Valid() && drawing.Valid() && Owns(drawing)
      ensures FindView(views, key) == |views|
      ensures var i := FindView(old(views), key);
              i < |old(views)| ==>
                views == RemoveAt(old(views), i) &&
                drawing.live == old(drawing.live) - ItemHandles(old(views)[i].items)
      ensures FindView(old(views), key) == |old(views)| ==>
                views == old(views) && drawing.live == old(drawing.live)
    {
      var i := 0;
      while i < |views|
        invariant 0 <= i <= |views|
        invariant forall j :: 0 <= j < i ==> views[j].key != key
      {
        if views[i].key == key {
          FindViewAt(views, key, i);
          RemoveKeepsUnique(views, i);
          // the parent class's hide(key) is the backend's own bookkeeping
          ViewRemove(i, true, drawing);
          return;
        }
        i := i + 1;
      }
      FindViewAt(views, key, i);
    }

    /** `SPMarker::release`: drain the view list, destroying every item. */
    method Release(drawing: Drawing)
      requires drawing.Valid()
      modifies this`views, drawing`live
      ensures views == [] && Valid() && drawing.Valid() && Owns(drawing)
      ensures drawing.live == old(drawing.live) - AllHandles(old(views))
    {
      ghost var k := 0;
      while |views| > 0
        invariant drawing.Valid()
        invariant 0 <= k <= |old(views)| && views == old(views)[k..]
        invariant drawing.live == old(drawing.live) - AllHandles(old(views)[..k])
        decreases |views|
      {
        AllHandlesPrefix(old(views), k);
        assert views[0] == old(views)[k];
        // the parent class's hide(key) is the backend's own bookkeeping
        ViewRemove(0, true, drawing);
        assert views == old(views)[k + 1..];
        k := k + 1;
      }
      assert old(views)[..k] == old(views);
    }

    /**
     * `sp_marker_fork_if_necessary`: either this marker, or a copy of its node built as a new
     * marker; the original is then marked collectable.
     */
    method ForkIfNecessary(colorStock: bool, colorCustom: bool, uniqueId: string, n: NumberSyntax)
      returns (r: Marker)
      modifies this`repr
      ensures !ShouldFork(hrefcount, Get(old(repr), IsStockKey), colorStock, colorCustom) ==>
                r == this && repr == old(repr)
      ensures ShouldFork(hrefcount, Get(old(repr), IsStockKey), colorStock, colorCustom) ==>
                fresh(r) && r.repr == ForkedRepr(old(repr), uniqueId) && r.Attrs() == ReadAll(r.repr, n) &&
                r.views == [] && r.hrefcount == 0 && r.Valid() &&
                repr == old(repr)[CollectKey := "always"]
    {
      if hrefcount < 2 {
        return this;
      }
      var stock := Get(repr, IsStockKey);
      var isStock := stock.None? || stock.value == "true";
      if (if isStock then !colorStock else !colorCustom) {
        return this;
      }
      repr := repr - {CollectKey};
      // the duplicate receives a fresh identifier when it joins the document's definitions
      var dup := repr[IdKey := uniqueId];
      if StockIdKey !in dup {
        dup := dup[StockIdKey := uniqueId];
      }
      repr := repr[CollectKey := "always"];
      r := new Marker.FromRepr(dup, n);
    }
  }
}
