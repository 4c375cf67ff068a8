/**
 * `PovOutput` (src/extension/internal/pov-out.cpp): the exporter object whose counters, text
 * buffer, shape list and document extent are updated as the document tree is walked, and the
 * tree search it is built on.
 */
module PovOut {
  import opened Wrappers
  import opened Geometry
  import opened PovPrism

  /** `findElementsByTagName`: append to `results`, in pre-order, each node named `name` (every node for `None`). */
  method FindElementsByTagName(results: seq<Node>, node: Node, name: Option<string>) returns (r: seq<Node>)
    ensures r == results + Matching(node, name)
    decreases node
  {
    r := results;
    if name.None? || node.name == name.value {
      r := r + [node];
    }
    var cs := node.children;
    var i := 0;
    while i < |cs|
      invariant 0 <= i <= |cs|
      invariant r + MatchingAll(cs[i..], name) == results + Matching(node, name)
    {
      assert cs[i..][1..] == cs[i + 1..];
      r := FindElementsByTagName(r, cs[i], name);
      i := i + 1;
    }
  }

  /** `CurveSpec` of a shape with a non-empty curve, in terms of its counted segments and the run over them. */
  lemma CurveSpecIs(st: PovState, obj: ObjKind, id: string, end: WalkEnd, fmt: Format, count: nat, st1: PovState, c: Cursor)
    requires obj.ShapeItem? && obj.paths != [] && count == SegmentCount(obj.paths)
    requires st1 == st.(nrShapes := st.nrShapes + 1, shapes := st.shapes + [ShapeInfo(id, obj.color)],
                        outbuf := st.outbuf + [PrismHead(id, count, fmt)], nrSegments := st.nrSegments + count)
    requires c == RunPaths(Cursor(st1.nrNodes, st1.outbuf, 0, Rect(obj.paths[0].initial, obj.paths[0].initial), false),
                           obj.paths, end, count, fmt)
    ensures c.failed ==> CurveSpec(st, obj, id, end, fmt) == (false, st1.(nrNodes := c.nodes, outbuf := c.out))
    ensures !c.failed ==>
              CurveSpec(st, obj, id, end, fmt) ==
              (true, st1.(nrNodes := c.nodes, outbuf := c.out + [ShapeFoot(id, c.box, obj.color, fmt)],
                          minx := Min(st.minx, c.box.lo.x), maxx := Max(st.maxx, c.box.hi.x),
                          miny := Min(st.miny, c.box.lo.y), maxy := Max(st.maxy, c.box.hi.y)))
  {
  }

  lemma AppendAssoc<T>(a: seq<T>, b: seq<T>, c: seq<T>)
    ensures a + b + c == a + (b + c)
  {
  }

  lemma AppendAssoc5<T>(a: seq<T>, b: seq<T>, c: seq<T>, d: seq<T>, e: seq<T>, f: seq<T>)
    ensures a + (b + c + d + e + f) == a + b + c + d + e + f
  {
    AppendAssoc(a, b + c + d + e, f);
    AppendAssoc(a, b + c + d, e);
    AppendAssoc(a, b + c, d);
    AppendAssoc(a, b, c);
  }

  /** The union written piece by piece is `UnionText`. */
  lemma UnionTextIs(ss: seq<ShapeInfo>, box: Rect, fmt: Format, start: seq<string>, out: seq<string>)
    requires |ss| > 0
    requires out == start + [fmt.text.unionHead] + UnionMembers(ss, fmt) + [UnionMiddle(0.2 / (|ss| as real), fmt)] +
                    UnionZMembers(ss, fmt) + [UnionFoot(box, fmt)]
    ensures out == start + UnionText(ss, box, fmt)
  {
    AppendAssoc5(start, [fmt.text.unionHead], UnionMembers(ss, fmt), [UnionMiddle(0.2 / (|ss| as real), fmt)], UnionZMembers(ss, fmt),
                 [UnionFoot(box, fmt)]);
  }

  class PovOutput {
    var nrNodes: int
    var nrSegments: int
    var nrShapes: int
    var outbuf: seq<string>
    var povShapes: seq<ShapeInfo>
    var minx: real
    var maxx: real
    var miny: real
    var maxy: real

    function State(): PovState
      reads this
    {
      PovState(nrNodes, nrSegments, nrShapes, outbuf, povShapes, minx, maxx, miny, maxy)
    }

    /** `out`: append already formatted text to the buffer. */
    method Out(text: string)
      modifies this`outbuf
      ensures outbuf == old(outbuf) + [text]
    {
      outbuf := outbuf + [text];
    }

    /** `reset`. */
    method Reset()
      modifies this
      ensures State() == ResetState(old(State()))
    {
      nrNodes := 0;
      nrSegments := 0;
      nrShapes := 0;
      outbuf := [];
      povShapes := [];
    }

    /** The counting loop at the start of `doCurve`: every segment, with each closing line. */
    static method CountSegments(paths: seq<Subpath>) returns (segmentCount: nat)
      ensures segmentCount == SegmentCount(paths)
    {
      segmentCount := 0;
      var k := 0;
      while k < |paths|
        invariant 0 <= k <= |paths| && segmentCount == SegmentCount(paths[..k])
      {
        assert paths[..k + 1][..k] == paths[..k];
        segmentCount := segmentCount + |paths[k].segments|;
        if paths[k].closed {
          segmentCount := segmentCount + 1;
        }
        k := k + 1;
      }
      assert paths[..k] == paths;
    }

    /**
     * The body of the inner loop of `doCurve`: one node line for a line or cubic, followed by its
     * separator; `false`, with nothing written, for any other segment.
     */
    method WriteSegment(seg: Segment, segmentNr0: int, box0: Rect, segmentCount: int, fmt: Format)
      returns (ok: bool, segmentNr: int, box: Rect)
      modifies this`nrNodes, this`outbuf
      ensures SegStep(Cursor(old(nrNodes), old(outbuf), segmentNr0, box0, false), seg, segmentCount, fmt) ==
              Cursor(nrNodes, outbuf, segmentNr, box, !ok)
    {
      if seg.Line? {
        Out(SegmentText(segmentNr0, seg.from, seg.from, seg.to, seg.to, fmt));
      } else if seg.Cubic? {
        Out(SegmentText(segmentNr0, seg.from, seg.c1, seg.c2, seg.to, fmt));
      } else {
        return false, segmentNr0, box0;
      }
      segmentNr := segmentNr0 + 1;
      nrNodes := nrNodes + 8;
      if segmentNr < segmentCount {
        Out(",\n");
      } else {
        Out("\n");
      }
      box := ExpandTo(box0, seg.to);
      return true, segmentNr, box;
    }

    /** The inner loop of `doCurve` over one subpath, up to `end_closed()`: its segments and its closing line. */
    method WriteSubpath(sp: Subpath, segmentNr0: int, box0: Rect, segmentCount: int, fmt: Format)
      returns (ok: bool, segmentNr: int, box: Rect)
      modifies this`nrNodes, this`outbuf
      ensures var c := RunPath(Cursor(old(nrNodes), old(outbuf), segmentNr0, box0, false), sp, EndClosed, segmentCount, fmt);
              c == Cursor(nrNodes, outbuf, segmentNr, box, !ok)
    {
      ghost var goal := RunPath(Cursor(nrNodes, outbuf, segmentNr0, box0, false), sp, EndClosed, segmentCount, fmt);
      segmentNr := segmentNr0;
      box := ExpandTo(box0, sp.initial);
      var segs := Walk(sp, EndClosed);
      var j := 0;
      while j < |segs|
        invariant 0 <= j <= |segs|
        invariant RunSegs(Cursor(nrNodes, outbuf, segmentNr, box, false), segs[j..], segmentCount, fmt) == goal
      {
        RunSegsAt(Cursor(nrNodes, outbuf, segmentNr, box, false), segs, j, segmentCount, fmt);
        ok, segmentNr, box := WriteSegment(segs[j], segmentNr, box, segmentCount, fmt);
        if !ok {
          return;
        }
        j := j + 1;
      }
      assert segs[j..] == [];
      return true, segmentNr, box;
    }

    /** The outer loop of `doCurve` over the subpaths, starting at the first node's point. */
    method WritePoints(paths: seq<Subpath>, segmentCount: int, fmt: Format) returns (ok: bool, box: Rect)
      requires paths != []
      modifies this`nrNodes, this`outbuf
      ensures var start := paths[0].initial;
              var c := RunPaths(Cursor(old(nrNodes), old(outbuf), 0, Rect(start, start), false), paths, EndClosed, segmentCount, fmt);
              c.nodes == nrNodes && c.out == outbuf && c.box == box && c.failed == !ok
    {
      var segmentNr := 0;
      box := Rect(paths[0].initial, paths[0].initial);
      ghost var goal := RunPaths(Cursor(nrNodes, outbuf, 0, box, false), paths, EndClosed, segmentCount, fmt);
      var k := 0;
      while k < |paths|
        invariant 0 <= k <= |paths|
        invariant RunPaths(Cursor(nrNodes, outbuf, segmentNr, box, false), paths[k..], EndClosed, segmentCount, fmt) == goal
      {
        RunPathsAt(Cursor(nrNodes, outbuf, segmentNr, box, false), paths, k, EndClosed, segmentCount, fmt);
        ok, segmentNr, box := WriteSubpath(paths[k], segmentNr, box, segmentCount, fmt);
        if !ok {
          return;
        }
        k := k + 1;
      }
      assert paths[k..] == [];
      return true, box;
    }

    /** The end of `doCurve`: the document extent grows to take in the shape's bounding box. */
    method Widen(box: Rect)
      modifies this`minx, this`maxx, this`miny, this`maxy
      ensures minx == Min(old(minx), box.lo.x) && maxx == Max(old(maxx), box.hi.x)
      ensures miny == Min(old(miny), box.lo.y) && maxy == Max(old(maxy), box.hi.y)
    {
      if box.lo.x < minx {
        minx := box.lo.x;
      }
      if box.hi.x > maxx {
        maxx := box.hi.x;
      }
      if box.lo.y < miny {
        miny := box.lo.y;
      }
      if box.hi.y > maxy {
        maxy := box.hi.y;
      }
    }

    /** `doCurve(item, id)`: write one shape as a prism and account for it. */
    method DoCurve(obj: ObjKind, id: string, fmt: Format) returns (ok: bool)
      modifies this
      ensures (ok, State()) == CurveSpec(old(State()), obj, id, EndClosed, fmt)
    {
      if !obj.ShapeItem? {
        return true;
      }
      var paths := obj.paths;
      if paths == [] {
        return true;
      }
      ghost var st := State();
      nrShapes := nrShapes + 1;
      povShapes := povShapes + [ShapeInfo(id, obj.color)];
      var segmentCount := CountSegments(paths);
      Out(PrismHead(id, segmentCount, fmt));
      nrSegments := nrSegments + segmentCount;
      ghost var st1 := State();
      assert st1 == st.(nrShapes := st.nrShapes + 1, shapes := st.shapes + [ShapeInfo(id, obj.color)],
                        outbuf := st.outbuf + [PrismHead(id, segmentCount, fmt)], nrSegments := st.nrSegments + segmentCount);
      var box;
      ok, box := WritePoints(paths, segmentCount, fmt);
      ghost var c := RunPaths(Cursor(st1.nrNodes, st1.outbuf, 0, Rect(paths[0].initial, paths[0].initial), false),
                              paths, EndClosed, segmentCount, fmt);
      assert State() == st1.(nrNodes := c.nodes, outbuf := c.out);
      CurveSpecIs(st, obj, id, EndClosed, fmt, segmentCount, st1, c);
      if !ok {
        return false;
      }
      Out(ShapeFoot(id, box, obj.color, fmt));
      Widen(box);
      assert State() == st1.(nrNodes := c.nodes, outbuf := c.out + [ShapeFoot(id, c.box, obj.color, fmt)],
                             minx := Min(st.minx, c.box.lo.x), maxx := Max(st.maxx, c.box.hi.x),
                             miny := Min(st.miny, c.box.lo.y), maxy := Max(st.maxy, c.box.hi.y));
      return true;
    }

    /** `doCurvesRecursive`: `doCurve` on every item with an `id`, in pre-order, stopping at the first failure. */
    method DoCurvesRecursive(node: Node, fmt: Format) returns (ok: bool)
      modifies this
      ensures (ok, State()) == VisitAll(old(State()), PreOrder(node), EndClosed, fmt)
      decreases node
    {
      VisitAllAppend(State(), [node], MatchingAll(node.children, None), EndClosed, fmt);
      assert VisitAll(State(), [node], EndClosed, fmt) == Visit(State(), node, EndClosed, fmt) by {
        assert [node][1..] == [];
      }
      if !node.obj.NotItem? && node.id.Some? {
        ok := DoCurve(node.obj, node.id.value, fmt);
        if !ok {
          return false;
        }
      }
      ghost var afterSelf := State();
      var cs := node.children;
      var i := 0;
      while i < |cs|
        invariant 0 <= i <= |cs|
        invariant VisitAll(State(), MatchingAll(cs[i..], None), EndClosed, fmt) ==
                  VisitAll(afterSelf, MatchingAll(cs, None), EndClosed, fmt)
      {
        assert cs[i..][0] == cs[i] && cs[i..][1..] == cs[i + 1..];
        VisitAllAppend(State(), PreOrder(cs[i]), MatchingAll(cs[i + 1..], None), EndClosed, fmt);
        ok := DoCurvesRecursive(cs[i], fmt);
        if !ok {
          return false;
        }
        i := i + 1;
      }
      return true;
    }

    /** The first loop over `povShapes` in `doCurves`: one object per shape. */
    method WriteUnionMembers(fmt: Format)
      modifies this`outbuf
      ensures outbuf == old(outbuf) + UnionMembers(povShapes, fmt)
    {
      ghost var start := outbuf;
      var i := 0;
      while i < |povShapes|
        invariant 0 <= i <= |povShapes|
        invariant outbuf == start + UnionMembers(povShapes[..i], fmt)
      {
        UnionMembersSnoc(povShapes, i, fmt);
        AppendAssoc(start, UnionMembers(povShapes[..i], fmt), [UnionMember(povShapes[i], fmt)]);
        Out(UnionMember(povShapes[i], fmt));
        i := i + 1;
      }
      assert povShapes[..i] == povShapes;
    }

    /** The second loop over `povShapes` in `doCurves`: one object per shape, each one step higher. */
    method WriteUnionZMembers(fmt: Format)
      modifies this`outbuf
      ensures outbuf == old(outbuf) + UnionZMembers(povShapes, fmt)
    {
      ghost var start := outbuf;
      var i := 0;
      while i < |povShapes|
        invariant 0 <= i <= |povShapes|
        invariant outbuf == start + UnionZMembers(povShapes[..i], fmt)
      {
        UnionZMembersSnoc(povShapes, i, fmt);
        AppendAssoc(start, UnionZMembers(povShapes[..i], fmt), [UnionZMember(povShapes[i], fmt)]);
        Out(UnionZMember(povShapes[i], fmt));
        i := i + 1;
      }
      assert povShapes[..i] == povShapes;
    }

    /** The second half of `doCurves`: the union of all shapes, written when there is at least one. */
    method WriteUnion(fmt: Format)
      modifies this`outbuf
      ensures outbuf == old(outbuf) + CurvesTail(State(), fmt)
    {
      if |povShapes| == 0 {
        assert outbuf + CurvesTail(State(), fmt) == outbuf;
        return;
      }
      ghost var start := outbuf;
      ghost var st := State();
      ghost var box := Rect(Point(minx, miny), Point(maxx, maxy));
      Out(fmt.text.unionHead);
      WriteUnionMembers(fmt);
      var zinc := 0.2 / (|povShapes| as real);
      Out(UnionMiddle(zinc, fmt));
      WriteUnionZMembers(fmt);
      Out(UnionFoot(Rect(Point(minx, miny), Point(maxx, maxy)), fmt));
      assert State() == st.(outbuf := outbuf);
      UnionTextIs(st.shapes, box, fmt, start, outbuf);
    }

    /** `doCurves`: walk the whole document from its root, then write the union of all shapes. */
    method DoCurves(root: Node, fmt: Format) returns (ok: bool)
      modifies this
      ensures (ok, State()) == CurvesSpec(old(State()), root, EndClosed, fmt)
    {
      minx := BigNum;
      maxx := -BigNum;
      miny := BigNum;
      maxy := -BigNum;
      ok := DoCurvesRecursive(root, fmt);
      if !ok {
        return false;
      }
      ghost var st1 := State();
      WriteUnion(fmt);
      assert State() == st1.(outbuf := st1.outbuf + CurvesTail(st1, fmt));
      return true;
    }

    /** `doHeader`; `created` stands for the `ctime` text of the current time. */
    method DoHeader(created: string, version: string, fmt: Format) returns (ok: bool)
      modifies this`outbuf
      ensures ok && outbuf == old(outbuf) + [HeaderText(created, version, nrShapes, nrSegments, nrNodes, fmt)]
    {
      Out(HeaderText(created, version, nrShapes, nrSegments, nrNodes, fmt));
      return true;
    }

    /** `doTail`. */
    method DoTail(fmt: Format) returns (ok: bool)
      modifies this`outbuf
      ensures ok && outbuf == old(outbuf) + [fmt.text.tail]
    {
      Out(fmt.text.tail);
      return true;
    }

    /**
     * The second half of `saveDocument`: the curves written so far are set aside, the header is
     * written into the emptied buffer and the curves and the tail after it.
     */
    method AssembleFile(created: string, version: string, fmt: Format) returns (text: string)
      modifies this`outbuf
      ensures outbuf == [HeaderText(created, version, nrShapes, nrSegments, nrNodes, fmt)] + old(outbuf) + [fmt.text.tail]
      ensures text == Concat(outbuf)
    {
      var curveBuf := outbuf;
      outbuf := [];
      var ok := DoHeader(created, version, fmt);
      assert outbuf == [HeaderText(created, version, nrShapes, nrSegments, nrNodes, fmt)];
      outbuf := outbuf + curveBuf;
      ok := DoTail(fmt);
      text := Concat(outbuf);
    }

    /**
     * `saveDocument`: the text the file receives (`None` when the curves could not be written and
     * no file is written). Writing the buffer to the file is not modelled.
     */
    method SaveDocument(root: Node, created: string, version: string, fmt: Format)
      returns (file: Option<string>)
      modifies this
      ensures file == DocumentText(old(State()), root, created, version, EndClosed, fmt)
      ensures file.Some? ==> Concat(outbuf) == file.value
    {
      Reset();
      var ok := DoCurves(root, fmt);
      if !ok {
        return None;
      }
      var text := AssembleFile(created, version, fmt);
      file := Some(text);
    }
  }
}
