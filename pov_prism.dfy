/**
 * What the PovRay exporter (src/extension/internal/pov-out.cpp) reads and writes, as values:
 * the XML tree it walks, the shapes' paths reduced to line and cubic segments, the text it
 * emits, and the bookkeeping of one shape (`doCurve`) and of a whole walk (`doCurvesRecursive`)
 * as functions of the exporter's state.
 */
module PovPrism {
  import opened Wrappers
  import opened Geometry

  // ---------------------------------------------------------------- the document

  /** A path segment after conversion to lines and cubic Béziers; anything else is `OtherCurve`. */
  datatype Segment =
    | Line(from: Point, to: Point)
    | Cubic(from: Point, c1: Point, c2: Point, to: Point)
    | OtherCurve(from: Point, to: Point)

  /** A subpath: its start point, its segments and whether it is closed. */
  datatype Subpath = Subpath(initial: Point, segments: seq<Segment>, closed: bool) {
    function Final(): Point {
      if segments == [] then initial else segments[|segments| - 1].to
    }
  }

  /** What the object behind an XML node is: no item, an item that is not a shape, or a shape. */
  datatype ObjKind =
    | NotItem
    | OtherItem
    | ShapeItem(paths: seq<Subpath>, color: string)

  /** An XML node: its element name, its `id` attribute, the object it stands for and its children. */
  datatype Node = Node(name: string, id: Option<string>, obj: ObjKind, children: seq<Node>)

  // ---------------------------------------------------------------- findElementsByTagName

  /** The nodes of the tree under `n`, in pre-order, whose name is `name` (all of them for `None`). */
  function Matching(n: Node, name: Option<string>): seq<Node>
    decreases n
  {
    (if name.None? || n.name == name.value then [n] else []) + MatchingAll(n.children, name)
  }

  function MatchingAll(cs: seq<Node>, name: Option<string>): seq<Node>
    decreases cs
  {
    if cs == [] then [] else Matching(cs[0], name) + MatchingAll(cs[1..], name)
  }

  /** The tree in pre-order. */
  function PreOrder(n: Node): seq<Node> {
    Matching(n, None)
  }

  function Named(ns: seq<Node>, name: string): (r: seq<Node>)
    ensures forall i :: 0 <= i < |r| ==> r[i].name == name
    ensures |r| <= |ns|
  {
    if ns == [] then []
    else (if ns[0].name == name then [ns[0]] else []) + Named(ns[1..], name)
  }

  lemma NamedAppend(a: seq<Node>, b: seq<Node>, name: string)
    ensures Named(a + b, name) == Named(a, name) + Named(b, name)
  {
    if a != [] {
      assert (a + b)[1..] == a[1..] + b;
      NamedAppend(a[1..], b, name);
    } else {
      assert a + b == b;
    }
  }

  /** Searching by name gives exactly the named nodes of the pre-order, in pre-order. */
  lemma {:induction false} MatchingIsNamedPreOrder(n: Node, name: string)
    ensures Matching(n, Some(name)) == Named(PreOrder(n), name)
    decreases n
  {
    MatchingAllIsNamed(n.children, name);
    NamedAppend([n], MatchingAll(n.children, None), name);
  }

  lemma {:induction false} MatchingAllIsNamed(cs: seq<Node>, name: string)
    ensures MatchingAll(cs, Some(name)) == Named(MatchingAll(cs, None), name)
    decreases cs
  {
    if cs != [] {
      MatchingIsNamedPreOrder(cs[0], name);
      MatchingAllIsNamed(cs[1..], name);
      NamedAppend(Matching(cs[0], None), MatchingAll(cs[1..], None), name);
    }
  }

  /** The root comes first, then the trees of the children one after another. */
  lemma PreOrderStartsAtRoot(n: Node)
    ensures |PreOrder(n)| >= 1 && PreOrder(n)[0] == n
  {
  }

  // ---------------------------------------------------------------- emitted text

  function DigitChar(d: nat): char
    requires d < 10
  {
    ('0' as int + d) as char
  }

  /** `%u` of a natural number. */
  function Digits(n: nat): string {
    if n < 10 then [DigitChar(n)] else Digits(n / 10) + [DigitChar(n % 10)]
  }

  /** `%u` writes at least one character, and only decimal digits. */
  lemma {:induction false} DigitsShape(n: nat)
    ensures |Digits(n)| >= 1
    ensures forall i :: 0 <= i < |Digits(n)| ==> '0' <= Digits(n)[i] <= '9'
  {
    if n >= 10 {
      DigitsShape(n / 10);
      var d := Digits(n / 10);
      assert Digits(n) == d + [DigitChar(n % 10)];
      assert forall i :: 0 <= i < |d| ==> Digits(n)[i] == d[i];
    }
  }

  /** `%d`. */
  function IntText(i: int): string {
    if i < 0 then "-" + Digits(-i) else Digits(i)
  }

  /** `%4d`: right-aligned in four columns. */
  function Pad4(i: int): string {
    var t := IntText(i);
    if |t| >= 4 then t else seq(4 - |t|, _ => ' ') + t
  }

  /** `%4d` is at least four columns wide, and exactly four for numbers of at most four characters. */
  lemma Pad4Width(i: int)
    ensures |Pad4(i)| >= 4
    ensures |IntText(i)| <= 4 ==> |Pad4(i)| == 4
  {
  }

  /**
   * The exporter's buffer is kept as the pieces of text appended to it, in order; the text of
   * the buffer is their concatenation.
   */
  function Concat(ps: seq<string>): string
    decreases |ps|
  {
    if ps == [] then "" else Concat(ps[..|ps| - 1]) + ps[|ps| - 1]
  }

  /** Appending pieces appends their text. */
  lemma {:induction false} ConcatAppend(a: seq<string>, b: seq<string>)
    ensures Concat(a + b) == Concat(a) + Concat(b)
    decreases |b|
  {
    if b == [] {
      assert a + b == a;
    } else {
      var b' := b[..|b| - 1];
      assert (a + b)[..|a + b| - 1] == a + b';
      ConcatAppend(a, b');
      assert Concat(a) + Concat(b') + b[|b| - 1] == Concat(a) + (Concat(b') + b[|b| - 1]);
    }
  }

  predicate EndsWith(s: string, t: string) {
    |t| <= |s| && s[|s| - |t|..] == t
  }

  /** The last two pieces are a text ending in `>` and then `sep`. */
  predicate EndsWithNode(ps: seq<string>, sep: string) {
    |ps| >= 2 && EndsWith(ps[|ps| - 2], ">") && ps[|ps| - 1] == sep
  }

  /** Then the buffer's text ends with `>` and `sep`. */
  lemma EndsWithNodeText(ps: seq<string>, sep: string)
    requires EndsWithNode(ps, sep)
    ensures EndsWith(Concat(ps), ">" + sep)
  {
    var n := |ps|;
    var init := ps[..n - 1];
    assert init[..n - 2] == ps[..n - 2];
    var a := Concat(ps[..n - 2]) + ps[n - 2];
    assert Concat(ps) == a + sep;
    assert a[|a| - 1] == '>';
    assert (a + sep)[|a + sep| - (|sep| + 1)..] == [a[|a| - 1]] + sep;
  }

  /** A rule of `n` hash signs, as in the file's comment banners. */
  function Rule(n: nat): string {
    seq(n, _ => '#')
  }

  /**
   * The fixed lines of the file, between the parts that depend on the document. `PovText` holds
   * the exporter's own lines; everything proved about the exporter holds for any such text.
   */
  datatype Boilerplate = Boilerplate(
    headerTop: string, versionLabel: string, headerNotes: string,
    segmentsLabel: string, nodesLabel: string, headerEnd: string,
    tail: string,
    prismTitle: string, prismDeclare: string, prismBody: string, prismPoints: string,
    blockClose: string, declare: string, lineEnd: string,
    minX: string, centerX: string, maxX: string, width: string,
    minY: string, centerY: string, maxY: string, height: string,
    colorLabel: string, shapeEnd: string, shapeEndRule: string,
    pigmentOpen: string, pigmentClose: string, pigmentBlack: string,
    unionHead: string, objectOpen: string, textureOpen: string,
    memberClose: string, zMemberClose: string,
    unionMiddle: string, zUnion: string, unionEnd: string, unionEndRule: string)

  /** How numbers are written (`dstr`, not modelled) and the fixed lines of the file. */
  datatype Format = Format(dstr: real -> string, text: Boilerplate)

  const UnionId: string := "AllShapes"

  /** The lines `doHeader`, `doCurve`, `doCurves` and `doTail` write around the document's data. */
  const PovText: Boilerplate := Boilerplate(
    headerTop :=
      "/*" + Rule(67) + "\n" +
      "### This PovRay document was generated by Inkscape\n" +
      "### http://www.inkscape.org\n" +
      "### Created: ",
    versionLabel := "### Version: ",
    headerNotes :=
      "\n" + Rule(69) + "\n" +
      "### NOTES:\n" +
      "### ============\n" +
      "### POVRay information can be found at\n" +
      "### http://www.povray.org\n" +
      "###\n" +
      "### The 'AllShapes' objects at the bottom are provided as a\n" +
      "### preview of how the output would look in a trace.  However,\n" +
      "### the main intent of this file is to provide the individual\n" +
      "### shapes for inclusion in a POV project.\n" +
      "###\n" +
      "### For an example of how to use this file, look at\n" +
      "### share/examples/istest.pov\n" +
      "###\n" +
      "### If you have any problems with this output, please see the\n" +
      "### Inkscape project at http://www.inkscape.org, or visit\n" +
      "### the #inkscape channel on irc.freenode.net . \n" +
      "###\n" +
      Rule(67) + "*/\n" +
      "\n\n" +
      "/*" + Rule(67) + "\n" +
      "##   Exports in this file\n" +
      "##==========================\n" +
      "##    Shapes   : ",
    segmentsLabel := "\n##    Segments : ",
    nodesLabel := "\n##    Nodes    : ",
    headerEnd := "\n" + Rule(67) + "*/\n" + "\n\n\n",
    tail :=
      "\n\n" +
      "/*" + Rule(67) + "\n" +
      "### E N D    F I L E\n" +
      Rule(67) + "*/\n" +
      "\n\n",
    prismTitle := "/*" + Rule(51) + "\n" + "### PRISM:  ",
    prismDeclare := "\n" + Rule(51) + "*/\n" + "#declare ",
    prismBody :=
      " = prism {\n" +
      "    linear_sweep\n" +
      "    bezier_spline\n" +
      "    1.0, //top\n" +
      "    0.0, //bottom\n" +
      "    ",
    prismPoints := " //nr points\n",
    blockClose := "}\n",
    declare := "#declare ",
    lineEnd := ";\n",
    minX := "_MIN_X    = ", centerX := "_CENTER_X = ", maxX := "_MAX_X    = ", width := "_WIDTH    = ",
    minY := "_MIN_Y    = ", centerY := "_CENTER_Y = ", maxY := "_MAX_Y    = ", height := "_HEIGHT   = ",
    colorLabel := "_COLOR    = ",
    shapeEnd := "/*" + Rule(51) + "\n" + "### end ",
    shapeEndRule := "\n" + Rule(51) + "*/\n\n\n\n",
    pigmentOpen := "            pigment { ",
    pigmentClose := " }\n",
    pigmentBlack := "            pigment { rgb <0,0,0> }\n",
    unionHead :=
      "/*" + Rule(51) + "\n" +
      "### UNION OF ALL SHAPES IN DOCUMENT\n" +
      Rule(51) + "*/\n" +
      "\n\n" +
      "/**\n" +
      " * Allow the user to redefine the finish{}\n" +
      " * by declaring it before #including this file\n" +
      " */\n" +
      "#ifndef (" + UnionId + "_Finish)\n" +
      "#declare " + UnionId + "_Finish = finish {\n" +
      "    phong 0.5\n" +
      "    reflection 0.3\n" +
      "    specular 0.5\n" +
      "}\n" +
      "#end\n" +
      "\n\n" +
      "#declare " + UnionId + " = union {\n",
    objectOpen := "    object { ",
    textureOpen := "\n" + "        texture { \n",
    memberClose :=
      "            finish { " + UnionId + "_Finish }\n" +
      "            } \n" +
      "        } \n",
    zMemberClose :=
      "            finish { " + UnionId + "_Finish }\n" +
      "            } \n" +
      "        scale <1, " + UnionId + "_Z_Scale, 1>\n" +
      "        } \n" +
      "#declare " + UnionId + "_Z_Scale = " + UnionId + "_Z_Scale + " + UnionId + "_Z_Increment;\n\n",
    unionMiddle :=
      "}\n\n\n\n" +
      "/*#### Same union, but with Z-diffs (actually Y in pov) ####*/\n" +
      "\n\n" +
      "/**\n" +
      " * Allow the user to redefine the Z-Increment\n" +
      " */\n" +
      "#ifndef (AllShapes_Z_Increment)\n" +
      "#declare AllShapes_Z_Increment = ",
    zUnion :=
      ";\n" +
      "#end\n" +
      "\n" +
      "#declare AllShapes_Z_Scale = 1.0;\n" +
      "\n\n" +
      "#declare " + UnionId + "_Z = union {\n",
    unionEnd := "/*" + Rule(46) + "\n" + "### end ",
    unionEndRule := "\n" + Rule(46) + "*/\n" + "\n\n")

  /** `vec2`: a point in angle brackets, coordinates written by the (not modelled) `dstr`. */
  function Vec2(p: Point, fmt: Format): string {
    "<" + fmt.dstr(p.x) + ", " + fmt.dstr(p.y) + ">"
  }

  /** `segment`: one Bézier's four nodes after its number. */
  function SegmentText(nr: int, p0: Point, p1: Point, p2: Point, p3: Point, fmt: Format): string {
    "    /*" + Pad4(nr) + "*/ " + Vec2(p0, fmt) + ", " + Vec2(p1, fmt) + ", " + Vec2(p2, fmt) + ", " + Vec2(p3, fmt)
  }

  /** A segment's text ends with the closing bracket of its last node. */
  lemma SegmentTextEnds(nr: int, p0: Point, p1: Point, p2: Point, p3: Point, fmt: Format)
    ensures var r := SegmentText(nr, p0, p1, p2, p3, fmt); |r| > 0 && r[|r| - 1] == '>'
  {
  }

  /** What follows a segment: a comma while more segments of the shape are to come. */
  function Separator(segmentNr: int, segmentCount: int): string {
    if segmentNr < segmentCount then ",\n" else "\n"
  }

  function PrismHead(id: string, segmentCount: int, fmt: Format): string {
    var t := fmt.text;
    t.prismTitle + id + t.prismDeclare + id + t.prismBody + IntText(segmentCount * 4) + t.prismPoints
  }

  /** One `#declare <id><label><value>;` line. */
  function Declare(id: string, field: string, value: string, fmt: Format): string {
    fmt.text.declare + id + field + value + fmt.text.lineEnd
  }

  /** The extent declarations shared by a shape and the union of all shapes. */
  function Extents(id: string, box: Rect, fmt: Format): string {
    var t := fmt.text;
    Declare(id, t.minX, fmt.dstr(box.lo.x), fmt) +
    Declare(id, t.centerX, fmt.dstr((box.hi.x + box.lo.x) / 2.0), fmt) +
    Declare(id, t.maxX, fmt.dstr(box.hi.x), fmt) +
    Declare(id, t.width, fmt.dstr(box.hi.x - box.lo.x), fmt) +
    Declare(id, t.minY, fmt.dstr(box.lo.y), fmt) +
    Declare(id, t.centerY, fmt.dstr((box.hi.y + box.lo.y) / 2.0), fmt) +
    Declare(id, t.maxY, fmt.dstr(box.hi.y), fmt) +
    Declare(id, t.height, fmt.dstr(box.hi.y - box.lo.y), fmt)
  }

  function ShapeFoot(id: string, box: Rect, color: string, fmt: Format): string {
    var t := fmt.text;
    t.blockClose + Extents(id, box, fmt) +
    (if |color| > 0 then Declare(id, t.colorLabel, color, fmt) else "") +
    t.shapeEnd + id + t.shapeEndRule
  }

  /** The file header; `created` is the `ctime` text (with its newline) and `version` the program version. */
  function HeaderText(created: string, version: string, nrShapes: int, nrSegments: int, nrNodes: int, fmt: Format): string {
    var t := fmt.text;
    t.headerTop + created + t.versionLabel + version + t.headerNotes +
    IntText(nrShapes) + t.segmentsLabel + IntText(nrSegments) + t.nodesLabel + IntText(nrNodes) + t.headerEnd
  }

  /** `PovShapeInfo`: a shape's identifier and its pigment text ("" when it has no flat fill colour). */
  datatype ShapeInfo = ShapeInfo(id: string, color: string)

  function Pigment(s: ShapeInfo, fmt: Format): string {
    if |s.color| > 0 then fmt.text.pigmentOpen + s.color + fmt.text.pigmentClose
    else fmt.text.pigmentBlack
  }

  function UnionMember(s: ShapeInfo, fmt: Format): string {
    fmt.text.objectOpen + s.id + fmt.text.textureOpen + Pigment(s, fmt) + fmt.text.memberClose
  }

  function UnionMembers(ss: seq<ShapeInfo>, fmt: Format): seq<string>
    decreases |ss|
  {
    if ss == [] then [] else UnionMembers(ss[..|ss| - 1], fmt) + [UnionMember(ss[|ss| - 1], fmt)]
  }

  /** One more shape adds its object after the others. */
  lemma UnionMembersSnoc(ss: seq<ShapeInfo>, i: nat, fmt: Format)
    requires i < |ss|
    ensures UnionMembers(ss[..i + 1], fmt) == UnionMembers(ss[..i], fmt) + [UnionMember(ss[i], fmt)]
  {
    assert ss[..i + 1][..i] == ss[..i];
  }

  function UnionMiddle(zinc: real, fmt: Format): string {
    fmt.text.unionMiddle + fmt.dstr(zinc) + fmt.text.zUnion
  }

  function UnionZMember(s: ShapeInfo, fmt: Format): string {
    fmt.text.objectOpen + s.id + fmt.text.textureOpen + Pigment(s, fmt) + fmt.text.zMemberClose
  }

  function UnionZMembers(ss: seq<ShapeInfo>, fmt: Format): seq<string>
    decreases |ss|
  {
    if ss == [] then [] else UnionZMembers(ss[..|ss| - 1], fmt) + [UnionZMember(ss[|ss| - 1], fmt)]
  }

  lemma UnionZMembersSnoc(ss: seq<ShapeInfo>, i: nat, fmt: Format)
    requires i < |ss|
    ensures UnionZMembers(ss[..i + 1], fmt) == UnionZMembers(ss[..i], fmt) + [UnionZMember(ss[i], fmt)]
  {
    assert ss[..i + 1][..i] == ss[..i];
  }

  function UnionFoot(box: Rect, fmt: Format): string {
    fmt.text.blockClose + Extents(UnionId, box, fmt) + fmt.text.unionEnd + UnionId + fmt.text.unionEndRule
  }

  /** The union of all shapes `doCurves` appends when there is at least one shape. */
  function UnionText(ss: seq<ShapeInfo>, box: Rect, fmt: Format): seq<string>
    requires |ss| > 0
  {
    [fmt.text.unionHead] + UnionMembers(ss, fmt) + [UnionMiddle(0.2 / (|ss| as real), fmt)] + UnionZMembers(ss, fmt) + [UnionFoot(box, fmt)]
  }

  // ---------------------------------------------------------------- one shape: doCurve

  /**
   * Where 2geom's iteration over a subpath's segments stops: `end_default()` takes the closing
   * line in only when the subpath is closed, `end_closed()` always takes it in.
   */
  datatype WalkEnd = EndDefault | EndClosed

  /** The segments visited from `begin()` up to `end`: the segments, then perhaps the closing line. */
  function Walk(sp: Subpath, end: WalkEnd): (r: seq<Segment>)
    ensures |r| == |sp.segments| + (if sp.closed || end.EndClosed? then 1 else 0)
    ensures r[..|sp.segments|] == sp.segments
  {
    sp.segments + if sp.closed || end.EndClosed? then [Line(sp.Final(), sp.initial)] else []
  }

  /** What the counting loop adds for one subpath: `size()`, and one more when it is closed. */
  function Counted(sp: Subpath): nat {
    |sp.segments| + if sp.closed then 1 else 0
  }

  /** The `segmentCount` of a path vector: every segment, counting each closing line. */
  function SegmentCount(ps: seq<Subpath>): nat
    decreases |ps|
  {
    if ps == [] then 0 else SegmentCount(ps[..|ps| - 1]) + Counted(ps[|ps| - 1])
  }

  /** The number of segments the walk visits. */
  function WalkCount(ps: seq<Subpath>, end: WalkEnd): nat
    decreases |ps|
  {
    if ps == [] then 0 else WalkCount(ps[..|ps| - 1], end) + |Walk(ps[|ps| - 1], end)|
  }

  /** The number of open subpaths. */
  function OpenCount(ps: seq<Subpath>): nat
    decreases |ps|
  {
    if ps == [] then 0 else OpenCount(ps[..|ps| - 1]) + if ps[|ps| - 1].closed then 0 else 1
  }

  /**
   * Walking to `end_default()` visits exactly the counted segments; walking to `end_closed()`
   * visits one segment more for each open subpath.
   */
  lemma {:induction false} WalkCountIs(ps: seq<Subpath>, end: WalkEnd)
    ensures WalkCount(ps, end) == SegmentCount(ps) + if end.EndClosed? then OpenCount(ps) else 0
    decreases |ps|
  {
    if ps != [] {
      WalkCountIs(ps[..|ps| - 1], end);
    }
  }

  /** `Geom::Rect::expandTo`. */
  function ExpandTo(r: Rect, p: Point): (e: Rect)
    ensures e.lo.x <= r.lo.x && e.lo.y <= r.lo.y && e.hi.x >= r.hi.x && e.hi.y >= r.hi.y
    ensures e.lo.x <= p.x <= e.hi.x || r.lo.x > r.hi.x
    ensures e.lo.y <= p.y <= e.hi.y || r.lo.y > r.hi.y
  {
    Rect(Point(Min(r.lo.x, p.x), Min(r.lo.y, p.y)), Point(Max(r.hi.x, p.x), Max(r.hi.y, p.y)))
  }

  predicate Contains(r: Rect, p: Point) {
    r.lo.x <= p.x <= r.hi.x && r.lo.y <= p.y <= r.hi.y
  }

  /**
   * Where `doCurve` is within a shape: the exporter's node counter and buffer, the number of the
   * next segment, the shape's extent so far, and whether an unexpected segment stopped it.
   */
  datatype Cursor = Cursor(nodes: int, out: seq<string>, segmentNr: int, box: Rect, failed: bool)

  /** One segment: a line or cubic is written with its separator, anything else stops the shape. */
  function SegStep(c: Cursor, seg: Segment, count: int, fmt: Format): Cursor {
    match seg
    case OtherCurve(_, _) => c.(failed := true)
    case Line(p0, p1) =>
      var nr := c.segmentNr + 1;
      Cursor(c.nodes + 8, c.out + [SegmentText(c.segmentNr, p0, p0, p1, p1, fmt)] + [Separator(nr, count)],
             nr, ExpandTo(c.box, p1), false)
    case Cubic(p0, p1, p2, p3) =>
      var nr := c.segmentNr + 1;
      Cursor(c.nodes + 8, c.out + [SegmentText(c.segmentNr, p0, p1, p2, p3, fmt)] + [Separator(nr, count)],
             nr, ExpandTo(c.box, p3), false)
  }

  function RunSegs(c: Cursor, segs: seq<Segment>, count: int, fmt: Format): Cursor
    decreases |segs|
  {
    if segs == [] then c
    else
      var c' := SegStep(c, segs[0], count, fmt);
      if c'.failed then c' else RunSegs(c', segs[1..], count, fmt)
  }

  function RunPath(c: Cursor, sp: Subpath, end: WalkEnd, count: int, fmt: Format): Cursor {
    RunSegs(c.(box := ExpandTo(c.box, sp.initial)), Walk(sp, end), count, fmt)
  }

  function RunPaths(c: Cursor, ps: seq<Subpath>, end: WalkEnd, count: int, fmt: Format): Cursor
    decreases |ps|
  {
    if ps == [] then c
    else
      var c' := RunPath(c, ps[0], end, count, fmt);
      if c'.failed then c' else RunPaths(c', ps[1..], end, count, fmt)
  }

  /** One step of `RunSegs` from position `k`. */
  lemma RunSegsAt(c: Cursor, segs: seq<Segment>, k: nat, count: int, fmt: Format)
    requires k < |segs|
    ensures RunSegs(c, segs[k..], count, fmt) ==
            var c' := SegStep(c, segs[k], count, fmt); if c'.failed then c' else RunSegs(c', segs[k + 1..], count, fmt)
  {
    assert segs[k..][0] == segs[k] && segs[k..][1..] == segs[k + 1..];
  }

  /** One step of `RunPaths` from position `k`. */
  lemma RunPathsAt(c: Cursor, ps: seq<Subpath>, k: nat, end: WalkEnd, count: int, fmt: Format)
    requires k < |ps|
    ensures RunPaths(c, ps[k..], end, count, fmt) ==
            var c' := RunPath(c, ps[k], end, count, fmt); if c'.failed then c' else RunPaths(c', ps[k + 1..], end, count, fmt)
  {
    assert ps[k..][0] == ps[k] && ps[k..][1..] == ps[k + 1..];
  }

  /** The exporter's fields. */
  datatype PovState = PovState(
    nrNodes: int, nrSegments: int, nrShapes: int,
    outbuf: seq<string>, shapes: seq<ShapeInfo>,
    minx: real, maxx: real, miny: real, maxy: real)

  /**
   * `doCurve(item, id)`, its segment loop running to `end`: `(true, st)` unchanged for an item
   * that is not a shape or has an empty curve; otherwise the shape's prism is written and counted.
   * The result is `false` when a segment is neither a line nor a cubic, with the state as far as
   * the walk got.
   */
  function CurveSpec(st: PovState, obj: ObjKind, id: string, end: WalkEnd, fmt: Format): (bool, PovState) {
    if !obj.ShapeItem? || obj.paths == [] then (true, st)
    else
      var count := SegmentCount(obj.paths);
      var st1 := st.(nrShapes := st.nrShapes + 1, shapes := st.shapes + [ShapeInfo(id, obj.color)],
                     outbuf := st.outbuf + [PrismHead(id, count, fmt)], nrSegments := st.nrSegments + count);
      var start := obj.paths[0].initial;
      var c := RunPaths(Cursor(st1.nrNodes, st1.outbuf, 0, Rect(start, start), false), obj.paths, end, count, fmt);
      if c.failed then (false, st1.(nrNodes := c.nodes, outbuf := c.out))
      else
        (true, st1.(nrNodes := c.nodes, outbuf := c.out + [ShapeFoot(id, c.box, obj.color, fmt)],
                    minx := Min(st.minx, c.box.lo.x), maxx := Max(st.maxx, c.box.hi.x),
                    miny := Min(st.miny, c.box.lo.y), maxy := Max(st.maxy, c.box.hi.y)))
  }

  // ---------------------------------------------------------------- properties of doCurve

  predicate IsDrawable(seg: Segment) { seg.Line? || seg.Cubic? }

  predicate AllDrawable(ps: seq<Subpath>, end: WalkEnd) {
    forall k, j :: 0 <= k < |ps| && 0 <= j < |Walk(ps[k], end)| ==> IsDrawable(Walk(ps[k], end)[j])
  }

  /** Counters over a run of segments: 8 nodes and one number per segment, unless it stopped. */
  lemma {:induction false} RunSegsCounts(c: Cursor, segs: seq<Segment>, count: int, fmt: Format)
    requires !c.failed
    ensures var r := RunSegs(c, segs, count, fmt);
            !r.failed <==> forall j :: 0 <= j < |segs| ==> IsDrawable(segs[j])
    ensures var r := RunSegs(c, segs, count, fmt);
            !r.failed ==> r.nodes == c.nodes + 8 * |segs| && r.segmentNr == c.segmentNr + |segs|
    decreases |segs|
  {
    if segs != [] {
      var c' := SegStep(c, segs[0], count, fmt);
      if !c'.failed {
        RunSegsCounts(c', segs[1..], count, fmt);
        assert forall j :: 1 <= j < |segs| ==> segs[j] == segs[1..][j - 1];
      }
    }
  }

  lemma WalkCountFront(ps: seq<Subpath>, end: WalkEnd)
    requires ps != []
    ensures WalkCount(ps, end) == |Walk(ps[0], end)| + WalkCount(ps[1..], end)
    decreases |ps|
  {
    if |ps| > 1 {
      WalkCountFront(ps[..|ps| - 1], end);
      assert ps[..|ps| - 1][1..] == ps[1..][..|ps[1..]| - 1];
      assert ps[..|ps| - 1][0] == ps[0];
    } else {
      assert ps[1..] == [];
    }
  }

  /** Over the subpaths: 8 nodes and one number per walked segment, unless a segment stopped it. */
  lemma {:induction false} RunPathsCounts(c: Cursor, ps: seq<Subpath>, end: WalkEnd, count: int, fmt: Format)
    requires !c.failed
    ensures var r := RunPaths(c, ps, end, count, fmt);
            !r.failed <==> AllDrawable(ps, end)
    ensures var r := RunPaths(c, ps, end, count, fmt);
            !r.failed ==> r.nodes == c.nodes + 8 * WalkCount(ps, end) && r.segmentNr == c.segmentNr + WalkCount(ps, end)
    decreases |ps|
  {
    if ps != [] {
      var c1 := c.(box := ExpandTo(c.box, ps[0].initial));
      RunSegsCounts(c1, Walk(ps[0], end), count, fmt);
      WalkCountFront(ps, end);
      var c' := RunPath(c, ps[0], end, count, fmt);
      if !c'.failed {
        RunPathsCounts(c', ps[1..], end, count, fmt);
        assert forall k :: 1 <= k < |ps| ==> ps[k] == ps[1..][k - 1];
      }
    }
  }

  /**
   * `doCurve` on a shape: it fails exactly when a walked segment is neither a line nor a cubic;
   * it counts one shape and the path's segment count, and when it succeeds it adds 8 nodes per
   * counted segment, and 8 more per open subpath when the walk runs to `end_closed()`.
   */
  lemma CurveCounters(st: PovState, paths: seq<Subpath>, color: string, id: string, end: WalkEnd, fmt: Format)
    requires paths != []
    ensures var (ok, st') := CurveSpec(st, ShapeItem(paths, color), id, end, fmt);
            (ok <==> AllDrawable(paths, end)) &&
            st'.nrShapes == st.nrShapes + 1 && st'.shapes == st.shapes + [ShapeInfo(id, color)] &&
            st'.nrSegments == st.nrSegments + SegmentCount(paths) &&
            (ok ==> st'.nrNodes == st.nrNodes + 8 * SegmentCount(paths) + if end.EndClosed? then 8 * OpenCount(paths) else 0)
  {
    var start := paths[0].initial;
    var st1 := st.(outbuf := st.outbuf + [PrismHead(id, SegmentCount(paths), fmt)]);
    RunPathsCounts(Cursor(st.nrNodes, st1.outbuf, 0, Rect(start, start), false), paths, end, SegmentCount(paths), fmt);
    WalkCountIs(paths, end);
  }

  /** An item that is not a shape, or a shape with an empty curve, changes nothing. */
  lemma CurveSkips(st: PovState, obj: ObjKind, id: string, end: WalkEnd, fmt: Format)
    requires !obj.ShapeItem? || obj.paths == []
    ensures CurveSpec(st, obj, id, end, fmt) == (true, st)
  {
  }

  /** After a run that wrote at least one segment, the text ends with a node and that segment's separator. */
  lemma {:induction false} RunSegsEnds(c: Cursor, segs: seq<Segment>, count: int, fmt: Format)
    requires !c.failed && segs != []
    ensures var r := RunSegs(c, segs, count, fmt);
            !r.failed ==> EndsWithNode(r.out, Separator(r.segmentNr, count))
    decreases |segs|
  {
    var c' := SegStep(c, segs[0], count, fmt);
    if !c'.failed {
      if |segs| > 1 {
        RunSegsEnds(c', segs[1..], count, fmt);
      } else {
        assert RunSegs(c, segs, count, fmt) == c';
        var sep := Separator(c'.segmentNr, count);
        var s := segs[0];
        var text;
        if s.Line? {
          text := SegmentText(c.segmentNr, s.from, s.from, s.to, s.to, fmt);
          SegmentTextEnds(c.segmentNr, s.from, s.from, s.to, s.to, fmt);
        } else {
          text := SegmentText(c.segmentNr, s.from, s.c1, s.c2, s.to, fmt);
          SegmentTextEnds(c.segmentNr, s.from, s.c1, s.c2, s.to, fmt);
        }
        assert c'.out == c.out + [text] + [sep];
        assert EndsWith(text, ">") by {
          assert text[|text| - 1..] == [text[|text| - 1]];
        }
      }
    }
  }

  /** A run over subpaths whose walk visits no segment writes nothing and numbers nothing. */
  lemma {:induction false} RunPathsEmpty(c: Cursor, ps: seq<Subpath>, end: WalkEnd, count: int, fmt: Format)
    requires WalkCount(ps, end) == 0 && !c.failed
    ensures var r := RunPaths(c, ps, end, count, fmt);
            !r.failed && r.out == c.out && r.segmentNr == c.segmentNr
    decreases |ps|
  {
    if ps != [] {
      WalkCountFront(ps, end);
      RunPathsEmpty(RunPath(c, ps[0], end, count, fmt), ps[1..], end, count, fmt);
    }
  }

  lemma {:induction false} RunPathsEnds(c: Cursor, ps: seq<Subpath>, end: WalkEnd, count: int, fmt: Format)
    requires !c.failed && WalkCount(ps, end) > 0
    ensures var r := RunPaths(c, ps, end, count, fmt);
            !r.failed ==> EndsWithNode(r.out, Separator(r.segmentNr, count))
    decreases |ps|
  {
    WalkCountFront(ps, end);
    var c1 := c.(box := ExpandTo(c.box, ps[0].initial));
    var c' := RunPath(c, ps[0], end, count, fmt);
    if !c'.failed {
      if WalkCount(ps[1..], end) > 0 {
        RunPathsEnds(c', ps[1..], end, count, fmt);
      } else {
        RunSegsEnds(c1, Walk(ps[0], end), count, fmt);
        RunPathsEmpty(c', ps[1..], end, count, fmt);
      }
    }
  }

  /**
   * Segments numbered below the count are followed by ",\n" and the others by "\n". The walk
   * numbers at least the counted segments (exactly those when it runs to `end_default()`, one
   * more per open subpath to `end_closed()`), so the prism's point list, just before its closing
   * brace, ends with a node and a newline.
   */
  lemma PointListEnds(st: PovState, paths: seq<Subpath>, color: string, id: string, end: WalkEnd, fmt: Format)
    requires paths != [] && SegmentCount(paths) > 0
    ensures var count := SegmentCount(paths);
            var start := paths[0].initial;
            var c := RunPaths(Cursor(st.nrNodes, st.outbuf + [PrismHead(id, count, fmt)], 0, Rect(start, start), false),
                              paths, end, count, fmt);
            !c.failed ==>
              c.segmentNr == count + (if end.EndClosed? then OpenCount(paths) else 0) && EndsWith(Concat(c.out), ">\n") &&
              CurveSpec(st, ShapeItem(paths, color), id, end, fmt).1.outbuf == c.out + [ShapeFoot(id, c.box, color, fmt)]
  {
    var count := SegmentCount(paths);
    var start := paths[0].initial;
    var c0 := Cursor(st.nrNodes, st.outbuf + [PrismHead(id, count, fmt)], 0, Rect(start, start), false);
    WalkCountIs(paths, end);
    RunPathsCounts(c0, paths, end, count, fmt);
    RunPathsEnds(c0, paths, end, count, fmt);
    var c := RunPaths(c0, paths, end, count, fmt);
    if !c.failed {
      EndsWithNodeText(c.out, "\n");
    }
  }

  /**
   * Walking to `end_default()`, the prism keeps its word: it declares four points per counted
   * segment and writes exactly one four-point node line per counted segment, eight nodes each.
   */
  lemma PrismPointsAgree(st: PovState, paths: seq<Subpath>, color: string, id: string, fmt: Format)
    requires paths != []
    ensures var count := SegmentCount(paths);
            var start := paths[0].initial;
            var c := RunPaths(Cursor(st.nrNodes, st.outbuf + [PrismHead(id, count, fmt)], 0, Rect(start, start), false),
                              paths, EndDefault, count, fmt);
            !c.failed ==> 4 * c.segmentNr == count * 4 && c.nodes == st.nrNodes + 8 * count
  {
    var count := SegmentCount(paths);
    var start := paths[0].initial;
    WalkCountIs(paths, EndDefault);
    RunPathsCounts(Cursor(st.nrNodes, st.outbuf + [PrismHead(id, count, fmt)], 0, Rect(start, start), false),
                   paths, EndDefault, count, fmt);
  }

  /**
   * Walking to `end_closed()` as `doCurve` does, the open subpath M 0,0 L 10,0 L 10,10 is
   * counted as two segments ("8 //nr points", `nrSegments` 2) but written as three node lines,
   * the last being the closing line back to the start, with 24 nodes.
   */
  lemma OpenPrismMiscounts(st: PovState, color: string, id: string, fmt: Format)
    ensures var o := Point(0.0, 0.0);
            var a := Point(10.0, 0.0);
            var b := Point(10.0, 10.0);
            var paths := [Subpath(o, [Line(o, a), Line(a, b)], false)];
            var (ok, st') := CurveSpec(st, ShapeItem(paths, color), id, EndClosed, fmt);
            var c := RunPaths(Cursor(st.nrNodes, st.outbuf + [PrismHead(id, 2, fmt)], 0, Rect(o, o), false),
                              paths, EndClosed, 2, fmt);
            ok && SegmentCount(paths) == 2 && st'.nrSegments == st.nrSegments + 2 &&
            c.segmentNr == 3 && st'.nrNodes == st.nrNodes + 24 &&
            c.out == st.outbuf + [PrismHead(id, 2, fmt),
                                  SegmentText(0, o, o, a, a, fmt), ",\n",
                                  SegmentText(1, a, a, b, b, fmt), "\n",
                                  SegmentText(2, b, b, o, o, fmt), "\n"]
  {
    var o := Point(0.0, 0.0);
    var a := Point(10.0, 0.0);
    var b := Point(10.0, 10.0);
    var sp := Subpath(o, [Line(o, a), Line(a, b)], false);
    var paths := [sp];
    assert SegmentCount(paths) == 2 by {
      assert paths[..0] == [];
    }
    assert Walk(sp, EndClosed) == [Line(o, a), Line(a, b), Line(b, o)];
    var c0 := Cursor(st.nrNodes, st.outbuf + [PrismHead(id, 2, fmt)], 0, Rect(o, o), false);
    var c1 := c0.(box := ExpandTo(c0.box, o));
    var segs := Walk(sp, EndClosed);
    RunSegsAt(c1, segs, 0, 2, fmt);
    var d1 := SegStep(c1, segs[0], 2, fmt);
    RunSegsAt(d1, segs, 1, 2, fmt);
    var d2 := SegStep(d1, segs[1], 2, fmt);
    RunSegsAt(d2, segs, 2, 2, fmt);
    var d3 := SegStep(d2, segs[2], 2, fmt);
    assert segs[3..] == [];
    assert segs[0..] == segs;
    assert RunPath(c0, sp, EndClosed, 2, fmt) == d3;
    assert paths[1..] == [];
    assert RunPaths(c0, paths, EndClosed, 2, fmt) == d3;
  }

  // ---------------------------------------------------------------- extents

  predicate Proper(r: Rect) { r.lo.x <= r.hi.x && r.lo.y <= r.hi.y }

  lemma {:induction false} RunSegsBox(c: Cursor, segs: seq<Segment>, count: int, fmt: Format)
    requires !c.failed && Proper(c.box)
    ensures var r := RunSegs(c, segs, count, fmt);
            Proper(r.box) && (forall q :: Contains(c.box, q) ==> Contains(r.box, q)) &&
            (!r.failed ==> forall j :: 0 <= j < |segs| ==> Contains(r.box, segs[j].to))
    decreases |segs|
  {
    if segs != [] {
      var c' := SegStep(c, segs[0], count, fmt);
      if !c'.failed {
        RunSegsBox(c', segs[1..], count, fmt);
        assert forall j :: 1 <= j < |segs| ==> segs[j] == segs[1..][j - 1];
      }
    }
  }

  /** Every point the exporter expands a shape's extent to: subpath starts and walked segment ends. */
  predicate BoxHolds(box: Rect, ps: seq<Subpath>, end: WalkEnd) {
    forall k :: 0 <= k < |ps| ==>
      Contains(box, ps[k].initial) && forall j :: 0 <= j < |Walk(ps[k], end)| ==> Contains(box, Walk(ps[k], end)[j].to)
  }

  lemma {:induction false} RunPathsBox(c: Cursor, ps: seq<Subpath>, end: WalkEnd, count: int, fmt: Format)
    requires !c.failed && Proper(c.box)
    ensures var r := RunPaths(c, ps, end, count, fmt);
            Proper(r.box) && (forall q :: Contains(c.box, q) ==> Contains(r.box, q)) &&
            (!r.failed ==> BoxHolds(r.box, ps, end))
    decreases |ps|
  {
    if ps != [] {
      var c1 := c.(box := ExpandTo(c.box, ps[0].initial));
      RunSegsBox(c1, Walk(ps[0], end), count, fmt);
      var c' := RunPath(c, ps[0], end, count, fmt);
      if !c'.failed {
        RunPathsBox(c', ps[1..], end, count, fmt);
        assert forall k :: 1 <= k < |ps| ==> ps[k] == ps[1..][k - 1];
      }
    }
  }

  /**
   * After a shape is written, the document extent has grown to cover the shape's extent, which
   * covers every subpath start and walked segment end of the shape.
   */
  lemma CurveBox(st: PovState, paths: seq<Subpath>, color: string, id: string, end: WalkEnd, fmt: Format)
    requires paths != []
    ensures var (ok, st') := CurveSpec(st, ShapeItem(paths, color), id, end, fmt);
            ok ==> st'.minx <= st.minx && st'.maxx >= st.maxx && st'.miny <= st.miny && st'.maxy >= st.maxy &&
                   BoxHolds(Rect(Point(st'.minx, st'.miny), Point(st'.maxx, st'.maxy)), paths, end)
  {
    var count := SegmentCount(paths);
    var start := paths[0].initial;
    var c0 := Cursor(st.nrNodes, st.outbuf + [PrismHead(id, count, fmt)], 0, Rect(start, start), false);
    RunPathsBox(c0, paths, end, count, fmt);
  }

  // ---------------------------------------------------------------- the walk: doCurvesRecursive

  /** A node is handed to `doCurve` when it stands for an item and has an `id`. */
  function Visit(st: PovState, n: Node, end: WalkEnd, fmt: Format): (bool, PovState) {
    if !n.obj.NotItem? && n.id.Some? then CurveSpec(st, n.obj, n.id.value, end, fmt) else (true, st)
  }

  /** Visiting nodes in turn, stopping at the first failure. */
  function VisitAll(st: PovState, ns: seq<Node>, end: WalkEnd, fmt: Format): (bool, PovState)
    decreases |ns|
  {
    if ns == [] then (true, st)
    else
      var (ok, st') := Visit(st, ns[0], end, fmt);
      if !ok then (false, st') else VisitAll(st', ns[1..], end, fmt)
  }

  lemma {:induction false} VisitAllAppend(st: PovState, a: seq<Node>, b: seq<Node>, end: WalkEnd, fmt: Format)
    ensures VisitAll(st, a + b, end, fmt) ==
            var (ok, st') := VisitAll(st, a, end, fmt); if !ok then (false, st') else VisitAll(st', b, end, fmt)
    decreases |a|
  {
    if a == [] {
      assert a + b == b;
    } else {
      assert (a + b)[0] == a[0] && (a + b)[1..] == a[1..] + b;
      var (ok, st') := Visit(st, a[0], end, fmt);
      if ok {
        VisitAllAppend(st', a[1..], b, end, fmt);
      }
    }
  }

  /** The document extent only grows while the tree is walked. */
  lemma {:induction false} VisitAllWidens(st: PovState, ns: seq<Node>, end: WalkEnd, fmt: Format)
    ensures var st' := VisitAll(st, ns, end, fmt).1;
            st'.minx <= st.minx && st'.maxx >= st.maxx && st'.miny <= st.miny && st'.maxy >= st.maxy
    decreases |ns|
  {
    if ns != [] {
      var (ok, st') := Visit(st, ns[0], end, fmt);
      var n := ns[0];
      if !n.obj.NotItem? && n.id.Some? && n.obj.ShapeItem? && n.obj.paths != [] {
        CurveBox(st, n.obj.paths, n.obj.color, n.id.value, end, fmt);
        CurveCounters(st, n.obj.paths, n.obj.color, n.id.value, end, fmt);
      }
      if ok {
        VisitAllWidens(st', ns[1..], end, fmt);
      }
    }
  }

  /** The union `doCurves` writes after the walk, when there is a shape. */
  function CurvesTail(st: PovState, fmt: Format): seq<string> {
    if |st.shapes| > 0
    then UnionText(st.shapes, Rect(Point(st.minx, st.miny), Point(st.maxx, st.maxy)), fmt)
    else []
  }

  /** `doCurves`: the extent starts at +-1e6, the whole tree is walked, then the union is written. */
  const BigNum: real := 1000000.0

  function CurvesSpec(st: PovState, root: Node, end: WalkEnd, fmt: Format): (bool, PovState) {
    var st0 := st.(minx := BigNum, maxx := -BigNum, miny := BigNum, maxy := -BigNum);
    var (ok, st1) := VisitAll(st0, PreOrder(root), end, fmt);
    if !ok then (false, st1) else (true, st1.(outbuf := st1.outbuf + CurvesTail(st1, fmt)))
  }

  /** The extent written for the union is at least the initial one. */
  lemma CurvesBox(st: PovState, root: Node, end: WalkEnd, fmt: Format)
    ensures var st' := CurvesSpec(st, root, end, fmt).1;
            st'.minx <= BigNum && st'.maxx >= -BigNum && st'.miny <= BigNum && st'.maxy >= -BigNum
  {
    var st0 := st.(minx := BigNum, maxx := -BigNum, miny := BigNum, maxy := -BigNum);
    VisitAllWidens(st0, PreOrder(root), end, fmt);
  }

  /** `reset`: counters to zero and buffer and shape list emptied; the extent is left as it is. */
  function ResetState(st: PovState): (r: PovState)
    ensures r.nrNodes == 0 && r.nrSegments == 0 && r.nrShapes == 0 && r.outbuf == [] && r.shapes == []
  {
    st.(nrNodes := 0, nrSegments := 0, nrShapes := 0, outbuf := [], shapes := [])
  }

  /**
   * `saveDocument`: the curves are written first, into an empty buffer, so that the header
   * written before them can give their counts; the file is header, curves and tail in that order.
   * `None` when a shape could not be written.
   */
  function DocumentText(st: PovState, root: Node, created: string, version: string, end: WalkEnd, fmt: Format): Option<string> {
    var (ok, st1) := CurvesSpec(ResetState(st), root, end, fmt);
    if !ok then None
    else Some(Concat([HeaderText(created, version, st1.nrShapes, st1.nrSegments, st1.nrNodes, fmt)] + st1.outbuf + [fmt.text.tail]))
  }

  /** A node that `doCurve` writes as a prism. */
  predicate IsPrism(n: Node) {
    !n.obj.NotItem? && n.id.Some? && n.obj.ShapeItem? && n.obj.paths != []
  }

  /** The open subpaths of all the prisms among `ns`. */
  function OpenSubpaths(ns: seq<Node>): nat
    decreases |ns|
  {
    if ns == [] then 0 else (if IsPrism(ns[0]) then OpenCount(ns[0].obj.paths) else 0) + OpenSubpaths(ns[1..])
  }

  /** The counters agree with what was written: one shape per entry, eight nodes per segment. */
  predicate CountsAgree(st: PovState) {
    st.nrShapes == |st.shapes| && st.nrNodes == 8 * st.nrSegments
  }

  /**
   * Over a walk of the tree, one shape is counted per shape entry, and 8 nodes per counted
   * segment are added, and 8 more per open subpath when segments are walked to `end_closed()`.
   */
  lemma {:induction false} VisitAllCounts(st: PovState, ns: seq<Node>, end: WalkEnd, fmt: Format)
    requires st.nrShapes == |st.shapes|
    ensures var (ok, st') := VisitAll(st, ns, end, fmt);
            ok ==> st'.nrShapes == |st'.shapes| &&
                   st'.nrNodes - st.nrNodes == 8 * (st'.nrSegments - st.nrSegments) +
                                               if end.EndClosed? then 8 * OpenSubpaths(ns) else 0
    decreases |ns|
  {
    if ns != [] {
      var (ok, st') := Visit(st, ns[0], end, fmt);
      var n := ns[0];
      if IsPrism(n) {
        CurveCounters(st, n.obj.paths, n.obj.color, n.id.value, end, fmt);
      }
      if ok {
        VisitAllCounts(st', ns[1..], end, fmt);
      }
    }
  }

  /**
   * The header of a saved document counts exactly the shapes written below it and their
   * segments; its node count is eight per segment, and eight more per open subpath when segments
   * are walked to `end_closed()`.
   */
  lemma DocumentCounts(st: PovState, root: Node, created: string, version: string, end: WalkEnd, fmt: Format)
    ensures var (ok, st1) := CurvesSpec(ResetState(st), root, end, fmt);
            var extra := if end.EndClosed? then 8 * OpenSubpaths(PreOrder(root)) else 0;
            ok ==> DocumentText(st, root, created, version, end, fmt) ==
                   Some(Concat([HeaderText(created, version, |st1.shapes|, st1.nrSegments, 8 * st1.nrSegments + extra, fmt)] +
                               st1.outbuf + [fmt.text.tail]))
  {
    var st0 := ResetState(st).(minx := BigNum, maxx := -BigNum, miny := BigNum, maxy := -BigNum);
    VisitAllCounts(st0, PreOrder(root), end, fmt);
  }

  /** Walking to `end_default()`, the counters agree with what was written when the document is saved. */
  lemma DefaultWalkCountsAgree(st: PovState, root: Node, fmt: Format)
    ensures var (ok, st1) := CurvesSpec(ResetState(st), root, EndDefault, fmt);
            ok ==> CountsAgree(st1)
  {
    var st0 := ResetState(st).(minx := BigNum, maxx := -BigNum, miny := BigNum, maxy := -BigNum);
    VisitAllCounts(st0, PreOrder(root), EndDefault, fmt);
  }
}
