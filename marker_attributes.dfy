/**
 * The attribute grammar of the SVG `<marker>` element (section 11.6 of SVG 1.1) as `SPMarker::set`
 * reads it and `SPMarker::write` writes it back: `markerUnits`, `orient`, `refX`/`refY`,
 * `markerWidth`/`markerHeight`, `viewBox` (section 7.7) and `preserveAspectRatio` (section 7.8).
 * An absent attribute (a NULL value in the source) is `None`.
 */
module MarkerAttributes {
  import opened Wrappers
  import opened Geometry

  datatype Units = StrokeWidth | UserSpaceOnUse

  /** `markerUnits` together with its `markerUnits_set` flag. */
  datatype MarkerUnits = MarkerUnits(units: Units, isSet: bool)

  /** `orient_auto`, `orient_set` and the fixed angle `orient` in degrees. */
  datatype Orient = Orient(auto: bool, isSet: bool, angle: real)

  datatype Align =
    | AlignNone
    | XMinYMin | XMidYMin | XMaxYMin
    | XMinYMid | XMidYMid | XMaxYMid
    | XMinYMax | XMidYMax | XMaxYMax

  datatype Clip = Meet | Slice

  /** `aspect_set`, `aspect_align` and `aspect_clip`. */
  datatype AspectRatio = AspectRatio(isSet: bool, align: Align, clip: Clip)

  /** The part of an `SVGLength` the marker uses: whether it was set, and its computed value. */
  datatype SvgLength = SvgLength(isSet: bool, computed: real)

  /** One call of `g_ascii_strtod`: the number read and where the end pointer was left. */
  datatype Scan = Scan(value: real, rest: string)

  /**
   * The number routines the marker calls but which are not part of this model:
   * `g_ascii_strtod`, `sp_svg_number_read_f`, `SVGLength::read` (its computed value),
   * `sp_repr_set_svg_double` and `sp_repr_set_css_double` (their text).
   */
  datatype NumberSyntax = NumberSyntax(
    strtod: string -> Scan,
    readNumber: string -> Option<real>,
    readLength: string -> Option<real>,
    writeSvg: real -> string,
    writeCss: real -> string)

  /** The writers and readers agree: a written number reads back as itself, and "auto" is no number. */
  ghost predicate RoundTrips(n: NumberSyntax) {
    (forall r :: n.readNumber(n.writeCss(r)) == Some(r)) &&
    (forall r :: n.readLength(n.writeSvg(r)) == Some(r)) &&
    n.readNumber("auto") == None
  }

  // ---------------------------------------------------------------- markerUnits

  /** `SP_ATTR_MARKERUNITS`: reset to (strokeWidth, unset), then recognise the two keywords. */
  function ParseMarkerUnits(value: Option<string>): (r: MarkerUnits)
    ensures r.isSet <==> value == Some("strokeWidth") || value == Some("userSpaceOnUse")
    ensures r.units == UserSpaceOnUse <==> value == Some("userSpaceOnUse")
  {
    match value
    case Some(s) =>
      if s == "strokeWidth" then MarkerUnits(StrokeWidth, true)
      else if s == "userSpaceOnUse" then MarkerUnits(UserSpaceOnUse, true)
      else MarkerUnits(StrokeWidth, false)
    case None => MarkerUnits(StrokeWidth, false)
  }

  /** The states `ParseMarkerUnits` can produce: an unset value is always strokeWidth. */
  predicate UnitsReachable(mu: MarkerUnits) { mu.isSet || mu.units == StrokeWidth }

  /** `SPMarker::write` for `markerUnits`: unset means the attribute is removed. */
  function WriteMarkerUnits(mu: MarkerUnits): (r: Option<string>)
    ensures r.Some? <==> mu.isSet
  {
    if !mu.isSet then None
    else if mu.units == StrokeWidth then Some("strokeWidth")
    else Some("userSpaceOnUse")
  }

  lemma MarkerUnitsRoundTrip(mu: MarkerUnits)
    requires UnitsReachable(mu)
    ensures ParseMarkerUnits(WriteMarkerUnits(mu)) == mu
  {
    if mu.isSet {
      assert "strokeWidth" != "userSpaceOnUse";
    }
  }

  // ---------------------------------------------------------------- orient

  /** `SP_ATTR_ORIENT`: reset to (not auto, unset, 0), then "auto" or a number. */
  function ParseOrient(value: Option<string>, readNumber: string -> Option<real>): (r: Orient)
    ensures r.auto <==> value == Some("auto")
    ensures r.auto ==> r.isSet && r.angle == 0.0
    ensures !r.isSet ==> r == Orient(false, false, 0.0)
    ensures r.isSet && !r.auto ==> value.Some? && readNumber(value.value) == Some(r.angle)
    ensures value.Some? && value.value != "auto" && readNumber(value.value).Some? ==> r.isSet
  {
    match value
    case Some(s) =>
      if s == "auto" then Orient(true, true, 0.0)
      else (match readNumber(s)
            case Some(angle) => Orient(false, true, angle)
            case None => Orient(false, false, 0.0))
    case None => Orient(false, false, 0.0)
  }

  predicate OrientReachable(o: Orient) {
    (!o.isSet ==> o == Orient(false, false, 0.0)) && (o.auto ==> o.isSet && o.angle == 0.0)
  }

  /** `SPMarker::write` for `orient`: "auto", the angle as a CSS number, or absent. */
  function WriteOrient(o: Orient, writeCss: real -> string): (r: Option<string>)
    ensures r.Some? <==> o.isSet
  {
    if !o.isSet then None
    else if o.auto then Some("auto")
    else Some(writeCss(o.angle))
  }

  lemma OrientRoundTrip(o: Orient, n: NumberSyntax)
    requires OrientReachable(o) && RoundTrips(n)
    ensures ParseOrient(WriteOrient(o, n.writeCss), n.readNumber) == o
  {
    if o.isSet && !o.auto {
      var s := n.writeCss(o.angle);
      assert n.readNumber(s) == Some(o.angle);
      assert s != "auto";
    }
  }

  // ---------------------------------------------------------------- refX, refY, markerWidth, markerHeight

  /** `SVGLength::readOrUnset`: a readable value sets the length, anything else unsets it to `default`. */
  function ParseLength(value: Option<string>, readLength: string -> Option<real>, default: real): (r: SvgLength)
    ensures r.isSet <==> value.Some? && readLength(value.value).Some?
    ensures r.isSet ==> readLength(value.value) == Some(r.computed)
    ensures !r.isSet ==> r.computed == default
  {
    match value
    case Some(s) =>
      (match readLength(s)
       case Some(v) => SvgLength(true, v)
       case None => SvgLength(false, default))
    case None => SvgLength(false, default)
  }

  /** `sp_repr_set_svg_double` of the computed value, or the attribute removed. */
  function WriteLength(l: SvgLength, writeSvg: real -> string): (r: Option<string>)
    ensures r.Some? <==> l.isSet
  {
    if l.isSet then Some(writeSvg(l.computed)) else None
  }

  lemma LengthRoundTrip(l: SvgLength, n: NumberSyntax, default: real)
    requires RoundTrips(n)
    requires !l.isSet ==> l.computed == default
    ensures ParseLength(WriteLength(l, n.writeSvg), n.readLength, default) == l
  {
    if l.isSet {
      assert n.readLength(n.writeSvg(l.computed)) == Some(l.computed);
    }
  }

  // ---------------------------------------------------------------- viewBox

  predicate IsSeparator(c: char) { c == ',' || c == ' ' }

  /** The loop that advances the end pointer over commas and spaces. */
  function SkipSeparators(s: string): string {
    if s != [] && IsSeparator(s[0]) then SkipSeparators(s[1..]) else s
  }

  /** The loop leaves a suffix of `s` that starts with no separator; everything skipped was one. */
  lemma {:induction false} SkipSeparatorsShape(s: string)
    ensures var r := SkipSeparators(s);
            |r| <= |s| && r == s[|s| - |r|..] && (r == [] || !IsSeparator(r[0])) &&
            forall k :: 0 <= k < |s| - |r| ==> IsSeparator(s[k])
  {
    if s != [] && IsSeparator(s[0]) {
      SkipSeparatorsShape(s[1..]);
      var r := SkipSeparators(s[1..]);
      assert s[1..][|s[1..]| - |r|..] == s[|s| - |r|..];
      assert forall k :: 1 <= k < |s| - |r| ==> s[k] == s[1..][k - 1];
    }
  }

  /** The four numbers of a `viewBox` value: x, y, width, height. */
  datatype ViewBoxFields = ViewBoxFields(x: real, y: real, width: real, height: real)

  function ReadViewBoxFields(s: string, strtod: string -> Scan): ViewBoxFields {
    var x := strtod(s);
    var y := strtod(SkipSeparators(x.rest));
    var w := strtod(SkipSeparators(y.rest));
    var h := strtod(SkipSeparators(w.rest));
    ViewBoxFields(x.value, y.value, w.value, h.value)
  }

  /** `SP_ATTR_VIEWBOX`: the rectangle (x, y)-(x + width, y + height), present only for a positive size. */
  function ParseViewBox(value: Option<string>, strtod: string -> Scan): (r: Option<Rect>)
    ensures r.Some? <==>
      value.Some? && ReadViewBoxFields(value.value, strtod).width > 0.0 && ReadViewBoxFields(value.value, strtod).height > 0.0
  {
    match value
    case None => None
    case Some(s) =>
      var f := ReadViewBoxFields(s, strtod);
      if f.width > 0.0 && f.height > 0.0 then
        Some(Rect(Point(f.x, f.y), Point(f.x + f.width, f.y + f.height)))
      else None
  }

  lemma ViewBoxGeometry(value: Option<string>, strtod: string -> Scan)
    requires ParseViewBox(value, strtod).Some?
    ensures var r := ParseViewBox(value, strtod).value;
            var f := ReadViewBoxFields(value.value, strtod);
            r.lo == Point(f.x, f.y) && r.Width() == f.width > 0.0 && r.Height() == f.height > 0.0
  {
  }

  // ---------------------------------------------------------------- preserveAspectRatio

  const DefaultAspect: AspectRatio := AspectRatio(false, AlignNone, Meet)

  /** The position of the first character at or after `i` that is not a space (32). */
  function SkipSpaces(s: string, i: nat): (r: nat)
    requires i <= |s|
    ensures i <= r <= |s| && (r == |s| || s[r] != ' ')
    ensures forall k :: i <= k < r ==> s[k] == ' '
    decreases |s| - i
  {
    if i < |s| && s[i] == ' ' then SkipSpaces(s, i + 1) else i
  }

  /** The position of the first space at or after `i`, or the end of `s`. */
  function TokenEnd(s: string, i: nat): (r: nat)
    requires i <= |s|
    ensures i <= r <= |s| && (r == |s| || s[r] == ' ')
    ensures forall k :: i <= k < r ==> s[k] != ' '
    decreases |s| - i
  {
    if i < |s| && s[i] != ' ' then TokenEnd(s, i + 1) else i
  }

  /** The keyword of each alignment. */
  function AlignName(a: Align): (r: string)
    ensures 4 <= |r| <= 8 && r[0] != ' '
  {
    match a
    case AlignNone => "none"
    case XMinYMin => "xMinYMin"
    case XMidYMin => "xMidYMin"
    case XMaxYMin => "xMaxYMin"
    case XMinYMid => "xMinYMid"
    case XMidYMid => "xMidYMid"
    case XMaxYMid => "xMaxYMid"
    case XMinYMax => "xMinYMax"
    case XMidYMax => "xMidYMax"
    case XMaxYMax => "xMaxYMax"
  }

  /** The `strcmp` chain that maps a keyword to an alignment. */
  function AlignFromToken(t: string): (r: Option<Align>)
    ensures r.Some? ==> AlignName(r.value) == t
  {
    if t == "none" then Some(AlignNone)
    else if t == "xMinYMin" then Some(XMinYMin)
    else if t == "xMidYMin" then Some(XMidYMin)
    else if t == "xMaxYMin" then Some(XMaxYMin)
    else if t == "xMinYMid" then Some(XMinYMid)
    else if t == "xMidYMid" then Some(XMidYMid)
    else if t == "xMaxYMid" then Some(XMaxYMid)
    else if t == "xMinYMax" then Some(XMinYMax)
    else if t == "xMidYMax" then Some(XMidYMax)
    else if t == "xMaxYMax" then Some(XMaxYMax)
    else None
  }

  lemma AlignTokenInverse(a: Align)
    ensures AlignFromToken(AlignName(a)) == Some(a)
  {
  }

  /**
   * `SP_ATTR_PRESERVEASPECTRATIO`. Leading spaces are skipped to find the token's extent, but the
   * keyword is copied from the start of the value, not from where the token starts.
   */
  function ParseAspectRatio(value: Option<string>): (r: AspectRatio)
    ensures !r.isSet ==> r == DefaultAspect
  {
    match value
    case None => DefaultAspect
    case Some(s) =>
      var p := SkipSpaces(s, 0);
      if p == |s| then DefaultAspect
      else
        var e := TokenEnd(s, p);
        var len := e - p;
        if len > 8 then DefaultAspect
        else
          match AlignFromToken(s[..len])
          case None => DefaultAspect
          case Some(align) => ClipAfter(s, e, align)
  }

  /** After the alignment keyword ending at `e`: spaces, then nothing, "meet" or "slice"; anything else rejects the value. */
  function ClipAfter(s: string, e: nat, align: Align): AspectRatio
    requires e <= |s|
  {
    var e2 := SkipSpaces(s, e);
    if e2 == |s| then AspectRatio(true, align, Meet)
    else if s[e2..] == "meet" then AspectRatio(true, align, Meet)
    else if s[e2..] == "slice" then AspectRatio(true, align, Slice)
    else DefaultAspect
  }

  /** A value that starts with a space is always rejected: the copied keyword then starts with a space. */
  lemma AspectLeadingSpaceRejected(s: string)
    requires |s| > 0 && s[0] == ' '
    ensures ParseAspectRatio(Some(s)) == DefaultAspect
  {
    var p := SkipSpaces(s, 0);
    if p < |s| {
      var e := TokenEnd(s, p);
      var len := e - p;
      if len <= 8 {
        assert s[p] != ' ';
        assert len >= 1;
        assert s[..len][0] == ' ';
      }
    }
  }

  /** A first token longer than eight characters is rejected. */
  lemma AspectLongTokenRejected(s: string)
    requires TokenEnd(s, SkipSpaces(s, 0)) - SkipSpaces(s, 0) > 8
    ensures ParseAspectRatio(Some(s)) == DefaultAspect
  {
  }

  /**
   * What an accepted value looks like: it starts with the keyword of the alignment, and what follows
   * the spaces after it is nothing (meet), exactly "meet", or exactly "slice".
   */
  lemma AspectAcceptedShape(s: string)
    requires ParseAspectRatio(Some(s)).isSet
    ensures var r := ParseAspectRatio(Some(s));
            var e := TokenEnd(s, 0);
            var e2 := SkipSpaces(s, e);
            s[..e] == AlignName(r.align) &&
            (e2 == |s| || s[e2..] == "meet" || s[e2..] == "slice") &&
            (r.clip == Slice <==> e2 < |s| && s[e2..] == "slice")
  {
    if s[0] == ' ' {
      AspectLeadingSpaceRejected(s);
    }
    assert SkipSpaces(s, 0) == 0;
  }

  /** The text of an alignment and clip mode, "meet" being the default that may be left out. */
  function AspectText(a: Align, clip: Clip): (r: string)
    ensures |r| >= |AlignName(a)| && r[..|AlignName(a)|] == AlignName(a)
  {
    match clip
    case Meet => AlignName(a)
    case Slice => AlignName(a) + " slice"
  }

  lemma {:induction false} SkipSpacesPast(s: string, i: nat, j: nat)
    requires i <= j <= |s| && (j == |s| || s[j] != ' ')
    requires forall k :: i <= k < j ==> s[k] == ' '
    ensures SkipSpaces(s, i) == j
    decreases j - i
  {
    if i < j {
      SkipSpacesPast(s, i + 1, j);
    }
  }

  lemma {:induction false} TokenEndPast(s: string, i: nat, j: nat)
    requires i <= j <= |s| && (j == |s| || s[j] == ' ')
    requires forall k :: i <= k < j ==> s[k] != ' '
    ensures TokenEnd(s, i) == j
    decreases j - i
  {
    if i < j {
      TokenEndPast(s, i + 1, j);
    }
  }

  lemma AlignNameHasNoSpace(a: Align)
    ensures forall k :: 0 <= k < |AlignName(a)| ==> AlignName(a)[k] != ' '
  {
    match a
    case AlignNone =>
    case XMinYMin =>
    case XMidYMin =>
    case XMaxYMin =>
    case XMinYMid =>
    case XMidYMid =>
    case XMaxYMid =>
    case XMinYMax =>
    case XMidYMax =>
    case XMaxYMax =>
  }

  /** How `ParseAspectRatio` reads a value without leading spaces whose first token is a keyword. */
  lemma AspectOfKeyword(s: string, a: Align)
    requires TokenEnd(s, 0) == |AlignName(a)| && s[..|AlignName(a)|] == AlignName(a)
    ensures ParseAspectRatio(Some(s)) == ClipAfter(s, |AlignName(a)|, a)
  {
    var name := AlignName(a);
    assert s[0] == s[..|name|][0] == name[0] != ' ';
    SkipSpacesPast(s, 0, 0);
    AlignTokenInverse(a);
    assert AlignFromToken(s[..|name|]) == Some(a);
  }

  /** Every alignment and clip mode is accepted from its own text. */
  lemma AspectTextRoundTrip(a: Align, clip: Clip)
    ensures ParseAspectRatio(Some(AspectText(a, clip))) == AspectRatio(true, a, clip)
  {
    var name := AlignName(a);
    var s := AspectText(a, clip);
    var n := |name|;
    AlignNameHasNoSpace(a);
    assert forall k :: 0 <= k < n ==> s[k] == name[k];
    if clip == Meet {
      TokenEndPast(s, 0, n);
      SkipSpacesPast(s, n, n);
    } else {
      assert s == name + " slice";
      assert s[n..] == " slice";
      assert s[n] == ' ' && s[n + 1] == 's';
      TokenEndPast(s, 0, n);
      SkipSpacesPast(s, n, n + 1);
      assert s[n + 1..] == s[n..][1..] == "slice";
    }
    AspectOfKeyword(s, a);
  }

  // ---------------------------------------------------------------- the scanning loops of SPMarker::set

  /** The loop that moves the end pointer past the commas and spaces after a number. */
  method SkipSeparatorLoop(s: string) returns (r: string)
    ensures r == SkipSeparators(s)
  {
    r := s;
    while r != [] && IsSeparator(r[0])
      invariant SkipSeparators(r) == SkipSeparators(s)
      decreases |r|
    {
      r := r[1..];
    }
  }

  /** The `SP_ATTR_VIEWBOX` branch: four `g_ascii_strtod` calls separated by the skip loop. */
  method ScanViewBox(value: Option<string>, strtod: string -> Scan) returns (r: Option<Rect>)
    ensures r == ParseViewBox(value, strtod)
  {
    r := None;
    if value.Some? {
      var eptr := value.value;
      var x := strtod(eptr);
      eptr := SkipSeparatorLoop(x.rest);
      var y := strtod(eptr);
      eptr := SkipSeparatorLoop(y.rest);
      var width := strtod(eptr);
      eptr := SkipSeparatorLoop(width.rest);
      var height := strtod(eptr);
      eptr := SkipSeparatorLoop(height.rest);
      if width.value > 0.0 && height.value > 0.0 {
        r := Some(Rect(Point(x.value, y.value), Point(x.value + width.value, y.value + height.value)));
      }
    }
  }

  /** The `SP_ATTR_PRESERVEASPECTRATIO` branch; each `break` of the source is a `return` here. */
  method ScanAspectRatio(value: Option<string>) returns (r: AspectRatio)
    ensures r == ParseAspectRatio(value)
  {
    r := DefaultAspect;
    if value.None? {
      return;
    }
    var s := value.value;
    var p := 0;
    while p < |s| && s[p] == ' '
      invariant p <= |s| && SkipSpaces(s, p) == SkipSpaces(s, 0)
    {
      p := p + 1;
    }
    if p == |s| {
      return;
    }
    var e := p;
    while e < |s| && s[e] != ' '
      invariant p <= e <= |s| && TokenEnd(s, e) == TokenEnd(s, p)
    {
      e := e + 1;
    }
    var len := e - p;
    if len > 8 {
      return;
    }
    var c := s[..len];
    var align := AlignFromToken(c);
    if align.None? {
      return;
    }
    var clip := Meet;
    var tokenEnd := e;
    while e < |s| && s[e] == ' '
      invariant tokenEnd <= e <= |s| && SkipSpaces(s, e) == SkipSpaces(s, tokenEnd)
    {
      e := e + 1;
    }
    if e < |s| {
      if s[e..] == "meet" {
        clip := Meet;
      } else if s[e..] == "slice" {
        clip := Slice;
      } else {
        return;
      }
    }
    r := AspectRatio(true, align.value, clip);
  }

  // ---------------------------------------------------------------- the attribute set as a whole

  /**
   * Attribute names as the attribute table (`SP_ATTR_*`) identifies them: the eight `SPMarker::set`
   * dispatches on, the four the fork step reads or writes, and any other name.
   */
  datatype AttrKey =
    | MarkerUnitsKey | RefXKey | RefYKey | MarkerWidthKey | MarkerHeightKey
    | OrientKey | ViewBoxKey | PreserveAspectRatioKey
    | IdKey | IsStockKey | StockIdKey | CollectKey
    | OtherKey(name: string)

  function KeyName(k: AttrKey): string {
    match k
    case MarkerUnitsKey => "markerUnits"
    case RefXKey => "refX"
    case RefYKey => "refY"
    case MarkerWidthKey => "markerWidth"
    case MarkerHeightKey => "markerHeight"
    case OrientKey => "orient"
    case ViewBoxKey => "viewBox"
    case PreserveAspectRatioKey => "preserveAspectRatio"
    case IdKey => "id"
    case IsStockKey => "inkscape:isstock"
    case StockIdKey => "inkscape:stockid"
    case CollectKey => "inkscape:collect"
    case OtherKey(name) => name
  }

  /** The names of the twelve keys the model tells apart. */
  const KnownNames: set<string> := {
    "markerUnits", "refX", "refY", "markerWidth", "markerHeight", "orient", "viewBox",
    "preserveAspectRatio", "id", "inkscape:isstock", "inkscape:stockid", "inkscape:collect"}

  /** A key as the attribute table produces it: `OtherKey` only for a name it does not know. */
  predicate ProperKey(k: AttrKey) {
    !k.OtherKey? || k.name !in KnownNames
  }

  /** A proper key has one of the known names exactly when it is one of the twelve known keys. */
  lemma KnownNameOf(k: AttrKey)
    requires ProperKey(k)
    ensures KeyName(k) in KnownNames <==> !k.OtherKey?
  {
  }

  /** On proper keys, two keys name the same attribute exactly when they are the same key. */
  lemma KeyNameInjective(k1: AttrKey, k2: AttrKey)
    requires ProperKey(k1) && ProperKey(k2)
    ensures KeyName(k1) == KeyName(k2) <==> k1 == k2
  {
    KnownNameOf(k1);
    KnownNameOf(k2);
  }

  /** Every field of an `SPMarker` that is read from an attribute. */
  datatype MarkerAttrs = MarkerAttrs(
    markerUnits: MarkerUnits,
    refX: SvgLength, refY: SvgLength,
    markerWidth: SvgLength, markerHeight: SvgLength,
    orient: Orient,
    viewBox: Option<Rect>,
    aspect: AspectRatio)

  /** The values the `SPMarker` constructor gives them. */
  const InitialAttrs: MarkerAttrs := MarkerAttrs(
    MarkerUnits(StrokeWidth, false),
    SvgLength(false, 0.0), SvgLength(false, 0.0), SvgLength(false, 0.0), SvgLength(false, 0.0),
    Orient(false, false, 0.0), None, DefaultAspect)

  /** `SPMarker::set(key, value)`: exactly one field is re-parsed; other keys leave them all alone. */
  function SetAttribute(a: MarkerAttrs, key: AttrKey, value: Option<string>, n: NumberSyntax): (r: MarkerAttrs)
    ensures key !in MarkerKeys ==> r == a
  {
    match key
    case MarkerUnitsKey => a.(markerUnits := ParseMarkerUnits(value))
    case RefXKey => a.(refX := ParseLength(value, n.readLength, 0.0))
    case RefYKey => a.(refY := ParseLength(value, n.readLength, 0.0))
    case MarkerWidthKey => a.(markerWidth := ParseLength(value, n.readLength, 3.0))
    case MarkerHeightKey => a.(markerHeight := ParseLength(value, n.readLength, 3.0))
    case OrientKey => a.(orient := ParseOrient(value, n.readNumber))
    case ViewBoxKey => a.(viewBox := ParseViewBox(value, n.strtod))
    case PreserveAspectRatioKey => a.(aspect := ParseAspectRatio(value))
    case _ => a
  }

  /** An XML node's attributes. */
  type Attributes = map<AttrKey, string>

  function Get(repr: Attributes, key: AttrKey): Option<string> {
    if key in repr then Some(repr[key]) else None
  }

  /** The attributes as `SPMarker::build` leaves them: every recognised attribute read once from `repr`. */
  function ReadAll(repr: Attributes, n: NumberSyntax): MarkerAttrs {
    MarkerAttrs(
      ParseMarkerUnits(Get(repr, MarkerUnitsKey)),
      ParseLength(Get(repr, RefXKey), n.readLength, 0.0),
      ParseLength(Get(repr, RefYKey), n.readLength, 0.0),
      ParseLength(Get(repr, MarkerWidthKey), n.readLength, 3.0),
      ParseLength(Get(repr, MarkerHeightKey), n.readLength, 3.0),
      ParseOrient(Get(repr, OrientKey), n.readNumber),
      ParseViewBox(Get(repr, ViewBoxKey), n.strtod),
      ParseAspectRatio(Get(repr, PreserveAspectRatioKey)))
  }

  /** The eight `readAttr` calls of `build`, in the source's order, reach `ReadAll` from any start. */
  lemma BuildReadsAll(start: MarkerAttrs, repr: Attributes, n: NumberSyntax)
    ensures
      var keys := [MarkerUnitsKey, RefXKey, RefYKey, MarkerWidthKey, MarkerHeightKey,
                   OrientKey, ViewBoxKey, PreserveAspectRatioKey];
      SetAll(start, keys, repr, n) == ReadAll(repr, n)
  {
  }

  /** `readAttr` for each key in turn. */
  function SetAll(a: MarkerAttrs, keys: seq<AttrKey>, repr: Attributes, n: NumberSyntax): MarkerAttrs
    decreases |keys|
  {
    if keys == [] then a
    else SetAll(SetAttribute(a, keys[0], Get(repr, keys[0]), n), keys[1..], repr, n)
  }

  /** `Node::setAttribute(name, value)`, where a NULL value removes the attribute. */
  function SetOrRemove(repr: Attributes, key: AttrKey, value: Option<string>): Attributes {
    match value
    case Some(v) => repr[key := v]
    case None => repr - {key}
  }

  lemma GetAfterSet(repr: Attributes, key: AttrKey, value: Option<string>, k: AttrKey)
    ensures Get(SetOrRemove(repr, key, value), k) == if k == key then value else Get(repr, k)
  {
  }

  /** What `SPMarker::write` puts under each of the marker's keys (`None`: the attribute is removed). */
  function WrittenValue(a: MarkerAttrs, own: Attributes, key: AttrKey, n: NumberSyntax): Option<string> {
    match key
    case MarkerUnitsKey => WriteMarkerUnits(a.markerUnits)
    case RefXKey => WriteLength(a.refX, n.writeSvg)
    case RefYKey => WriteLength(a.refY, n.writeSvg)
    case MarkerWidthKey => WriteLength(a.markerWidth, n.writeSvg)
    case MarkerHeightKey => WriteLength(a.markerHeight, n.writeSvg)
    case OrientKey => WriteOrient(a.orient, n.writeCss)
    case _ => Get(own, key)
  }

  lemma WrittenValueCopies(a: MarkerAttrs, own: Attributes, n: NumberSyntax)
    ensures WrittenValue(a, own, ViewBoxKey, n) == Get(own, ViewBoxKey)
    ensures WrittenValue(a, own, PreserveAspectRatioKey, n) == Get(own, PreserveAspectRatioKey)
  {
  }

  /** The keys `SPMarker::write` sets, in the order it sets them. */
  const WriteOrder: seq<AttrKey> :=
    [MarkerUnitsKey, RefXKey, RefYKey, MarkerWidthKey, MarkerHeightKey, OrientKey, ViewBoxKey, PreserveAspectRatioKey]

  /** `setAttribute` of each key of `keys` in turn, with the value `WrittenValue` gives it. */
  function WriteKeys(a: MarkerAttrs, own: Attributes, target: Attributes, keys: seq<AttrKey>, n: NumberSyntax): Attributes
    decreases |keys|
  {
    if keys == [] then target
    else
      var last := keys[|keys| - 1];
      SetOrRemove(WriteKeys(a, own, target, keys[..|keys| - 1], n), last, WrittenValue(a, own, last, n))
  }

  /**
   * `SPMarker::write` into `target`: each parsed field is written back when it is set and removed
   * when it is not; `viewBox` and `preserveAspectRatio` are copied verbatim from the marker's own node.
   */
  function WriteAttributes(a: MarkerAttrs, own: Attributes, target: Attributes, n: NumberSyntax): Attributes {
    WriteKeys(a, own, target, WriteOrder, n)
  }

  lemma {:induction false} WriteKeysContents(a: MarkerAttrs, own: Attributes, target: Attributes, keys: seq<AttrKey>,
                                             n: NumberSyntax, k: AttrKey)
    ensures Get(WriteKeys(a, own, target, keys, n), k) == if k in keys then WrittenValue(a, own, k, n) else Get(target, k)
    decreases |keys|
  {
    if keys != [] {
      var init := keys[..|keys| - 1];
      var last := keys[|keys| - 1];
      assert keys == init + [last];
      WriteKeysContents(a, own, target, init, n, k);
      GetAfterSet(WriteKeys(a, own, target, init, n), last, WrittenValue(a, own, last, n), k);
    }
  }

  /** Unset means absent: each recognised key holds what `WrittenValue` says, every other key is untouched. */
  lemma WriteAttributesContents(a: MarkerAttrs, own: Attributes, target: Attributes, n: NumberSyntax, k: AttrKey)
    ensures var r := WriteAttributes(a, own, target, n);
            Get(r, k) == if k in MarkerKeys then WrittenValue(a, own, k, n) else Get(target, k)
  {
    WriteKeysContents(a, own, target, WriteOrder, n, k);
    assert k in MarkerKeys <==> k in WriteOrder;
  }

  /** Each field appears in the written node exactly when it is set. */
  lemma WriteUnsetIsAbsent(a: MarkerAttrs, own: Attributes, target: Attributes, n: NumberSyntax)
    ensures var r := WriteAttributes(a, own, target, n);
            (Get(r, MarkerUnitsKey).Some? <==> a.markerUnits.isSet) &&
            (Get(r, RefXKey).Some? <==> a.refX.isSet) &&
            (Get(r, RefYKey).Some? <==> a.refY.isSet) &&
            (Get(r, MarkerWidthKey).Some? <==> a.markerWidth.isSet) &&
            (Get(r, MarkerHeightKey).Some? <==> a.markerHeight.isSet) &&
            (Get(r, OrientKey).Some? <==> a.orient.isSet) &&
            Get(r, ViewBoxKey) == Get(own, ViewBoxKey) &&
            Get(r, PreserveAspectRatioKey) == Get(own, PreserveAspectRatioKey)
  {
    WriteAttributesContents(a, own, target, n, MarkerUnitsKey);
    WriteAttributesContents(a, own, target, n, RefXKey);
    WriteAttributesContents(a, own, target, n, RefYKey);
    WriteAttributesContents(a, own, target, n, MarkerWidthKey);
    WriteAttributesContents(a, own, target, n, MarkerHeightKey);
    WriteAttributesContents(a, own, target, n, OrientKey);
    WriteAttributesContents(a, own, target, n, ViewBoxKey);
    WriteAttributesContents(a, own, target, n, PreserveAspectRatioKey);
  }

  const MarkerKeys: set<AttrKey> :=
    {MarkerUnitsKey, RefXKey, RefYKey, MarkerWidthKey, MarkerHeightKey, OrientKey, ViewBoxKey, PreserveAspectRatioKey}

  lemma WriteCopiesVerbatim(a: MarkerAttrs, own: Attributes, target: Attributes, n: NumberSyntax)
    ensures Get(WriteAttributes(a, own, target, n), ViewBoxKey) == Get(own, ViewBoxKey)
    ensures Get(WriteAttributes(a, own, target, n), PreserveAspectRatioKey) == Get(own, PreserveAspectRatioKey)
  {
    WriteAttributesContents(a, own, target, n, ViewBoxKey);
    WriteAttributesContents(a, own, target, n, PreserveAspectRatioKey);
    WrittenValueCopies(a, own, n);
  }

  /** Writing a built marker and building again from what was written gives back the same fields. */
  lemma WriteBuildRoundTrip(own: Attributes, target: Attributes, n: NumberSyntax)
    requires RoundTrips(n)
    ensures var a := ReadAll(own, n);
            ReadAll(WriteAttributes(a, own, target, n), n) == a
  {
    var a := ReadAll(own, n);
    var w := WriteAttributes(a, own, target, n);
    var b := ReadAll(w, n);
    assert b.markerUnits == a.markerUnits by {
      WriteAttributesContents(a, own, target, n, MarkerUnitsKey);
      MarkerUnitsRoundTrip(a.markerUnits);
    }
    assert b.refX == a.refX by {
      WriteAttributesContents(a, own, target, n, RefXKey);
      LengthRoundTrip(a.refX, n, 0.0);
    }
    assert b.refY == a.refY by {
      WriteAttributesContents(a, own, target, n, RefYKey);
      LengthRoundTrip(a.refY, n, 0.0);
    }
    assert b.markerWidth == a.markerWidth by {
      WriteAttributesContents(a, own, target, n, MarkerWidthKey);
      LengthRoundTrip(a.markerWidth, n, 3.0);
    }
    assert b.markerHeight == a.markerHeight by {
      WriteAttributesContents(a, own, target, n, MarkerHeightKey);
      LengthRoundTrip(a.markerHeight, n, 3.0);
    }
    assert b.orient == a.orient by {
      WriteAttributesContents(a, own, target, n, OrientKey);
      OrientRoundTrip(a.orient, n);
    }
    WriteCopiesVerbatim(a, own, target, n);
  }

}
