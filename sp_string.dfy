/**
 * The character data of an `SPString` (src/sp-string.cpp): the content of its XML text node with
 * white space handled as section 10.15 ('White space handling') of SVG 1.1 describes for
 * `xml:space="preserve"` and for the default value. Text is a sequence of code points.
 */
module SvgString {

  datatype XmlSpace = SpaceDefault | SpacePreserve

  predicate IsBreak(c: char) { c == '\n' || c == '\r' }

  predicate IsBlank(c: char) { c == ' ' || c == '\t' }

  predicate IsWhite(c: char) { IsBreak(c) || IsBlank(c) }

  // ---------------------------------------------------------------- xml:space="preserve"

  /** Preserve mode: every newline, carriage return and tab becomes a space; nothing else changes. */
  function PreserveText(s: string): (r: string)
    ensures |r| == |s|
    ensures forall i :: 0 <= i < |s| ==> r[i] == if IsWhite(s[i]) then ' ' else s[i]
    decreases |s|
  {
    if s == [] then []
    else
      var c := s[|s| - 1];
      PreserveText(s[..|s| - 1]) + [if IsWhite(c) then ' ' else c]
  }

  // ---------------------------------------------------------------- default xml:space

  /** The text built so far and whether a run of blanks is pending. */
  datatype Scan = Scan(out: string, whitespace: bool)

  /**
   * One code point in default mode: breaks are skipped, blanks only mark a pending run, and any
   * other character is appended, preceded by one space when a run was pending and there is
   * already text or a previous sibling.
   */
  function Step(st: Scan, c: char, hasPrev: bool): Scan {
    if IsBreak(c) then st
    else if IsBlank(c) then Scan(st.out, true)
    else
      var sep := if st.whitespace && (|st.out| > 0 || hasPrev) then " " else "";
      Scan(st.out + sep + [c], false)
  }

  function Fold(s: string, hasPrev: bool): Scan
    decreases |s|
  {
    if s == [] then Scan([], false)
    else Step(Fold(s[..|s| - 1], hasPrev), s[|s| - 1], hasPrev)
  }

  /** Default mode: the scan, then one space for a pending run when the node has a next sibling. */
  function DefaultText(s: string, hasPrev: bool, hasNext: bool): string {
    var st := Fold(s, hasPrev);
    st.out + if st.whitespace && hasNext then " " else ""
  }

  /** The characters that are not white space, in order. */
  function Visible(s: string): (r: string)
    ensures |r| <= |s|
    decreases |s|
  {
    if s == [] then []
    else Visible(s[..|s| - 1]) + if IsWhite(s[|s| - 1]) then [] else [s[|s| - 1]]
  }

  /** The characters that are not newlines or carriage returns, in order. */
  function DropBreaks(s: string): (r: string)
    ensures |r| <= |s|
    decreases |s|
  {
    if s == [] then []
    else DropBreaks(s[..|s| - 1]) + if IsBreak(s[|s| - 1]) then [] else [s[|s| - 1]]
  }

  /** Only single spaces, and no tabs or breaks. */
  predicate Collapsed(t: string) {
    (forall i :: 0 <= i < |t| ==> !IsBreak(t[i]) && t[i] != '\t') &&
    (forall i :: 0 <= i < |t| - 1 ==> !(t[i] == ' ' && t[i + 1] == ' '))
  }

  // ---------------------------------------------------------------- properties of the default mode

  lemma {:induction false} VisibleAppend(a: string, b: string)
    ensures Visible(a + b) == Visible(a) + Visible(b)
    decreases |b|
  {
    if b == [] {
      assert a + b == a;
    } else {
      var b' := b[..|b| - 1];
      VisibleAppend(a, b');
      assert (a + b)[..|a + b| - 1] == a + b';
    }
  }

  lemma VisibleOne(c: char)
    ensures Visible([c]) == if IsWhite(c) then [] else [c]
  {
    assert [c][..0] == [];
  }

  lemma VisibleStep(t: string, sep: string, c: char)
    requires (sep == "" || sep == " ") && !IsWhite(c)
    ensures Visible(t + sep + [c]) == Visible(t) + [c]
  {
    VisibleOne(c);
    if sep == "" {
      assert t + sep + [c] == t + [c];
      VisibleAppend(t, [c]);
    } else {
      VisibleOne(' ');
      assert sep == [' '];
      VisibleAppend(t + sep, [c]);
      VisibleAppend(t, sep);
    }
  }

  /** What the scan builds is collapsed, never ends in a space, and starts with one only after a sibling. */
  lemma {:induction false} FoldShape(s: string, hasPrev: bool)
    ensures var t := Fold(s, hasPrev).out;
            Collapsed(t) && (|t| > 0 ==> t[|t| - 1] != ' ') && (|t| > 0 && t[0] == ' ' ==> hasPrev)
    decreases |s|
  {
    if s != [] {
      var init := s[..|s| - 1];
      var c := s[|s| - 1];
      FoldShape(init, hasPrev);
      var st := Fold(init, hasPrev);
      if !IsWhite(c) {
        var sep := if st.whitespace && (|st.out| > 0 || hasPrev) then " " else "";
        var t := st.out + sep + [c];
        assert Fold(s, hasPrev).out == t;
        forall i | 0 <= i < |t| - 1
          ensures !(t[i] == ' ' && t[i + 1] == ' ')
        {
          if i + 1 < |st.out| {
            assert t[i] == st.out[i] && t[i + 1] == st.out[i + 1];
          } else if i + 1 == |st.out| {
            assert t[i] == st.out[|st.out| - 1];
          } else {
            assert t[i + 1] == c;
          }
        }
        forall i | 0 <= i < |t|
          ensures !IsBreak(t[i]) && t[i] != '\t'
        {
          if i < |st.out| {
            assert t[i] == st.out[i];
          }
        }
      }
    }
  }

  /** Default mode: no tab, newline or carriage return, and never two spaces in a row. */
  lemma DefaultCollapsed(s: string, hasPrev: bool, hasNext: bool)
    ensures Collapsed(DefaultText(s, hasPrev, hasNext))
  {
    FoldShape(s, hasPrev);
    var st := Fold(s, hasPrev);
    var t := DefaultText(s, hasPrev, hasNext);
    if st.whitespace && hasNext {
      assert t == st.out + " ";
      forall i | 0 <= i < |t| - 1
        ensures !(t[i] == ' ' && t[i + 1] == ' ')
      {
        assert t[i] == st.out[i];
        if i + 1 < |st.out| {
          assert t[i + 1] == st.out[i + 1];
        }
      }
      forall i | 0 <= i < |t|
        ensures !IsBreak(t[i]) && t[i] != '\t'
      {
        if i < |st.out| {
          assert t[i] == st.out[i];
        }
      }
    } else {
      assert t == st.out;
    }
  }

  /** Leading white space survives only after a previous sibling, or as the lone space of a blank node. */
  lemma DefaultLeading(s: string, hasPrev: bool, hasNext: bool)
    ensures var t := DefaultText(s, hasPrev, hasNext);
            |t| > 0 && t[0] == ' ' ==> hasPrev || (t == " " && hasNext)
  {
    FoldShape(s, hasPrev);
    var st := Fold(s, hasPrev);
    if |st.out| > 0 {
      assert DefaultText(s, hasPrev, hasNext)[0] == st.out[0];
    }
  }

  /** A space at the end comes only from a pending run, and only when there is a next sibling. */
  lemma DefaultTrailing(s: string, hasPrev: bool, hasNext: bool)
    ensures var t := DefaultText(s, hasPrev, hasNext);
            |t| > 0 && t[|t| - 1] == ' ' <==> Fold(s, hasPrev).whitespace && hasNext
  {
    FoldShape(s, hasPrev);
  }

  /** A run of blanks only marks a pending space: the text built so far is unchanged. */
  lemma {:induction false} FoldBlanks(u: string, b: string, hasPrev: bool)
    requires |b| > 0 && forall i :: 0 <= i < |b| ==> IsBlank(b[i])
    ensures Fold(u + b, hasPrev) == Scan(Fold(u, hasPrev).out, true)
    decreases |b|
  {
    var s := u + b;
    assert s[..|s| - 1] == u + b[..|b| - 1];
    assert s[|s| - 1] == b[|b| - 1];
    if |b| > 1 {
      FoldBlanks(u, b[..|b| - 1], hasPrev);
    } else {
      assert u + b[..|b| - 1] == u;
    }
  }

  /**
   * A run of blanks before a visible character becomes exactly one space when there is text
   * before it or a previous sibling, and disappears otherwise.
   */
  lemma BlankRunIsOneSpace(u: string, b: string, y: char, hasPrev: bool)
    requires |b| > 0 && forall i :: 0 <= i < |b| ==> IsBlank(b[i])
    requires !IsWhite(y)
    ensures var t := Fold(u, hasPrev).out;
            Fold(u + b + [y], hasPrev).out == t + (if |t| > 0 || hasPrev then " " else "") + [y]
  {
    FoldBlanks(u, b, hasPrev);
    var s := u + b + [y];
    assert s[..|s| - 1] == u + b;
  }

  /** The scan only ever appends to its text. */
  lemma {:induction false} FoldExtends(x: string, rest: string, hasPrev: bool)
    ensures var t := Fold(x, hasPrev).out;
            var t' := Fold(x + rest, hasPrev).out;
            |t| <= |t'| && t'[..|t|] == t
    decreases |rest|
  {
    if rest == [] {
      assert x + rest == x;
    } else {
      var r' := rest[..|rest| - 1];
      FoldExtends(x, r', hasPrev);
      var s := x + rest;
      assert s[..|s| - 1] == x + r';
      var t := Fold(x, hasPrev).out;
      var m := Fold(x + r', hasPrev).out;
      var t' := Fold(s, hasPrev).out;
      assert |m| <= |t'| && t'[..|m|] == m;
      assert t'[..|t|] == m[..|t|];
    }
  }

  /**
   * Default mode, whatever follows: after the text of `u`, a run of blanks and a visible character
   * give one space and that character when there is text before them or a previous sibling.
   */
  lemma DefaultBlankRun(u: string, b: string, y: char, rest: string, hasPrev: bool, hasNext: bool)
    requires |b| > 0 && forall i :: 0 <= i < |b| ==> IsBlank(b[i])
    requires !IsWhite(y) && (|Fold(u, hasPrev).out| > 0 || hasPrev)
    ensures var t := Fold(u, hasPrev).out;
            var d := DefaultText(u + b + [y] + rest, hasPrev, hasNext);
            |d| >= |t| + 2 && d[..|t| + 2] == t + " " + [y]
  {
    BlankRunIsOneSpace(u, b, y, hasPrev);
    FoldExtends(u + b + [y], rest, hasPrev);
    var t := Fold(u, hasPrev).out;
    var f := Fold(u + b + [y] + rest, hasPrev).out;
    var d := DefaultText(u + b + [y] + rest, hasPrev, hasNext);
    assert d[..|f|] == f;
    assert d[..|t| + 2] == f[..|t| + 2];
  }

  /** The converse of `DefaultLeading`: after a previous sibling, leading blanks give a leading space. */
  lemma LeadingBlanksAfterSibling(b: string, y: char, rest: string, hasNext: bool)
    requires |b| > 0 && forall i :: 0 <= i < |b| ==> IsBlank(b[i])
    requires !IsWhite(y)
    ensures var d := DefaultText(b + [y] + rest, true, hasNext);
            |d| >= 2 && d[..2] == " " + [y]
  {
    assert Fold([], true).out == [];
    DefaultBlankRun([], b, y, rest, true, hasNext);
    assert [] + b + [y] + rest == b + [y] + rest;
  }

  /** The characters that are not white space come out unchanged and in order. */
  lemma {:induction false} FoldVisible(s: string, hasPrev: bool)
    ensures Visible(Fold(s, hasPrev).out) == Visible(s)
    decreases |s|
  {
    if s != [] {
      var init := s[..|s| - 1];
      var c := s[|s| - 1];
      FoldVisible(init, hasPrev);
      var st := Fold(init, hasPrev);
      if !IsWhite(c) {
        var sep := if st.whitespace && (|st.out| > 0 || hasPrev) then " " else "";
        VisibleStep(st.out, sep, c);
      } else {
        assert Visible(s) == Visible(init);
      }
    }
  }

  lemma DefaultVisible(s: string, hasPrev: bool, hasNext: bool)
    ensures Visible(DefaultText(s, hasPrev, hasNext)) == Visible(s)
  {
    FoldVisible(s, hasPrev);
    var st := Fold(s, hasPrev);
    if st.whitespace && hasNext {
      VisibleAppend(st.out, " ");
      assert " "[..0] == [];
    } else {
      assert DefaultText(s, hasPrev, hasNext) == st.out;
    }
  }

  /** Newlines and carriage returns are dropped before anything else: removing them first changes nothing. */
  lemma {:induction false} FoldIgnoresBreaks(s: string, hasPrev: bool)
    ensures Fold(DropBreaks(s), hasPrev) == Fold(s, hasPrev)
    decreases |s|
  {
    if s != [] {
      var init := s[..|s| - 1];
      var c := s[|s| - 1];
      FoldIgnoresBreaks(init, hasPrev);
      if !IsBreak(c) {
        var d := DropBreaks(init) + [c];
        assert DropBreaks(s) == d;
        assert d[..|d| - 1] == DropBreaks(init);
        assert Fold(d, hasPrev) == Step(Fold(DropBreaks(init), hasPrev), c, hasPrev);
      } else {
        assert DropBreaks(s) == DropBreaks(init);
      }
    }
  }

  lemma DefaultIgnoresBreaks(s: string, hasPrev: bool, hasNext: bool)
    ensures DefaultText(DropBreaks(s), hasPrev, hasNext) == DefaultText(s, hasPrev, hasNext)
  {
    FoldIgnoresBreaks(s, hasPrev);
  }

  lemma DefaultExample()
    ensures DefaultText(" a\n\tb ", false, true) == "a b "
    ensures DefaultText(" a\n\tb ", true, false) == " a b"
  {
    var s := " a\n\tb ";
    assert s[..1] == " " && s[..1][..0] == "";
    assert Fold(s[..1], false) == Scan("", true);
    assert Fold(s[..1], true) == Scan("", true);
    assert s[..2] == " a" && s[..2][..1] == s[..1];
    assert Fold(s[..2], false) == Scan("a", false);
    assert Fold(s[..2], true) == Scan(" a", false);
    assert s[..3] == " a\n" && s[..3][..2] == s[..2];
    assert Fold(s[..3], false) == Scan("a", false);
    assert Fold(s[..3], true) == Scan(" a", false);
    assert s[..4] == " a\n\t" && s[..4][..3] == s[..3];
    assert Fold(s[..4], false) == Scan("a", true);
    assert Fold(s[..4], true) == Scan(" a", true);
    assert s[..5] == " a\n\tb" && s[..5][..4] == s[..4];
    assert Fold(s[..5], false) == Scan("a b", false);
    assert Fold(s[..5], true) == Scan(" a b", false);
    assert s[..5] == s[..|s| - 1];
    assert Fold(s, false) == Scan("a b", true);
    assert Fold(s, true) == Scan(" a b", true);
  }

  // ---------------------------------------------------------------- the object

  /** The part of an `SPString` this model keeps: its decoded text. */
  class StringObject {
    var text: string

    constructor ()
      ensures text == []
    {
      text := [];
    }

    /**
     * `CString::onReadContent` for node content `content`; `hasPrev` says whether the object has
     * a previous sibling and `hasNext` whether its XML node has a next one. The text is cleared
     * first, so the result does not depend on what was read before.
     */
    method ReadContent(content: string, space: XmlSpace, hasPrev: bool, hasNext: bool)
      modifies this
      ensures space == SpacePreserve ==> text == PreserveText(content)
      ensures space == SpaceDefault ==> text == DefaultText(content, hasPrev, hasNext)
    {
      text := [];
      if space == SpacePreserve {
        var i := 0;
        while i < |content|
          invariant 0 <= i <= |content|
          invariant text == PreserveText(content[..i])
        {
          var c := content[i];
          if IsWhite(c) {
            c := ' ';
          }
          assert content[..i + 1][..i] == content[..i];
          text := text + [c];
          i := i + 1;
        }
        assert content[..i] == content;
      } else {
        var whitespace := false;
        var i := 0;
        while i < |content|
          invariant 0 <= i <= |content|
          invariant Scan(text, whitespace) == Fold(content[..i], hasPrev)
        {
          var c := content[i];
          assert content[..i + 1][..i] == content[..i];
          if IsBreak(c) {
            i := i + 1;
            continue;
          }
          if IsBlank(c) {
            whitespace := true;
          } else {
            if whitespace && (|text| > 0 || hasPrev) {
              text := text + " ";
            }
            text := text + [c];
            whitespace := false;
          }
          i := i + 1;
        }
        assert content[..i] == content;
        if whitespace && hasNext {
          text := text + " ";
        }
      }
    }
  }
}
