/**
 * The conversion of HPGL to DMPL in the plotter extension (share/extensions/plotter.py): when
 * the plotter speaks DMPL, the HPGL text the encoder produced is rewritten by four successive
 * substitutions and a final `Z` before it is sent.
 */
module Plotter {
  import opened Wrappers

  predicate StartsWith(s: string, p: string) {
    |p| <= |s| && s[..|p|] == p
  }

  /** `p` occurs in `s` at position `i`. */
  predicate OccursAt(s: string, p: string, i: nat) {
    i + |p| <= |s| && s[i..i + |p|] == p
  }

  /** `p` occurs somewhere in `s`. */
  ghost predicate Occurs(s: string, p: string) {
    exists i: nat :: OccursAt(s, p, i)
  }

  /** `p` occurs in a non-empty text at its start or somewhere in the rest. */
  lemma OccursUncons(s: string, p: string)
    requires s != []
    ensures StartsWith(s, p) <==> OccursAt(s, p, 0)
    ensures Occurs(s, p) <==> StartsWith(s, p) || Occurs(s[1..], p)
  {
    if |p| <= |s| {
      assert s[0..0 + |p|] == s[..|p|];
    }
    forall i: nat
      ensures OccursAt(s[1..], p, i) <==> OccursAt(s, p, i + 1)
    {
      if i + |p| <= |s[1..]| {
        assert s[1..][i..i + |p|] == s[i + 1..i + 1 + |p|];
      }
    }
    if Occurs(s, p) && !StartsWith(s, p) {
      var i: nat :| OccursAt(s, p, i);
      assert OccursAt(s[1..], p, i - 1);
    }
    if Occurs(s[1..], p) {
      var i: nat :| OccursAt(s[1..], p, i);
      assert OccursAt(s, p, i + 1);
    }
  }

  /** Python's `s.replace(p, r)`: the occurrences of `p` found scanning left to right, without overlap, become `r`. */
  function ReplaceAll(s: string, p: string, r: string): string
    requires |p| > 0
    decreases |s|
  {
    if s == [] then []
    else if StartsWith(s, p) then r + ReplaceAll(s[|p|..], p, r)
    else [s[0]] + ReplaceAll(s[1..], p, r)
  }

  /** Replacing one character by another changes exactly those characters and keeps the length. */
  lemma {:induction false} ReplaceCharPointwise(s: string, a: char, b: char)
    ensures |ReplaceAll(s, [a], [b])| == |s|
    ensures forall i :: 0 <= i < |s| ==> ReplaceAll(s, [a], [b])[i] == if s[i] == a then b else s[i]
    decreases |s|
  {
    if s != [] {
      ReplaceCharPointwise(s[1..], a, b);
      var t := ReplaceAll(s[1..], [a], [b]);
      assert StartsWith(s, [a]) <==> s[0] == a;
      assert ReplaceAll(s, [a], [b]) == [if s[0] == a then b else s[0]] + t;
    }
  }

  /** Replacing one character by another works on the two halves of a text separately. */
  lemma ReplaceCharAppend(x: string, y: string, a: char, b: char)
    ensures ReplaceAll(x + y, [a], [b]) == ReplaceAll(x, [a], [b]) + ReplaceAll(y, [a], [b])
  {
    ReplaceCharPointwise(x + y, a, b);
    ReplaceCharPointwise(x, a, b);
    ReplaceCharPointwise(y, a, b);
    var l := ReplaceAll(x + y, [a], [b]);
    var r := ReplaceAll(x, [a], [b]) + ReplaceAll(y, [a], [b]);
    assert forall i :: 0 <= i < |l| ==> l[i] == r[i] by {
      forall i | 0 <= i < |l|
        ensures l[i] == r[i]
      {
        if i < |x| {
          assert (x + y)[i] == x[i];
        } else {
          assert (x + y)[i] == y[i - |x|];
        }
      }
    }
  }

  /** A text in which `p` does not occur is left as it is. */
  lemma {:induction false} ReplaceAllAbsent(s: string, p: string, r: string)
    requires |p| > 0 && !Occurs(s, p)
    ensures ReplaceAll(s, p, r) == s
    decreases |s|
  {
    if s != [] {
      OccursUncons(s, p);
      ReplaceAllAbsent(s[1..], p, r);
    }
  }

  /** With a shorter replacement, the text shrinks exactly when `p` occurs in it. */
  lemma {:induction false} ReplaceAllShrinks(s: string, p: string, r: string)
    requires |r| < |p|
    ensures |ReplaceAll(s, p, r)| <= |s|
    ensures |ReplaceAll(s, p, r)| < |s| <==> Occurs(s, p)
    decreases |s|
  {
    if s == [] {
      assert forall i: nat :: !OccursAt(s, p, i);
    } else {
      OccursUncons(s, p);
      if StartsWith(s, p) {
        ReplaceAllShrinks(s[|p|..], p, r);
      } else {
        ReplaceAllShrinks(s[1..], p, r);
      }
    }
  }

  /** A text starting with a character that cannot begin `p` keeps that character. */
  lemma ReplaceAllSkip(c: char, rest: string, p: string, r: string)
    requires |p| > 0 && c != p[0]
    ensures ReplaceAll([c] + rest, p, r) == [c] + ReplaceAll(rest, p, r)
  {
    assert ([c] + rest)[1..] == rest;
  }

  /** A text starting with `p` starts with `r`. */
  lemma ReplaceAllHead(rest: string, p: string, r: string)
    requires |p| > 0
    ensures ReplaceAll(p + rest, p, r) == r + ReplaceAll(rest, p, r)
  {
    assert (p + rest)[..|p|] == p && (p + rest)[|p|..] == rest;
  }

  // ---------------------------------------------------------------- re.sub(r'IN,SP([0-9]{1,2}),', r';:HAL0P\1EC1', ...)

  predicate IsDigit(c: char) { '0' <= c <= '9' }

  const PenSelectStart: string := "IN,SP"

  /**
   * The pen number of a match of `IN,SP([0-9]{1,2}),` at the start of `s`: two digits when they
   * are followed by the comma, otherwise one (the regular expression tries two first).
   */
  function MatchPenSelect(s: string): (r: Option<string>)
    ensures r.Some? ==> 1 <= |r.value| <= 2 && (forall k :: 0 <= k < |r.value| ==> IsDigit(r.value[k]))
    ensures r.Some? ==> StartsWith(s, PenSelectStart + r.value + ",")
    ensures !StartsWith(s, PenSelectStart) ==> r.None?
  {
    if |s| >= 8 && s[..5] == PenSelectStart && IsDigit(s[5]) && IsDigit(s[6]) && s[7] == ',' then
      assert s[..8] == s[..5] + s[5..7] + [s[7]];
      Some(s[5..7])
    else if |s| >= 7 && s[..5] == PenSelectStart && IsDigit(s[5]) && s[6] == ',' then
      assert s[..7] == s[..5] + s[5..6] + [s[6]];
      Some(s[5..6])
    else None
  }

  /** The DMPL text that replaces a pen selection. */
  function PenSelectText(pen: string): string {
    ";:HAL0P" + pen + "EC1"
  }

  /** `re.sub`: every match, found scanning left to right, becomes the DMPL pen selection. */
  function SubPenSelect(s: string): string
    decreases |s|
  {
    if s == [] then []
    else match MatchPenSelect(s)
      case Some(pen) => PenSelectText(pen) + SubPenSelect(s[|PenSelectStart| + |pen| + 1..])
      case None => [s[0]] + SubPenSelect(s[1..])
  }

  /** A text in which `IN,SP` does not occur is left as it is. */
  lemma {:induction false} SubPenSelectAbsent(s: string)
    requires !Occurs(s, PenSelectStart)
    ensures SubPenSelect(s) == s
    decreases |s|
  {
    if s != [] {
      OccursUncons(s, PenSelectStart);
      SubPenSelectAbsent(s[1..]);
    }
  }

  /** A pen selection cannot start with any other character than `I`. */
  lemma NoPenSelect(c: char, rest: string)
    requires c != 'I'
    ensures MatchPenSelect([c] + rest) == None && SubPenSelect([c] + rest) == [c] + SubPenSelect(rest)
  {
    var s := [c] + rest;
    assert |s| >= 5 ==> s[..5][0] == c;
    assert s[1..] == rest;
  }

  // ---------------------------------------------------------------- the conversion

  /** The HPGL text after the four substitutions of the DMPL branch, in their order. */
  function Rewrite(hpgl: string): string {
    SubPenSelect(ReplaceAll(ReplaceAll(ReplaceAll(hpgl, ";", ","), "PU", "U"), "PD", "D"))
  }

  /**
   * The DMPL branch of `effect`: `hpgl` is rewritten in place when the command language is
   * `dmpl`, and then ends with DMPL's `Z`; it is passed on unchanged otherwise.
   */
  method ConvertCommands(hpgl0: string, commandLanguage: string) returns (hpgl: string)
    ensures commandLanguage != "dmpl" ==> hpgl == hpgl0
    ensures commandLanguage == "dmpl" ==> hpgl == Rewrite(hpgl0) + "Z"
    ensures commandLanguage == "dmpl" ==> |hpgl| > 0 && hpgl[|hpgl| - 1] == 'Z'
  {
    hpgl := hpgl0;
    if commandLanguage == "dmpl" {
      hpgl := ReplaceAll(hpgl, ";", ",");
      hpgl := ReplaceAll(hpgl, "PU", "U");
      hpgl := ReplaceAll(hpgl, "PD", "D");
      hpgl := SubPenSelect(hpgl);
      hpgl := hpgl + "Z";
    }
  }

  /** HPGL's pen-up command prefix becomes DMPL's `U`. */
  lemma PenUpToDmpl(rest: string)
    ensures Rewrite("PU" + rest) == "U" + Rewrite(rest)
  {
    ReplaceCharAppend("PU", rest, ';', ',');
    var x := ReplaceAll(rest, ";", ",");
    assert ReplaceAll("PU", ";", ",") == "PU";
    ReplaceAllHead(x, "PU", "U");
    var y := ReplaceAll(x, "PU", "U");
    ReplaceAllSkip('U', y, "PD", "D");
    var z := ReplaceAll(y, "PD", "D");
    NoPenSelect('U', z);
  }

  /** HPGL's pen-down command prefix becomes DMPL's `D`. */
  lemma PenDownToDmpl(rest: string)
    ensures Rewrite("PD" + rest) == "D" + Rewrite(rest)
  {
    ReplaceCharAppend("PD", rest, ';', ',');
    var x := ReplaceAll(rest, ";", ",");
    assert ReplaceAll("PD", ";", ",") == "PD";
    assert "PD" + x == ['P'] + (['D'] + x);
    assert !StartsWith("PD" + x, "PU");
    assert ReplaceAll("PD" + x, "PU", "U") == ['P'] + ReplaceAll(['D'] + x, "PU", "U");
    ReplaceAllSkip('D', x, "PU", "U");
    var y := ReplaceAll(x, "PU", "U");
    assert ['P'] + (['D'] + y) == "PD" + y;
    ReplaceAllHead(y, "PD", "D");
    var z := ReplaceAll(y, "PD", "D");
    NoPenSelect('D', z);
  }

  /** Any other character than `P` and `I` is kept, a semicolon becoming a comma. */
  lemma OtherCharToDmpl(c: char, rest: string)
    requires c != 'P' && c != 'I'
    ensures Rewrite([c] + rest) == [if c == ';' then ',' else c] + Rewrite(rest)
  {
    ReplaceCharAppend([c], rest, ';', ',');
    var c' := if c == ';' then ',' else c;
    assert ReplaceAll([c], ";", ",") == [c'] by {
      ReplaceCharPointwise([c], ';', ',');
    }
    var x := ReplaceAll(rest, ";", ",");
    ReplaceAllSkip(c', x, "PU", "U");
    var y := ReplaceAll(x, "PU", "U");
    ReplaceAllSkip(c', y, "PD", "D");
    var z := ReplaceAll(y, "PD", "D");
    NoPenSelect(c', z);
  }

  /** HPGL's initialisation and pen selection `IN;SP<pen>;` becomes DMPL's `;:HAL0P<pen>EC1`. */
  lemma PenSelectToDmpl(pen: string, rest: string)
    requires 1 <= |pen| <= 2 && forall k :: 0 <= k < |pen| ==> IsDigit(pen[k])
    ensures Rewrite("IN;SP" + pen + ";" + rest) == PenSelectText(pen) + Rewrite(rest)
  {
    PenSelectCommas(pen, rest);
    var x := ReplaceAll(rest, ";", ",");
    PenSelectPassOver(pen, x, "PU", "U");
    var y := ReplaceAll(x, "PU", "U");
    PenSelectPassOver(pen, y, "PD", "D");
    PenSelectMatches(pen, ReplaceAll(y, "PD", "D"));
  }

  /** The semicolons of the HPGL pen selection become the commas the regular expression looks for. */
  lemma PenSelectCommas(pen: string, rest: string)
    requires 1 <= |pen| <= 2 && forall k :: 0 <= k < |pen| ==> IsDigit(pen[k])
    ensures ReplaceAll("IN;SP" + pen + ";" + rest, ";", ",") == PenSelectStart + pen + "," + ReplaceAll(rest, ";", ",")
  {
    var head := "IN;SP" + pen + ";";
    ReplaceCharAppend(head, rest, ';', ',');
    assert ReplaceAll(head, ";", ",") == PenSelectStart + pen + "," by {
      ReplaceCharPointwise(head, ';', ',');
    }
  }

  /** A text starting with `IN,SP<pen>,` starts with its DMPL replacement. */
  lemma PenSelectMatches(pen: string, z: string)
    requires 1 <= |pen| <= 2 && forall k :: 0 <= k < |pen| ==> IsDigit(pen[k])
    ensures SubPenSelect(PenSelectStart + pen + "," + z) == PenSelectText(pen) + SubPenSelect(z)
  {
    var s := PenSelectStart + pen + "," + z;
    assert MatchPenSelect(s) == Some(pen) by {
      if |pen| == 2 {
        assert s[..5] == PenSelectStart && s[5] == pen[0] && s[6] == pen[1] && s[7] == ',';
        assert s[5..7] == pen;
      } else {
        assert s[..5] == PenSelectStart && s[5] == pen[0] && s[6] == ',';
        assert s[5..6] == pen;
      }
    }
    assert s[|PenSelectStart| + |pen| + 1..] == z;
  }

  /** `p` starts at no position of `a`, so the scan passes over all of it. */
  lemma {:induction false} ReplaceAllPassOver(a: string, b: string, p: string, r: string)
    requires |p| > 0
    requires forall i :: 0 <= i < |a| ==> !StartsWith((a + b)[i..], p)
    ensures ReplaceAll(a + b, p, r) == a + ReplaceAll(b, p, r)
    decreases |a|
  {
    if a == [] {
      assert a + b == b;
    } else {
      var s := a + b;
      assert s[0..] == s;
      assert s[1..] == a[1..] + b;
      forall i | 0 <= i < |a[1..]|
        ensures !StartsWith((a[1..] + b)[i..], p)
      {
        assert (a[1..] + b)[i..] == s[i + 1..];
      }
      ReplaceAllPassOver(a[1..], b, p, r);
    }
  }

  /** The pen selection `IN,SP<pen>,` holds neither `PU` nor `PD`, so those replacements pass over it. */
  lemma PenSelectPassOver(pen: string, x: string, p: string, r: string)
    requires 1 <= |pen| <= 2 && forall k :: 0 <= k < |pen| ==> IsDigit(pen[k])
    requires p == "PU" || p == "PD"
    ensures ReplaceAll(PenSelectStart + pen + "," + x, p, r) == PenSelectStart + pen + "," + ReplaceAll(x, p, r)
  {
    var a := PenSelectStart + pen + ",";
    forall i | 0 <= i < |a|
      ensures !StartsWith((a + x)[i..], p)
    {
      var s := (a + x)[i..];
      if i == 4 {
        assert s[1] == pen[0];
      } else if i < 4 {
        assert s[0] == PenSelectStart[i];
      } else if i < 5 + |pen| {
        assert s[0] == pen[i - 5];
      } else {
        assert s[0] == ',';
      }
    }
    ReplaceAllPassOver(a, x, p, r);
  }
}
