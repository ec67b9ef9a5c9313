/** `replaceColorInString` (main.js:36-44): a global, case-insensitive
    `String.prototype.replace` with the colour expression and a callback that
    returns `newColor` when the match normalises to `oldNorm` and the match
    itself otherwise.

    A global replace scans from the left: where the expression matches, the match
    is passed to the callback and scanning resumes after it; where it does not,
    one character is copied and scanning resumes at the next one. `Segments` is
    that scan; `ReplaceColorInString` substitutes its colour segments. */
module Substitution {
  import opened Wrappers
  import opened ColorTokens

  /** One step of the scan: a character copied as it is, or a match. */
  datatype Segment = Verbatim(c: char) | Color(token: Token)

  function SegmentText(g: Segment): string {
    match g
    case Verbatim(c) => [c]
    case Color(t) => Text(t)
  }

  function Join(gs: seq<Segment>): string {
    if gs == [] then [] else SegmentText(gs[0]) + Join(gs[1..])
  }

  /** The leftmost, non-overlapping matches of the expression in `s`, with the
      characters between them. */
  function Segments(s: string): seq<Segment>
    decreases |s|
  {
    if s == [] then []
    else
      match Scan(s)
      case Some(t) => [Color(t)] + Segments(s[|Text(t)|..])
      case None => [Verbatim(s[0])] + Segments(s[1..])
  }

  /** The callback of main.js:38-43 applied to one segment. */
  function Substituted(g: Segment, oldNorm: string, newColor: string, norm: string -> string): string {
    match g
    case Verbatim(c) => [c]
    case Color(t) => if norm(Text(t)) == oldNorm then newColor else Text(t)
  }

  function SubstituteAll(gs: seq<Segment>, oldNorm: string, newColor: string, norm: string -> string): string {
    if gs == [] then [] else Substituted(gs[0], oldNorm, newColor, norm) + SubstituteAll(gs[1..], oldNorm, newColor, norm)
  }

  /** The colour segments of `gs` whose text normalises to `oldNorm`. */
  predicate SomeColorMatches(gs: seq<Segment>, oldNorm: string, norm: string -> string) {
    exists i :: 0 <= i < |gs| && gs[i].Color? && norm(Text(gs[i].token)) == oldNorm
  }

  /** `replaceColorInString(str, oldNorm, newColor)`, with `normalizeColor` as `norm`.
      When no match normalises to `oldNorm`, the string comes back unchanged: the
      caller (main.js:74) relies on this to skip a write. */
  function ReplaceColorInString(str: string, oldNorm: string, newColor: string, norm: string -> string): (r: string)
    ensures !SomeColorMatches(Segments(str), oldNorm, norm) ==> r == str
  {
    var gs := Segments(str);
    var r := SubstituteAll(gs, oldNorm, newColor, norm);
    if SomeColorMatches(gs, oldNorm, norm) then r
    else
      SubstituteNothing(gs, oldNorm, newColor, norm);
      JoinSegments(str);
      r
  }

  // ---------------------------------------------------------------------------
  // Properties of the scan

  /** The segment a step of the scan takes at the start of `s`: the match found
      there, or else the first character. */
  function Found(m: Option<Token>, s: string): (g: Segment)
    requires s != []
    ensures g.Color? <==> m.Some?
  {
    match m
    case Some(t) => Color(t)
    case None => Verbatim(s[0])
  }

  /** `f` scans like a global replace with the matcher `sc` at `x`: it takes the
      segment found at the start of `x`, which spells a non-empty prefix of `x`,
      and resumes after it. */
  predicate ScansLike(f: string -> seq<Segment>, sc: string -> Option<Token>, x: string) {
    x != [] ==>
      var g := Found(sc(x), x);
      && 0 < |SegmentText(g)| <= |x| && x[..|SegmentText(g)|] == SegmentText(g)
      && f(x) == [g] + f(x[|SegmentText(g)|..])
  }

  lemma SegmentsStep(x: string)
    ensures ScansLike(Segments, Scan, x)
  {
    if x != [] {
      assert Segments(x)[1..] == Segments(x[|SegmentText(Found(Scan(x), x))|..]);
    }
  }

  /** A scan that loses and adds nothing at each step spells its input. */
  lemma {:induction false} SpellsInput(f: string -> seq<Segment>, sc: string -> Option<Token>, s: string)
    requires f([]) == [] && forall x :: ScansLike(f, sc, x)
    ensures Join(f(s)) == s
    decreases |s|
  {
    if s != [] {
      assert ScansLike(f, sc, s);
      var n := |SegmentText(Found(sc(s), s))|;
      SpellsInput(f, sc, s[n..]);
      assert f(s)[1..] == f(s[n..]);
      assert s == s[..n] + s[n..];
    }
  }

  /** Each segment of such a scan is what the matcher finds where the segment starts. */
  lemma {:induction false} FoundAtOffsets(f: string -> seq<Segment>, sc: string -> Option<Token>, s: string)
    requires f([]) == [] && forall x :: ScansLike(f, sc, x)
    ensures forall i :: 0 <= i < |f(s)| ==> |Join(f(s)[..i])| < |s|
    ensures forall i :: 0 <= i < |f(s)| ==>
              f(s)[i] == Found(sc(s[|Join(f(s)[..i])|..]), s[|Join(f(s)[..i])|..])
    decreases |s|
  {
    if s != [] {
      assert ScansLike(f, sc, s);
      var gs := f(s);
      var n := |SegmentText(gs[0])|;
      var rest := s[n..];
      var tail := f(rest);
      FoundAtOffsets(f, sc, rest);
      forall i | 0 <= i < |gs|
        ensures |Join(gs[..i])| < |s| && gs[i] == Found(sc(s[|Join(gs[..i])|..]), s[|Join(gs[..i])|..])
      {
        if i == 0 {
          assert gs[..0] == [];
          assert s[0..] == s;
        } else {
          assert gs[..i] == [gs[0]] + tail[..i - 1];
          assert gs[..i][1..] == tail[..i - 1];
          assert |Join(gs[..i])| == n + |Join(tail[..i - 1])|;
          assert tail[i - 1] == gs[i];
          assert s[|Join(gs[..i])|..] == rest[|Join(tail[..i - 1])|..];
        }
      }
    }
  }

  /** The scan loses and adds nothing: its segments spell the input. */
  lemma JoinSegments(s: string)
    ensures Join(Segments(s)) == s
  {
    forall x ensures ScansLike(Segments, Scan, x) { SegmentsStep(x); }
    SpellsInput(Segments, Scan, s);
  }

  /** Each segment is what the expression matches where the segment starts: a
      colour segment is the token matched there, which is of the expression's
      grammar, and a copied character is one at which no match starts. */
  lemma SegmentsAreTokens(s: string)
    ensures forall i :: 0 <= i < |Segments(s)| ==> |Join(Segments(s)[..i])| < |s|
    ensures forall i :: 0 <= i < |Segments(s)| ==>
              Segments(s)[i] == Found(Scan(s[|Join(Segments(s)[..i])|..]), s[|Join(Segments(s)[..i])|..])
    ensures forall g :: g in Segments(s) && g.Color? ==> WellFormed(g.token)
  {
    forall x ensures ScansLike(Segments, Scan, x) { SegmentsStep(x); }
    FoundAtOffsets(Segments, Scan, s);
    var gs := Segments(s);
    forall g | g in gs && g.Color? ensures WellFormed(g.token) {
      var i :| 0 <= i < |gs| && gs[i] == g;
      var rest := s[|Join(gs[..i])|..];
      assert Scan(rest).Some? && g == Color(Scan(rest).value);
    }
  }

  /** Substituting when nothing matches gives back the segments' own text. */
  lemma {:induction false} SubstituteNothing(gs: seq<Segment>, oldNorm: string, newColor: string, norm: string -> string)
    requires !SomeColorMatches(gs, oldNorm, norm)
    ensures SubstituteAll(gs, oldNorm, newColor, norm) == Join(gs)
  {
    if gs != [] {
      forall i | 0 <= i < |gs[1..]|
        ensures !(gs[1..][i].Color? && norm(Text(gs[1..][i].token)) == oldNorm)
      {
        assert gs[1..][i] == gs[i + 1];
      }
      assert !(gs[0].Color? && norm(Text(gs[0].token)) == oldNorm);
      SubstituteNothing(gs[1..], oldNorm, newColor, norm);
    }
  }

  /** Each segment contributes its own piece: text outside the matches is copied,
      a match becomes `newColor` exactly when it normalises to `oldNorm`. */
  lemma {:induction false} SubstituteAppend(gs: seq<Segment>, hs: seq<Segment>, oldNorm: string, newColor: string, norm: string -> string)
    ensures SubstituteAll(gs + hs, oldNorm, newColor, norm)
            == SubstituteAll(gs, oldNorm, newColor, norm) + SubstituteAll(hs, oldNorm, newColor, norm)
  {
    if gs == [] {
      assert gs + hs == hs;
    } else {
      assert (gs + hs)[0] == gs[0] && (gs + hs)[1..] == gs[1..] + hs;
      SubstituteAppend(gs[1..], hs, oldNorm, newColor, norm);
    }
  }

  /** No match can start at position `k` of `p`: every alternative of the
      expression begins with `#`, `h` or `rg`, in either case. */
  predicate NoMatchStartsAt(p: string, k: nat)
    requires k < |p|
  {
    && p[k] != '#' && Lower(p[k]) != 'h'
    && (Lower(p[k]) == 'r' ==> k + 1 < |p| && Lower(p[k + 1]) != 'g')
  }

  /** Text in which no match can start. */
  predicate Inert(p: string) {
    forall k :: 0 <= k < |p| ==> NoMatchStartsAt(p, k)
  }

  /** The segments of text copied character by character. */
  function Verbatims(p: string): (gs: seq<Segment>)
    ensures |gs| == |p| && Join(gs) == p
    ensures forall k :: 0 <= k < |p| ==> gs[k] == Verbatim(p[k])
  {
    if p == [] then [] else [Verbatim(p[0])] + Verbatims(p[1..])
  }

  /** A character at which no match starts is copied, whatever follows it. */
  lemma SegmentsCopy(p: string, s: string)
    requires p != [] && NoMatchStartsAt(p, 0)
    ensures Segments(p + s) == [Verbatim(p[0])] + Segments(p[1..] + s)
  {
    var ps := p + s;
    assert ps[0] == p[0];
    assert ps[1..] == p[1..] + s;
    NoMatchAt(ps);
  }

  /** Unrolling a scan `f` that copies each character of `p` in turn. */
  lemma {:induction false} UnrollCopies(f: string -> seq<Segment>, p: string, s: string)
    requires forall k :: 0 <= k < |p| ==> f(p[k..] + s) == [Verbatim(p[k])] + f(p[k + 1..] + s)
    ensures f(p + s) == Verbatims(p) + f(s)
    decreases |p|
  {
    if p == [] {
      assert p + s == s;
    } else {
      assert p[0..] == p;
      forall k | 0 <= k < |p[1..]|
        ensures f(p[1..][k..] + s) == [Verbatim(p[1..][k])] + f(p[1..][k + 1..] + s)
      {
        assert p[1..][k..] == p[k + 1..] && p[1..][k + 1..] == p[k + 2..];
      }
      UnrollCopies(f, p[1..], s);
    }
  }

  /** Inert text is copied character by character, whatever follows it. */
  lemma SegmentsInert(p: string, s: string, gs: seq<Segment>)
    requires Inert(p) && Segments(s) == gs
    ensures Segments(p + s) == Verbatims(p) + gs
  {
    forall k | 0 <= k < |p|
      ensures Segments(p[k..] + s) == [Verbatim(p[k])] + Segments(p[k + 1..] + s)
    {
      assert NoMatchStartsAt(p[k..], 0) by {
        assert NoMatchStartsAt(p, k);
        assert p[k..][0] == p[k];
        assert k + 1 < |p| ==> p[k..][1] == p[k + 1];
      }
      SegmentsCopy(p[k..], s);
      assert p[k..][1..] == p[k + 1..];
    }
    UnrollCopies(Segments, p, s);
  }

  /** A match is taken as a whole, and the scan resumes after it. */
  lemma SegmentsMatch(t: Token, s: string, gs: seq<Segment>)
    requires Scan(Text(t) + s) == Some(t) && Segments(s) == gs
    ensures Segments(Text(t) + s) == [Color(t)] + gs
  {
    assert (Text(t) + s)[|Text(t)|..] == s;
  }

  /** Copied characters come out of the substitution as they went in. */
  lemma {:induction false} SubstituteVerbatims(p: string, oldNorm: string, newColor: string, norm: string -> string)
    ensures SubstituteAll(Verbatims(p), oldNorm, newColor, norm) == p
  {
    if p != [] {
      SubstituteVerbatims(p[1..], oldNorm, newColor, norm);
      assert [p[0]] + p[1..] == p;
    }
  }

  /** The scan of a gradient with two hexadecimal stops. */
  lemma GradientSegments(d1: string, d2: string)
    requires WellFormed(Hex(d1)) && WellFormed(Hex(d2))
    ensures Segments("linear-gradient(#" + d1 + ", #" + d2 + ")")
            == Verbatims("linear-gradient(") + ([Color(Hex(d1))] + (Verbatims(", ") + ([Color(Hex(d2))] + Verbatims(")"))))
  {
    var a, b := Hex(d1), Hex(d2);
    var s4 := Text(b) + ")";
    var s3 := ", " + s4;
    var s2 := Text(a) + s3;
    assert "linear-gradient(" + s2 == "linear-gradient(#" + d1 + ", #" + d2 + ")";
    assert Inert("linear-gradient(") && Inert(", ") && Inert(")");
    ScanHexText(d2, ")");
    ScanHexText(d1, s3);
    assert ")" + [] == ")";
    SegmentsInert(")", [], []);
    SegmentsMatch(b, ")", Verbatims(")"));
    SegmentsInert(", ", s4, [Color(b)] + Verbatims(")"));
    SegmentsMatch(a, s3, Verbatims(", ") + ([Color(b)] + Verbatims(")")));
    SegmentsInert("linear-gradient(", s2, [Color(a)] + (Verbatims(", ") + ([Color(b)] + Verbatims(")"))));
  }

  /** The replacement is the substitution of the scan's segments, whether or
      not one of them matches. */
  lemma ReplaceBySegments(str: string, gs: seq<Segment>, oldNorm: string, newColor: string, norm: string -> string)
    requires Segments(str) == gs
    ensures ReplaceColorInString(str, oldNorm, newColor, norm) == SubstituteAll(gs, oldNorm, newColor, norm)
  {
  }

  /** Replacing in a string that scans as a copied prefix, a match, a copied
      middle, a match and a copied suffix. */
  lemma ReplaceTwoStops(str: string, p1: string, a: Token, p2: string, b: Token, p3: string,
                        oldNorm: string, newColor: string, norm: string -> string)
    requires Segments(str) == Verbatims(p1) + ([Color(a)] + (Verbatims(p2) + ([Color(b)] + Verbatims(p3))))
    ensures ReplaceColorInString(str, oldNorm, newColor, norm)
            == p1 + (Substituted(Color(a), oldNorm, newColor, norm) + (p2 + (Substituted(Color(b), oldNorm, newColor, norm) + p3)))
  {
    var va, vb, vc := Verbatims(p1), Verbatims(p2), Verbatims(p3);
    ReplaceBySegments(str, va + ([Color(a)] + (vb + ([Color(b)] + vc))), oldNorm, newColor, norm);
    SubstituteAppend(va, [Color(a)] + (vb + ([Color(b)] + vc)), oldNorm, newColor, norm);
    SubstituteAppend([Color(a)], vb + ([Color(b)] + vc), oldNorm, newColor, norm);
    SubstituteAppend(vb, [Color(b)] + vc, oldNorm, newColor, norm);
    SubstituteAppend([Color(b)], vc, oldNorm, newColor, norm);
    SubstituteVerbatims(p1, oldNorm, newColor, norm);
    SubstituteVerbatims(p2, oldNorm, newColor, norm);
    SubstituteVerbatims(p3, oldNorm, newColor, norm);
  }

  /** A gradient whose first stop is the colour being replaced and whose second
      stop is not: only the first stop changes. */
  lemma GradientReplacement(d1: string, d2: string, oldNorm: string, newColor: string, norm: string -> string)
    requires WellFormed(Hex(d1)) && WellFormed(Hex(d2))
    requires norm("#" + d1) == oldNorm && norm("#" + d2) != oldNorm
    ensures ReplaceColorInString("linear-gradient(#" + d1 + ", #" + d2 + ")", oldNorm, newColor, norm)
            == "linear-gradient(" + (newColor + (", " + ("#" + d2 + ")")))
  {
    GradientSegments(d1, d2);
    ReplaceTwoStops("linear-gradient(#" + d1 + ", #" + d2 + ")", "linear-gradient(", Hex(d1), ", ", Hex(d2), ")", oldNorm, newColor, norm);
  }
}
