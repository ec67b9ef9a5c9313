/** The element override engine, `colorizeElement` (main.js:46-87).

    An element carries the values the cascade computed for it, by CSS property
    name, and its inline style, by property name, each declaration with its
    priority. `colorizeElement` reads the computed style and writes `important`
    inline declarations.

    The computed style is read LIVE. `getComputedStyle` is called once
    (main.js:47), but the object it returns reflects later changes to the
    element's style, and the palette loop reads it again after its own writes.
    The model therefore reads a property through `Effective`: an `important`
    inline declaration of the property decides its value, and otherwise the
    value the cascade computed stands. A later palette entry can so see the
    replacement an earlier entry wrote. */
module Engine {
  import opened Wrappers
  import opened Palette
  import opened Substitution

  datatype Priority = Normal | Important

  datatype Declaration = Declaration(value: string, priority: Priority)

  /** An inline style: the declared properties, by name. */
  type Style = map<string, Declaration>

  /** The declaration of `property` in `st`, if any. */
  function At(st: Style, property: string): Option<Declaration> {
    if property in st then Some(st[property]) else None
  }

  /** A computed value, the empty string when the cascade produced none. */
  function Get(computed: map<string, string>, property: string): string {
    if property in computed then computed[property] else ""
  }

  // ---------------------------------------------------------------------------
  // Property names

  predicate IsUpper(c: char) { 'A' <= c <= 'Z' }

  /** What one character of a camel-cased accessor stands for in the CSS
      name: an upper-case letter stands for `-` and its lower-case form. */
  function Piece(c: char): string {
    if IsUpper(c) then "-" + [(c as int + 32) as char] else [c]
  }

  function Concat(ps: seq<string>): string {
    if ps == [] then [] else ps[0] + Concat(ps[1..])
  }

  /** The CSS property behind a camel-cased accessor of the computed style, such
      as `background-color` for `backgroundColor`. */
  function CssName(accessor: string): string {
    Concat(seq(|accessor|, i requires 0 <= i < |accessor| => Piece(accessor[i])))
  }

  /** `w` occurs in `s` at position `i`. */
  predicate OccursAt(s: string, w: string, i: nat) {
    i + |w| <= |s| && s[i..i + |w|] == w
  }

  /** The position of the first `true` in `bs`. */
  function FirstTrue(bs: seq<bool>): (r: Option<nat>)
    ensures r.Some? ==> r.value < |bs| && bs[r.value] && forall i :: 0 <= i < r.value ==> !bs[i]
    ensures r.None? ==> forall i :: 0 <= i < |bs| ==> !bs[i]
  {
    if bs == [] then None
    else if bs[0] then Some(0)
    else
      var r := FirstTrue(bs[1..]);
      if r.None? then None else Some(r.value + 1)
  }

  /** The position of the first occurrence of `w` in `s`, as `indexOf` finds it. */
  function IndexOf(s: string, w: string): (r: Option<nat>)
    ensures r.Some? ==> OccursAt(s, w, r.value) && forall i :: 0 <= i < r.value ==> !OccursAt(s, w, i)
    ensures r.None? ==> forall i: nat :: !OccursAt(s, w, i)
  {
    var occurs := seq(|s| + 1, i requires 0 <= i <= |s| => OccursAt(s, w, i));
    assert forall i: nat :: OccursAt(s, w, i) ==> i < |occurs| && occurs[i];
    FirstTrue(occurs)
  }

  /** `s.includes(w)`. */
  predicate Contains(s: string, w: string) {
    IndexOf(s, w).Some?
  }

  /** `s.includes(w)` holds exactly when `w` occurs somewhere in `s`. */
  lemma ContainsOccurs(s: string, w: string)
    ensures Contains(s, w) <==> exists i: nat :: OccursAt(s, w, i)
  {
  }

  /** `s.replace(pattern, replacement)` with a string pattern, for a
      replacement containing no `$` (whose `$` patterns JavaScript would
      expand): the first occurrence is replaced, and nothing when there is
      none. */
  function ReplaceFirst(s: string, pattern: string, replacement: string): (r: string)
    ensures (forall i: nat :: !OccursAt(s, pattern, i)) ==> r == s
    ensures forall i: nat :: OccursAt(s, pattern, i) && (forall j :: 0 <= j < i ==> !OccursAt(s, pattern, j)) ==>
              r == s[..i] + replacement + s[i + |pattern|..]
  {
    match IndexOf(s, pattern)
    case None => s
    case Some(i) => s[..i] + replacement + s[i + |pattern|..]
  }

  /** The computed-style accessors of the four border sides (main.js:63). */
  const BorderProps: seq<string> := ["borderTopColor", "borderRightColor", "borderBottomColor", "borderLeftColor"]

  /** The inline property a border side is written to (main.js:66). */
  function BorderInlineName(accessor: string): string {
    ReplaceFirst(accessor, "Color", "-color")
  }

  // ---------------------------------------------------------------------------
  // One iteration of the palette loop, as functions

  /** A property as the live computed style reads it. */
  function Effective(computed: map<string, string>, st: Style, accessor: string): string {
    var p := CssName(accessor);
    if p in st && st[p].priority == Important then st[p].value else Get(computed, p)
  }

  /** A colour channel: the accessor it is read through, the property it is
      written to, and whether an empty value skips it (`computedStyle.fill &&`). */
  datatype Channel = Channel(accessor: string, property: string, needsValue: bool)

  const ColorChannel := Channel("color", "color", false)
  const BackgroundColorChannel := Channel("backgroundColor", "background-color", false)
  const FillChannel := Channel("fill", "fill", true)
  const StrokeChannel := Channel("stroke", "stroke", true)

  function BorderChannel(accessor: string): Channel {
    Channel(accessor, BorderInlineName(accessor), false)
  }

  /** The channel's test for one palette entry: its live value is non-empty when
      that is asked for and normalises to the entry's normalised old colour. */
  predicate Matches(computed: map<string, string>, st: Style, ch: Channel, oldNorm: string, norm: string -> string) {
    var v := Effective(computed, st, ch.accessor);
    (!ch.needsValue || v != "") && norm(v) == oldNorm
  }

  function ChannelStep(computed: map<string, string>, st: Style, ch: Channel, oldNorm: string, newColor: string,
                       norm: string -> string): Style
  {
    if Matches(computed, st, ch, oldNorm, norm) then st[ch.property := Declaration(newColor, Important)] else st
  }

  /** The `forEach` over the first `|props|` border sides (main.js:64-68). */
  function BorderSteps(computed: map<string, string>, st: Style, props: seq<string>, oldNorm: string, newColor: string,
                       norm: string -> string): Style
  {
    if props == [] then st
    else
      var before := BorderSteps(computed, st, props[..|props| - 1], oldNorm, newColor, norm);
      ChannelStep(computed, before, BorderChannel(props[|props| - 1]), oldNorm, newColor, norm)
  }

  lemma BorderStepsNext(computed: map<string, string>, st: Style, props: seq<string>, b: nat, oldNorm: string, newColor: string,
                        norm: string -> string)
    requires b < |props|
    ensures BorderSteps(computed, st, props[..b + 1], oldNorm, newColor, norm)
         == ChannelStep(computed, BorderSteps(computed, st, props[..b], oldNorm, newColor, norm), BorderChannel(props[b]),
                        oldNorm, newColor, norm)
  {
    assert props[..b + 1][..b] == props[..b];
  }

  /** The gradient test and rewrite of main.js:71-77. */
  function BackgroundImageStep(computed: map<string, string>, st: Style, oldNorm: string, newColor: string,
                               norm: string -> string): Style
  {
    var bgImage := Effective(computed, st, "backgroundImage");
    if bgImage != "none" && Contains(bgImage, "gradient") then
      var newBgImage := ReplaceColorInString(bgImage, oldNorm, newColor, norm);
      if newBgImage != bgImage then st["background-image" := Declaration(newBgImage, Important)] else st
    else st
  }

  /** The body of the palette loop for the entry `e` (main.js:50-85). */
  function EntryStep(computed: map<string, string>, st: Style, e: Entry, norm: string -> string): Style {
    var oldNorm := norm(e.oldColor);
    var s1 := ChannelStep(computed, st, ColorChannel, oldNorm, e.newColor, norm);
    var s2 := ChannelStep(computed, s1, BackgroundColorChannel, oldNorm, e.newColor, norm);
    var s3 := BorderSteps(computed, s2, BorderProps, oldNorm, e.newColor, norm);
    var s4 := BackgroundImageStep(computed, s3, oldNorm, e.newColor, norm);
    var s5 := ChannelStep(computed, s4, FillChannel, oldNorm, e.newColor, norm);
    ChannelStep(computed, s5, StrokeChannel, oldNorm, e.newColor, norm)
  }

  /** The inline style after the loop over the entries of `colorMap`, in order. */
  function Colorized(computed: map<string, string>, st: Style, colorMap: seq<Entry>, norm: string -> string): Style {
    if colorMap == [] then st
    else EntryStep(computed, Colorized(computed, st, colorMap[..|colorMap| - 1], norm), colorMap[|colorMap| - 1], norm)
  }

  // ---------------------------------------------------------------------------
  // The element and the loop as it runs

  class Element {
    /** What `getComputedStyle` yields, by CSS property name, before the
        script writes to the element: the cascade's result, the element's own
        inline declarations of that moment included. The script's writes reach
        the live read through `inline`, never through this field. */
    const computed: map<string, string>
    /** `element.style`. */
    var inline: Style
    /** How many times `colorizeElement` has run on the element; it exists
        only in the proof. */
    ghost var runs: nat

    constructor (computed: map<string, string>, inline: Style)
      ensures this.computed == computed && this.inline == inline && runs == 0
    {
      this.computed := computed;
      this.inline := inline;
      runs := 0;
    }

    /** `computedStyle[accessor]`, read now. */
    function Live(accessor: string): string
      reads this
    {
      Effective(computed, inline, accessor)
    }

    /** `element.style.setProperty(property, value, priority)`. */
    method SetProperty(property: string, value: string, priority: Priority)
      modifies this
      ensures inline == old(inline)[property := Declaration(value, priority)]
      ensures runs == old(runs)
    {
      inline := inline[property := Declaration(value, priority)];
    }
  }

  /** Writes `newColor` to the channel when it matches. */
  method ColorizeChannel(element: Element, ch: Channel, oldNorm: string, newColor: string, norm: string -> string)
    modifies element
    ensures element.inline == ChannelStep(element.computed, old(element.inline), ch, oldNorm, newColor, norm)
    ensures element.runs == old(element.runs)
  {
    var value := element.Live(ch.accessor);
    if (!ch.needsValue || value != "") && norm(value) == oldNorm {
      element.SetProperty(ch.property, newColor, Important);
    }
  }

  /** The `forEach` over the border sides (main.js:63-68). */
  method ColorizeBorders(element: Element, oldNorm: string, newColor: string, norm: string -> string)
    modifies element
    ensures element.inline == BorderSteps(element.computed, old(element.inline), BorderProps, oldNorm, newColor, norm)
    ensures element.runs == old(element.runs)
  {
    for b := 0 to |BorderProps|
      invariant element.inline == BorderSteps(element.computed, old(element.inline), BorderProps[..b], oldNorm, newColor, norm)
      invariant element.runs == old(element.runs)
    {
      BorderStepsNext(element.computed, old(element.inline), BorderProps, b, oldNorm, newColor, norm);
      ColorizeChannel(element, BorderChannel(BorderProps[b]), oldNorm, newColor, norm);
    }
    assert BorderProps[..|BorderProps|] == BorderProps;
  }

  /** The gradient rewrite (main.js:70-77). */
  method ColorizeBackgroundImage(element: Element, oldNorm: string, newColor: string, norm: string -> string)
    modifies element
    ensures element.inline == BackgroundImageStep(element.computed, old(element.inline), oldNorm, newColor, norm)
    ensures element.runs == old(element.runs)
  {
    var bgImage := element.Live("backgroundImage");
    if bgImage != "none" && Contains(bgImage, "gradient") {
      var newBgImage := ReplaceColorInString(bgImage, oldNorm, newColor, norm);
      if newBgImage != bgImage {
        element.SetProperty("background-image", newBgImage, Important);
      }
    }
  }

  /** One iteration of the palette loop (main.js:50-85). */
  method ColorizeEntry(element: Element, e: Entry, norm: string -> string)
    modifies element
    ensures element.inline == EntryStep(element.computed, old(element.inline), e, norm)
    ensures element.runs == old(element.runs)
  {
    var oldColor, newColor := e.oldColor, e.newColor;
    var normalizedOldColor := norm(oldColor);
    ColorizeChannel(element, ColorChannel, normalizedOldColor, newColor, norm);
    ColorizeChannel(element, BackgroundColorChannel, normalizedOldColor, newColor, norm);
    ColorizeBorders(element, normalizedOldColor, newColor, norm);
    ColorizeBackgroundImage(element, normalizedOldColor, newColor, norm);
    ColorizeChannel(element, FillChannel, normalizedOldColor, newColor, norm);
    ColorizeChannel(element, StrokeChannel, normalizedOldColor, newColor, norm);
  }

  /** `colorizeElement(element)` with the palette `colorMap` and `normalizeColor` as `norm`. */
  method ColorizeElement(element: Element, colorMap: seq<Entry>, norm: string -> string)
    modifies element
    ensures element.inline == Colorized(element.computed, old(element.inline), colorMap, norm)
    ensures element.runs == old(element.runs) + 1
  {
    for i := 0 to |colorMap|
      invariant element.inline == Colorized(element.computed, old(element.inline), colorMap[..i], norm)
      invariant element.runs == old(element.runs)
    {
      assert colorMap[..i + 1][..i] == colorMap[..i];
      ColorizeEntry(element, colorMap[i], norm);
    }
    assert colorMap[..|colorMap|] == colorMap;
    element.runs := element.runs + 1;
  }
}
