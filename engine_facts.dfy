/** What `colorizeElement` (main.js:46-87) does to each property of an
    element, proved about the functions of module `Engine`.

    Within one palette entry the steps do not interfere: every channel is
    written under its own property, and what it reads is written by no other
    step. Over the palette, each property therefore evolves on its own, as a
    "cell" fed the entries one by one. */
module EngineFacts {
  import opened Wrappers
  import opened Palette
  import opened Substitution
  import opened Engine

  // ---------------------------------------------------------------------------
  // Property names

  predicate NoUpper(s: string) {
    forall i :: 0 <= i < |s| ==> !IsUpper(s[i])
  }

  lemma {:induction false} ConcatAppend(xs: seq<string>, ys: seq<string>)
    ensures Concat(xs + ys) == Concat(xs) + Concat(ys)
    decreases |xs|
  {
    if xs != [] {
      assert (xs + ys)[1..] == xs[1..] + ys;
      ConcatAppend(xs[1..], ys);
    } else {
      assert xs + ys == ys;
    }
  }

  lemma CssNameAppend(a: string, b: string)
    ensures CssName(a + b) == CssName(a) + CssName(b)
  {
    var pa := seq(|a|, i requires 0 <= i < |a| => Piece(a[i]));
    var pb := seq(|b|, i requires 0 <= i < |b| => Piece(b[i]));
    assert seq(|a + b|, i requires 0 <= i < |a + b| => Piece((a + b)[i])) == pa + pb;
    ConcatAppend(pa, pb);
  }

  lemma CssNameCons(a: string)
    requires a != []
    ensures CssName(a) == Piece(a[0]) + CssName(a[1..])
  {
    assert a == [a[0]] + a[1..];
    CssNameAppend([a[0]], a[1..]);
    CssNameOne(a[0]);
  }

  lemma CssNameOne(c: char)
    ensures CssName([c]) == Piece(c)
  {
    assert seq(1, i requires 0 <= i < 1 => Piece([c][i])) == [Piece(c)];
    assert Concat([Piece(c)]) == Piece(c) + Concat([]);
  }

  lemma CssNameEmpty()
    ensures CssName([]) == []
  {
  }

  lemma {:induction false} CssNameIdentity(a: string)
    requires NoUpper(a)
    ensures CssName(a) == a
    decreases |a|
  {
    if a != [] {
      CssNameCons(a);
      CssNameIdentity(a[1..]);
    } else {
      CssNameEmpty();
    }
  }

  lemma CssNameHump(c: char, a: string)
    requires IsUpper(c) && NoUpper(a)
    ensures CssName([c] + a) == "-" + [(c as int + 32) as char] + a
  {
    assert ([c] + a)[1..] == a;
    CssNameCons([c] + a);
    CssNameIdentity(a);
  }

  /** A camel-cased name with one hump. */
  lemma CamelName(a: string, c: char, b: string)
    requires NoUpper(a) && IsUpper(c) && NoUpper(b)
    ensures CssName(a + [c] + b) == a + "-" + [(c as int + 32) as char] + b
  {
    assert a + [c] + b == a + ([c] + b);
    CssNameAppend(a, [c] + b);
    CssNameIdentity(a);
    CssNameHump(c, b);
  }

  /** A camel-cased name with two humps. */
  lemma CamelName2(a: string, c: char, b: string, d: char, e: string)
    requires NoUpper(a) && IsUpper(c) && NoUpper(b) && IsUpper(d) && NoUpper(e)
    ensures CssName(a + [c] + b + [d] + e) == a + "-" + [(c as int + 32) as char] + b + "-" + [(d as int + 32) as char] + e
  {
    var x, y := a + [c] + b, [d] + e;
    assert a + [c] + b + [d] + e == x + y;
    CssNameAppend(x, y);
    CamelName(a, c, b);
    CssNameHump(d, e);
    assert CssName(x) + CssName(y) == (a + "-" + [(c as int + 32) as char] + b) + ("-" + [(d as int + 32) as char] + e);
  }

  lemma IndexOfIs(s: string, w: string, k: nat)
    requires OccursAt(s, w, k)
    requires forall i :: 0 <= i < k ==> !OccursAt(s, w, i)
    ensures IndexOf(s, w) == Some(k)
  {
  }

  /** `(p + "Color").replace("Color", "-color")` when `p` has no `C`. */
  lemma BorderNameOf(p: string)
    requires forall i :: 0 <= i < |p| ==> p[i] != 'C'
    ensures BorderInlineName(p + "Color") == p + "-color"
  {
    var s := p + "Color";
    assert OccursAt(s, "Color", |p|) by {
      assert s[|p|..] == "Color";
      assert s[|p|..|p| + 5] == s[|p|..];
    }
    forall i | 0 <= i < |p| ensures !OccursAt(s, "Color", i) {
      assert s[i] == p[i];
    }
    IndexOfIs(s, "Color", |p|);
    assert s[..|p|] == p;
    assert s[|p| + 5..] == [];
  }

  /** The inline properties the border sides are written to. */
  const BorderNames: seq<string> := ["borderTop-color", "borderRight-color", "borderBottom-color", "borderLeft-color"]

  /** The CSS properties the border sides are read from. */
  const BorderCssNames: seq<string> := ["border-top-color", "border-right-color", "border-bottom-color", "border-left-color"]

  /** The inline name of the border side `"border" + [c] + rest`. */
  lemma BorderSideInline(c: char, rest: string)
    requires c != 'C' && forall i :: 0 <= i < |rest| ==> rest[i] != 'C'
    ensures BorderInlineName("border" + [c] + rest + "Color") == "border" + [c] + rest + "-color"
  {
    var p := "border" + [c] + rest;
    forall i | 0 <= i < |p| ensures p[i] != 'C' {
      if i >= 7 { assert p[i] == rest[i - 7]; }
    }
    BorderNameOf(p);
  }

  /** The CSS name of the border side `"border" + [c] + rest`. */
  lemma BorderSideCss(c: char, rest: string)
    requires IsUpper(c) && NoUpper(rest)
    ensures CssName("border" + [c] + rest + "Color") == "border" + "-" + [(c as int + 32) as char] + rest + "-" + [('C' as int + 32) as char] + "olor"
  {
    assert "border" + [c] + rest + "Color" == "border" + [c] + rest + ['C'] + "olor";
    CamelName2("border", c, rest, 'C', "olor");
  }

  // Facts about the literals alone, kept apart from the name functions.

  lemma TopSpelled()
    ensures BorderProps[0] == "border" + ['T'] + "op" + "Color"
    ensures NoUpper("op") && forall i :: 0 <= i < |"op"| ==> "op"[i] != 'C'
    ensures BorderNames[0] == "border" + ['T'] + "op" + "-color"
    ensures BorderCssNames[0] == "border" + "-" + [('T' as int + 32) as char] + "op" + "-" + [('C' as int + 32) as char] + "olor"
  {
  }

  lemma BorderTop()
    ensures BorderInlineName(BorderProps[0]) == BorderNames[0]
    ensures CssName(BorderProps[0]) == BorderCssNames[0]
  {
    TopSpelled();
    BorderSideInline('T', "op");
    BorderSideCss('T', "op");
  }

  lemma RightSpelled()
    ensures BorderProps[1] == "border" + ['R'] + "ight" + "Color"
    ensures NoUpper("ight") && forall i :: 0 <= i < |"ight"| ==> "ight"[i] != 'C'
    ensures BorderNames[1] == "border" + ['R'] + "ight" + "-color"
    ensures BorderCssNames[1] == "border" + "-" + [('R' as int + 32) as char] + "ight" + "-" + [('C' as int + 32) as char] + "olor"
  {
  }

  lemma BorderRight()
    ensures BorderInlineName(BorderProps[1]) == BorderNames[1]
    ensures CssName(BorderProps[1]) == BorderCssNames[1]
  {
    RightSpelled();
    BorderSideInline('R', "ight");
    BorderSideCss('R', "ight");
  }

  lemma BottomSpelled()
    ensures BorderProps[2] == "border" + ['B'] + "ottom" + "Color"
    ensures NoUpper("ottom") && forall i :: 0 <= i < |"ottom"| ==> "ottom"[i] != 'C'
    ensures BorderNames[2] == "border" + ['B'] + "ottom" + "-color"
    ensures BorderCssNames[2] == "border" + "-" + [('B' as int + 32) as char] + "ottom" + "-" + [('C' as int + 32) as char] + "olor"
  {
  }

  lemma BorderBottom()
    ensures BorderInlineName(BorderProps[2]) == BorderNames[2]
    ensures CssName(BorderProps[2]) == BorderCssNames[2]
  {
    BottomSpelled();
    BorderSideInline('B', "ottom");
    BorderSideCss('B', "ottom");
  }

  lemma LeftSpelled()
    ensures BorderProps[3] == "border" + ['L'] + "eft" + "Color"
    ensures NoUpper("eft") && forall i :: 0 <= i < |"eft"| ==> "eft"[i] != 'C'
    ensures BorderNames[3] == "border" + ['L'] + "eft" + "-color"
    ensures BorderCssNames[3] == "border" + "-" + [('L' as int + 32) as char] + "eft" + "-" + [('C' as int + 32) as char] + "olor"
  {
  }

  lemma BorderLeft()
    ensures BorderInlineName(BorderProps[3]) == BorderNames[3]
    ensures CssName(BorderProps[3]) == BorderCssNames[3]
  {
    LeftSpelled();
    BorderSideInline('L', "eft");
    BorderSideCss('L', "eft");
  }

  /** The border sides are written under `borderTop-color` and so on, and read
      from `border-top-color` and so on (main.js:63-66). */
  lemma BorderSideNames()
    ensures forall k :: 0 <= k < |BorderProps| ==> BorderInlineName(BorderProps[k]) == BorderNames[k]
    ensures forall k :: 0 <= k < |BorderProps| ==> CssName(BorderProps[k]) == BorderCssNames[k]
  {
    forall k | 0 <= k < |BorderProps|
      ensures BorderInlineName(BorderProps[k]) == BorderNames[k]
      ensures CssName(BorderProps[k]) == BorderCssNames[k]
    {
      if k == 0 { BorderTop(); }
      else if k == 1 { BorderRight(); }
      else if k == 2 { BorderBottom(); }
      else { BorderLeft(); }
    }
  }

  lemma BackgroundSpelled()
    ensures "backgroundColor" == "background" + ['C'] + "olor"
    ensures "backgroundImage" == "background" + ['I'] + "mage"
    ensures NoUpper("background") && NoUpper("olor") && NoUpper("mage")
    ensures "background" + "-" + [('C' as int + 32) as char] + "olor" == "background-color"
    ensures "background" + "-" + [('I' as int + 32) as char] + "mage" == "background-image"
  {
  }

  /** `backgroundColor` and `backgroundImage` are read from `background-color`
      and `background-image` (main.js:58, 71). */
  lemma BackgroundNames()
    ensures CssName("backgroundColor") == "background-color"
    ensures CssName("backgroundImage") == "background-image"
  {
    BackgroundSpelled();
    CamelName("background", 'C', "olor");
    CamelName("background", 'I', "mage");
  }

  lemma PlainSpelled()
    ensures NoUpper("color") && NoUpper("fill") && NoUpper("stroke")
  {
  }

  /** The channels whose property is the CSS name they are read from. */
  const SimpleChannels: seq<Channel> := [ColorChannel, BackgroundColorChannel, FillChannel, StrokeChannel]

  lemma SimpleReadName(ch: Channel)
    requires ch in SimpleChannels
    ensures CssName(ch.accessor) == ch.property
  {
    PlainSpelled();
    if ch == ColorChannel { CssNameIdentity("color"); }
    else if ch == BackgroundColorChannel { BackgroundNames(); }
    else if ch == FillChannel { CssNameIdentity("fill"); }
    else { CssNameIdentity("stroke"); }
  }

  /** Every inline property `colorizeElement` may write. */
  const Written: set<string> := {"color", "background-color", "borderTop-color", "borderRight-color", "borderBottom-color",
                                 "borderLeft-color", "background-image", "fill", "stroke"}

  lemma NamesApart()
    ensures forall k :: 0 <= k < |BorderNames| ==> BorderNames[k] in Written
    ensures forall k :: 0 <= k < |BorderCssNames| ==> BorderCssNames[k] !in Written
    ensures forall j, k :: 0 <= j < k < |BorderNames| ==> BorderNames[j] != BorderNames[k]
    ensures forall ch :: ch in SimpleChannels ==> ch.property in Written && ch.property !in BorderNames
    ensures "background-image" in Written && "background-image" !in BorderNames
  {
  }

  // ---------------------------------------------------------------------------
  // One property at a time

  /** The value the live computed style shows for the CSS property `p` when
      its inline declaration is `d`. */
  function LiveValue(computed: map<string, string>, p: string, d: Option<Declaration>): string {
    if d.Some? && d.value.priority == Important then d.value.value else Get(computed, p)
  }

  lemma EffectiveIsLive(computed: map<string, string>, st: Style, accessor: string)
    ensures Effective(computed, st, accessor) == LiveValue(computed, CssName(accessor), At(st, CssName(accessor)))
  {
  }

  /** The live read of an accessor shows the value last written, `important`, to
      the CSS property behind it, and a write to any other property leaves it as
      it was (main.js:47, 54). */
  lemma ReadAfterWrite(computed: map<string, string>, st: Style, accessor: string, v: string, p: string, d: Declaration)
    ensures Effective(computed, st[CssName(accessor) := Declaration(v, Important)], accessor) == v
    ensures p != CssName(accessor) ==> Effective(computed, st[p := d], accessor) == Effective(computed, st, accessor)
  {
  }

  /** The channel test of main.js:53, 58, 65, 80 and 83 on the value `v`. */
  predicate ValueMatches(v: string, ch: Channel, e: Entry, norm: string -> string) {
    (!ch.needsValue || v != "") && norm(v) == norm(e.oldColor)
  }

  /** An `important` inline declaration. */
  function Override(value: string): Option<Declaration> {
    Some(Declaration(value, Important))
  }

  /** What the entry `e` does to the declaration `d` of a channel read from its own property. */
  function CellStep(computed: map<string, string>, ch: Channel, e: Entry, norm: string -> string,
                    d: Option<Declaration>): Option<Declaration>
  {
    if ValueMatches(LiveValue(computed, ch.property, d), ch, e, norm) then Override(e.newColor) else d
  }

  /** What the entry `e` does to the declaration `d` of a border side whose computed value is `v`. */
  function BorderCellStep(v: string, e: Entry, norm: string -> string, d: Option<Declaration>): Option<Declaration> {
    if norm(v) == norm(e.oldColor) then Override(e.newColor) else d
  }

  /** What the entry `e` does to the declaration `d` of `background-image`. */
  function ImageCellStep(computed: map<string, string>, e: Entry, norm: string -> string,
                         d: Option<Declaration>): Option<Declaration>
  {
    var v := LiveValue(computed, "background-image", d);
    if v != "none" && Contains(v, "gradient") && ReplaceColorInString(v, norm(e.oldColor), e.newColor, norm) != v
    then Override(ReplaceColorInString(v, norm(e.oldColor), e.newColor, norm))
    else d
  }

  // ---------------------------------------------------------------------------
  // The steps of one palette entry

  lemma ChannelStepAt(computed: map<string, string>, st: Style, ch: Channel, oldNorm: string, newColor: string,
                      norm: string -> string, p: string)
    ensures At(ChannelStep(computed, st, ch, oldNorm, newColor, norm), p)
         == if p == ch.property && Matches(computed, st, ch, oldNorm, norm) then Override(newColor) else At(st, p)
  {
  }

  lemma ImageRead(computed: map<string, string>, st: Style)
    ensures Effective(computed, st, "backgroundImage") == LiveValue(computed, "background-image", At(st, "background-image"))
  {
    BackgroundNames();
  }

  lemma ImageStepOwn(computed: map<string, string>, st: Style, e: Entry, norm: string -> string)
    ensures At(BackgroundImageStep(computed, st, norm(e.oldColor), e.newColor, norm), "background-image")
         == ImageCellStep(computed, e, norm, At(st, "background-image"))
  {
    ImageRead(computed, st);
  }

  /** A border side reads a property no step writes. */
  lemma BorderSideRead(computed: map<string, string>, st: Style, st': Style, k: nat)
    requires k < |BorderProps|
    requires At(st', BorderCssNames[k]) == At(st, BorderCssNames[k])
    ensures Effective(computed, st', BorderProps[k]) == Effective(computed, st, BorderProps[k])
  {
    BorderSideNames();
    EffectiveIsLive(computed, st, BorderProps[k]);
    EffectiveIsLive(computed, st', BorderProps[k]);
  }

  /** Side names fit for the border loop: side `k` is written under
      `names[k]` and read from `sources[k]`, the names are distinct, and no side
      reads a name any side writes. */
  ghost predicate SideNames(props: seq<string>, names: seq<string>, sources: seq<string>) {
    && |props| == |names| == |sources|
    && (forall k :: 0 <= k < |props| ==> BorderInlineName(props[k]) == names[k] && CssName(props[k]) == sources[k])
    && (forall j, k :: 0 <= j < |names| && 0 <= k < |sources| ==> names[j] != sources[k])
    && (forall j, k :: 0 <= j < k < |names| ==> names[j] != names[k])
  }

  lemma BorderSidesFit()
    ensures SideNames(BorderProps, BorderNames, BorderCssNames)
  {
    BorderSideNames();
    NamesApart();
  }

  /** What the border loop over the first `m` sides has done to `st`, as `r`. */
  ghost predicate BordersDone(computed: map<string, string>, st: Style, r: Style, names: seq<string>, props: seq<string>,
                              m: nat, oldNorm: string, newColor: string, norm: string -> string)
    requires m <= |props| == |names|
  {
    && (forall p :: p !in names[..m] ==> At(r, p) == At(st, p))
    && (forall k :: 0 <= k < m ==>
          At(r, names[k])
          == if norm(Effective(computed, st, props[k])) == oldNorm then Override(newColor) else At(st, names[k]))
  }

  lemma BorderStepNext(computed: map<string, string>, st: Style, r: Style, props: seq<string>, names: seq<string>,
                       sources: seq<string>, m: nat, oldNorm: string, newColor: string, norm: string -> string)
    requires SideNames(props, names, sources) && m < |props|
    requires BordersDone(computed, st, r, names, props, m, oldNorm, newColor, norm)
    ensures BordersDone(computed, st, ChannelStep(computed, r, BorderChannel(props[m]), oldNorm, newColor, norm),
                        names, props, m + 1, oldNorm, newColor, norm)
  {
    var a := props[m];
    var r' := ChannelStep(computed, r, BorderChannel(a), oldNorm, newColor, norm);
    assert sources[m] !in names[..m];
    EffectiveIsLive(computed, st, a);
    EffectiveIsLive(computed, r, a);
    assert Effective(computed, r, a) == Effective(computed, st, a);
    forall p ensures At(r', p) == if p == names[m] && norm(Effective(computed, st, a)) == oldNorm then Override(newColor) else At(r, p) {
      ChannelStepAt(computed, r, BorderChannel(a), oldNorm, newColor, norm, p);
    }
    assert names[..m + 1] == names[..m] + [names[m]];
  }

  lemma {:induction false} BorderPrefix(computed: map<string, string>, st: Style, props: seq<string>, names: seq<string>,
                                        sources: seq<string>, m: nat, oldNorm: string, newColor: string, norm: string -> string)
    requires SideNames(props, names, sources) && m <= |props|
    ensures BordersDone(computed, st, BorderSteps(computed, st, props[..m], oldNorm, newColor, norm), names, props, m,
                        oldNorm, newColor, norm)
  {
    if m > 0 {
      assert props[..m][..m - 1] == props[..m - 1];
      BorderPrefix(computed, st, props, names, sources, m - 1, oldNorm, newColor, norm);
      BorderStepNext(computed, st, BorderSteps(computed, st, props[..m - 1], oldNorm, newColor, norm), props, names, sources,
                     m - 1, oldNorm, newColor, norm);
    }
  }

  /** The border loop (main.js:63-68) writes each side under its own name,
      decided by the side's value before the loop, and nothing else. */
  lemma BorderStepsAt(computed: map<string, string>, st: Style, oldNorm: string, newColor: string, norm: string -> string)
    ensures BordersDone(computed, st, BorderSteps(computed, st, BorderProps, oldNorm, newColor, norm), BorderNames,
                        BorderProps, |BorderProps|, oldNorm, newColor, norm)
  {
    BorderSidesFit();
    BorderPrefix(computed, st, BorderProps, BorderNames, BorderCssNames, |BorderProps|, oldNorm, newColor, norm);
    assert BorderProps[..|BorderProps|] == BorderProps;
  }

  // ---------------------------------------------------------------------------
  // One palette entry, property by property

  /** The steps of `EntryStep`, as it names them. */
  datatype Stages = Stages(s1: Style, s2: Style, s3: Style, s4: Style, s5: Style, s6: Style)

  function StagesOf(computed: map<string, string>, st: Style, e: Entry, norm: string -> string): (g: Stages)
    ensures g.s6 == EntryStep(computed, st, e, norm)
  {
    var oldNorm := norm(e.oldColor);
    var s1 := ChannelStep(computed, st, ColorChannel, oldNorm, e.newColor, norm);
    var s2 := ChannelStep(computed, s1, BackgroundColorChannel, oldNorm, e.newColor, norm);
    var s3 := BorderSteps(computed, s2, BorderProps, oldNorm, e.newColor, norm);
    var s4 := BackgroundImageStep(computed, s3, oldNorm, e.newColor, norm);
    var s5 := ChannelStep(computed, s4, FillChannel, oldNorm, e.newColor, norm);
    var s6 := ChannelStep(computed, s5, StrokeChannel, oldNorm, e.newColor, norm);
    Stages(s1, s2, s3, s4, s5, s6)
  }

  /** The first three steps of an entry leave alone every property they do not own. */
  lemma StagesAtFront(computed: map<string, string>, st: Style, e: Entry, norm: string -> string, p: string)
    ensures var g := StagesOf(computed, st, e, norm);
            && (p != ColorChannel.property ==> At(g.s1, p) == At(st, p))
            && (p != BackgroundColorChannel.property ==> At(g.s2, p) == At(g.s1, p))
            && (p !in BorderNames ==> At(g.s3, p) == At(g.s2, p))
  {
    var g := StagesOf(computed, st, e, norm);
    StageChannelFrame(computed, st, g.s1, ColorChannel, e, norm, p);
    StageChannelFrame(computed, g.s1, g.s2, BackgroundColorChannel, e, norm, p);
    StageBordersFrame(computed, g.s2, g.s3, e, norm, p);
  }

  /** The last three steps of an entry leave alone every property they do not own. */
  lemma StagesAtBack(computed: map<string, string>, st: Style, e: Entry, norm: string -> string, p: string)
    ensures var g := StagesOf(computed, st, e, norm);
            && (p != "background-image" ==> At(g.s4, p) == At(g.s3, p))
            && (p != FillChannel.property ==> At(g.s5, p) == At(g.s4, p))
            && (p != StrokeChannel.property ==> At(g.s6, p) == At(g.s5, p))
  {
    var g := StagesOf(computed, st, e, norm);
    StageImageFrame(computed, g.s3, g.s4, e, norm, p);
    StageChannelFrame(computed, g.s4, g.s5, FillChannel, e, norm, p);
    StageChannelFrame(computed, g.s5, g.s6, StrokeChannel, e, norm, p);
  }

  lemma StageChannelFrame(computed: map<string, string>, st: Style, st': Style, ch: Channel, e: Entry,
                          norm: string -> string, p: string)
    requires st' == ChannelStep(computed, st, ch, norm(e.oldColor), e.newColor, norm)
    ensures p != ch.property ==> At(st', p) == At(st, p)
  {
  }

  lemma StageBordersFrame(computed: map<string, string>, st: Style, st': Style, e: Entry, norm: string -> string, p: string)
    requires st' == BorderSteps(computed, st, BorderProps, norm(e.oldColor), e.newColor, norm)
    ensures p !in BorderNames ==> At(st', p) == At(st, p)
  {
    BorderStepsAt(computed, st, norm(e.oldColor), e.newColor, norm);
    assert BorderNames[..|BorderProps|] == BorderNames;
  }

  lemma StageImageFrame(computed: map<string, string>, st: Style, st': Style, e: Entry, norm: string -> string, p: string)
    requires st' == BackgroundImageStep(computed, st, norm(e.oldColor), e.newColor, norm)
    ensures p != "background-image" ==> At(st', p) == At(st, p)
  {
  }

  lemma StageChannelOwn(computed: map<string, string>, st: Style, st': Style, ch: Channel, e: Entry, norm: string -> string)
    requires ch in SimpleChannels
    requires st' == ChannelStep(computed, st, ch, norm(e.oldColor), e.newColor, norm)
    ensures At(st', ch.property) == CellStep(computed, ch, e, norm, At(st, ch.property))
  {
    SimpleReadName(ch);
    EffectiveIsLive(computed, st, ch.accessor);
  }

  /** Within one entry, `color`, `background-color`, `fill` and `stroke` are
      each decided by their own value before the entry (main.js:53-59, 80-85). */
  lemma SimpleEntry(computed: map<string, string>, st: Style, e: Entry, norm: string -> string, ch: Channel)
    requires ch in SimpleChannels
    ensures At(EntryStep(computed, st, e, norm), ch.property) == CellStep(computed, ch, e, norm, At(st, ch.property))
  {
    if ch == ColorChannel || ch == BackgroundColorChannel {
      SimpleEntryFront(computed, st, e, norm, ch);
    } else {
      SimpleEntryBack(computed, st, e, norm, ch);
    }
  }

  lemma SimpleEntryFront(computed: map<string, string>, st: Style, e: Entry, norm: string -> string, ch: Channel)
    requires ch == ColorChannel || ch == BackgroundColorChannel
    ensures At(EntryStep(computed, st, e, norm), ch.property) == CellStep(computed, ch, e, norm, At(st, ch.property))
  {
    var g := StagesOf(computed, st, e, norm);
    NamesApart();
    StagesAtFront(computed, st, e, norm, ch.property);
    StagesAtBack(computed, st, e, norm, ch.property);
    if ch == ColorChannel {
      StageChannelOwn(computed, st, g.s1, ch, e, norm);
    } else {
      StageChannelOwn(computed, g.s1, g.s2, ch, e, norm);
    }
  }

  lemma SimpleEntryBack(computed: map<string, string>, st: Style, e: Entry, norm: string -> string, ch: Channel)
    requires ch == FillChannel || ch == StrokeChannel
    ensures At(EntryStep(computed, st, e, norm), ch.property) == CellStep(computed, ch, e, norm, At(st, ch.property))
  {
    var g := StagesOf(computed, st, e, norm);
    NamesApart();
    StagesAtFront(computed, st, e, norm, ch.property);
    StagesAtBack(computed, st, e, norm, ch.property);
    if ch == FillChannel {
      StageChannelOwn(computed, g.s4, g.s5, ch, e, norm);
    } else {
      StageChannelOwn(computed, g.s5, g.s6, ch, e, norm);
    }
  }

  /** Within one entry, nothing outside `Written` changes. */
  lemma EntryFrame(computed: map<string, string>, st: Style, e: Entry, norm: string -> string, p: string)
    requires p !in Written
    ensures At(EntryStep(computed, st, e, norm), p) == At(st, p)
  {
    NamesApart();
    assert p !in BorderNames;
    StagesAtFront(computed, st, e, norm, p);
    StagesAtBack(computed, st, e, norm, p);
  }

  /** Within one entry, `background-image` is decided by its own value before
      the entry (main.js:70-77). */
  lemma ImageEntry(computed: map<string, string>, st: Style, e: Entry, norm: string -> string)
    ensures At(EntryStep(computed, st, e, norm), "background-image") == ImageCellStep(computed, e, norm, At(st, "background-image"))
  {
    var g := StagesOf(computed, st, e, norm);
    NamesApart();
    StagesAtFront(computed, st, e, norm, "background-image");
    StagesAtBack(computed, st, e, norm, "background-image");
    ImageStepOwn(computed, g.s3, e, norm);
  }

  /** Within one entry, border side `k` is decided by its computed value, which
      no write of the entry changes (main.js:63-68). */
  lemma BorderEntry(computed: map<string, string>, st: Style, e: Entry, norm: string -> string, k: nat)
    requires k < |BorderProps|
    ensures At(EntryStep(computed, st, e, norm), BorderNames[k])
         == BorderCellStep(Effective(computed, st, BorderProps[k]), e, norm, At(st, BorderNames[k]))
    ensures Effective(computed, EntryStep(computed, st, e, norm), BorderProps[k]) == Effective(computed, st, BorderProps[k])
  {
    var g := StagesOf(computed, st, e, norm);
    NamesApart();
    StagesAtFront(computed, st, e, norm, BorderNames[k]);
    StagesAtBack(computed, st, e, norm, BorderNames[k]);
    StagesAtFront(computed, st, e, norm, BorderCssNames[k]);
    assert BorderCssNames[k] !in BorderNames;
    BorderSideRead(computed, st, g.s2, k);
    BorderStepsAt(computed, g.s2, norm(e.oldColor), e.newColor, norm);
    EntryFrame(computed, st, e, norm, BorderCssNames[k]);
    BorderSideRead(computed, st, g.s6, k);
  }

  // ---------------------------------------------------------------------------
  // The palette loop, property by property

  /** The declaration of a channel read from its own property after the entries of `colorMap`. */
  function CellTrace(computed: map<string, string>, ch: Channel, d: Option<Declaration>, colorMap: seq<Entry>,
                     norm: string -> string): Option<Declaration>
  {
    if colorMap == [] then d
    else CellStep(computed, ch, colorMap[|colorMap| - 1], norm, CellTrace(computed, ch, d, colorMap[..|colorMap| - 1], norm))
  }

  /** The declaration of a border side whose computed value is `v` after the entries of `colorMap`. */
  function BorderTrace(v: string, d: Option<Declaration>, colorMap: seq<Entry>, norm: string -> string): Option<Declaration> {
    if colorMap == [] then d
    else BorderCellStep(v, colorMap[|colorMap| - 1], norm, BorderTrace(v, d, colorMap[..|colorMap| - 1], norm))
  }

  /** The declaration of `background-image` after the entries of `colorMap`. */
  function ImageTrace(computed: map<string, string>, d: Option<Declaration>, colorMap: seq<Entry>,
                      norm: string -> string): Option<Declaration>
  {
    if colorMap == [] then d
    else ImageCellStep(computed, colorMap[|colorMap| - 1], norm, ImageTrace(computed, d, colorMap[..|colorMap| - 1], norm))
  }

  /** The palette loop acts on `color`, `background-color`, `fill` and `stroke`
      each on its own. */
  lemma {:induction false} ColorizedSimple(computed: map<string, string>, st: Style, colorMap: seq<Entry>,
                                           norm: string -> string, ch: Channel)
    requires ch in SimpleChannels
    ensures At(Colorized(computed, st, colorMap, norm), ch.property) == CellTrace(computed, ch, At(st, ch.property), colorMap, norm)
  {
    if colorMap != [] {
      var init := colorMap[..|colorMap| - 1];
      ColorizedSimple(computed, st, init, norm, ch);
      SimpleEntry(computed, Colorized(computed, st, init, norm), colorMap[|colorMap| - 1], norm, ch);
    }
  }

  /** The palette loop acts on each border side on its own, and never changes
      the value the side is read from. */
  lemma {:induction false} ColorizedBorder(computed: map<string, string>, st: Style, colorMap: seq<Entry>,
                                           norm: string -> string, k: nat)
    requires k < |BorderProps|
    ensures At(Colorized(computed, st, colorMap, norm), BorderNames[k])
         == BorderTrace(Effective(computed, st, BorderProps[k]), At(st, BorderNames[k]), colorMap, norm)
    ensures Effective(computed, Colorized(computed, st, colorMap, norm), BorderProps[k]) == Effective(computed, st, BorderProps[k])
  {
    if colorMap != [] {
      var init := colorMap[..|colorMap| - 1];
      ColorizedBorder(computed, st, init, norm, k);
      BorderEntry(computed, Colorized(computed, st, init, norm), colorMap[|colorMap| - 1], norm, k);
    }
  }

  /** The palette loop acts on `background-image` on its own. */
  lemma {:induction false} ColorizedImage(computed: map<string, string>, st: Style, colorMap: seq<Entry>,
                                          norm: string -> string)
    ensures At(Colorized(computed, st, colorMap, norm), "background-image")
         == ImageTrace(computed, At(st, "background-image"), colorMap, norm)
  {
    if colorMap != [] {
      var init := colorMap[..|colorMap| - 1];
      ColorizedImage(computed, st, init, norm);
      ImageEntry(computed, Colorized(computed, st, init, norm), colorMap[|colorMap| - 1], norm);
    }
  }

  /** `colorizeElement` writes no inline property outside `Written`. */
  lemma {:induction false} ColorizedFrame(computed: map<string, string>, st: Style, colorMap: seq<Entry>,
                                          norm: string -> string, p: string)
    requires p !in Written
    ensures At(Colorized(computed, st, colorMap, norm), p) == At(st, p)
  {
    if colorMap != [] {
      var init := colorMap[..|colorMap| - 1];
      ColorizedFrame(computed, st, init, norm, p);
      EntryFrame(computed, Colorized(computed, st, init, norm), colorMap[|colorMap| - 1], norm, p);
    }
  }

  // ---------------------------------------------------------------------------
  // Which entry wins

  /** The first entry of `colorMap` whose test the value `v` passes. */
  function FirstMatch(v: string, ch: Channel, colorMap: seq<Entry>, norm: string -> string): (r: Option<nat>)
    ensures r.Some? ==> r.value < |colorMap| && ValueMatches(v, ch, colorMap[r.value], norm)
    ensures r.Some? ==> forall j :: 0 <= j < r.value ==> !ValueMatches(v, ch, colorMap[j], norm)
    ensures r.None? ==> forall j :: 0 <= j < |colorMap| ==> !ValueMatches(v, ch, colorMap[j], norm)
  {
    if colorMap == [] then None
    else
      var init := colorMap[..|colorMap| - 1];
      var r := FirstMatch(v, ch, init, norm);
      assert forall j :: 0 <= j < |init| ==> init[j] == colorMap[j];
      if r.Some? then r
      else if ValueMatches(v, ch, colorMap[|colorMap| - 1], norm) then Some(|colorMap| - 1)
      else None
  }

  /** The last entry of `colorMap` whose old colour normalises like `v`. */
  function LastMatch(v: string, colorMap: seq<Entry>, norm: string -> string): (r: Option<nat>)
    ensures r.Some? ==> r.value < |colorMap| && norm(v) == norm(colorMap[r.value].oldColor)
    ensures r.Some? ==> forall j :: r.value < j < |colorMap| ==> norm(v) != norm(colorMap[j].oldColor)
    ensures r.None? ==> forall j :: 0 <= j < |colorMap| ==> norm(v) != norm(colorMap[j].oldColor)
  {
    if colorMap == [] then None
    else if norm(v) == norm(colorMap[|colorMap| - 1].oldColor) then Some(|colorMap| - 1)
    else
      var init := colorMap[..|colorMap| - 1];
      assert forall j :: 0 <= j < |init| ==> init[j] == colorMap[j];
      LastMatch(v, init, norm)
  }

  /** No replacement colour normalises like any old colour of the palette, so
      that a replacement is never replaced again. */
  predicate NoCollision(colorMap: seq<Entry>, norm: string -> string) {
    forall i, j :: 0 <= i < |colorMap| && 0 <= j < |colorMap| ==> norm(colorMap[i].newColor) != norm(colorMap[j].oldColor)
  }

  /** A channel's declaration after the palette: the replacement of the first
      entry its value matches, or what it was. */
  lemma {:induction false} CellTraceFirst(computed: map<string, string>, ch: Channel, d: Option<Declaration>,
                                          colorMap: seq<Entry>, norm: string -> string)
    requires NoCollision(colorMap, norm)
    ensures CellTrace(computed, ch, d, colorMap, norm)
         == match FirstMatch(LiveValue(computed, ch.property, d), ch, colorMap, norm)
            case None => d
            case Some(i) => Override(colorMap[i].newColor)
  {
    if colorMap != [] {
      var init := colorMap[..|colorMap| - 1];
      var last := colorMap[|colorMap| - 1];
      assert forall j :: 0 <= j < |init| ==> init[j] == colorMap[j];
      assert NoCollision(init, norm);
      CellTraceFirst(computed, ch, d, init, norm);
      var r := FirstMatch(LiveValue(computed, ch.property, d), ch, init, norm);
      if r.Some? {
        assert norm(colorMap[r.value].newColor) != norm(last.oldColor);
      }
    }
  }

  /** A border side's declaration after the palette: the replacement of the
      last entry its value matches, or what it was. */
  lemma {:induction false} BorderTraceLast(v: string, d: Option<Declaration>, colorMap: seq<Entry>, norm: string -> string)
    ensures BorderTrace(v, d, colorMap, norm)
         == match LastMatch(v, colorMap, norm)
            case None => d
            case Some(i) => Override(colorMap[i].newColor)
  {
    if colorMap != [] {
      var init := colorMap[..|colorMap| - 1];
      assert forall j :: 0 <= j < |init| ==> init[j] == colorMap[j];
      BorderTraceLast(v, d, init, norm);
    }
  }

  /** `background-image` keeps its declaration when no colour in its value
      matches any entry (main.js:74). */
  lemma {:induction false} ImageTraceInert(computed: map<string, string>, d: Option<Declaration>, colorMap: seq<Entry>,
                                           norm: string -> string)
    requires forall j :: 0 <= j < |colorMap| ==>
               !SomeColorMatches(Segments(LiveValue(computed, "background-image", d)), norm(colorMap[j].oldColor), norm)
    ensures ImageTrace(computed, d, colorMap, norm) == d
  {
    if colorMap != [] {
      var init := colorMap[..|colorMap| - 1];
      assert forall j :: 0 <= j < |init| ==> init[j] == colorMap[j];
      ImageTraceInert(computed, d, init, norm);
      var last := colorMap[|colorMap| - 1];
      var v := LiveValue(computed, "background-image", d);
      assert ReplaceColorInString(v, norm(last.oldColor), last.newColor, norm) == v;
    }
  }

  // ---------------------------------------------------------------------------
  // What `colorizeElement` promises

  /** One entry overrides `color`, `background-color`, `fill` or `stroke` with
      its replacement exactly when the live value passes the channel's test,
      and otherwise leaves the declaration alone (main.js:53-59, 80-85). */
  lemma ChannelEntry(computed: map<string, string>, st: Style, e: Entry, norm: string -> string, ch: Channel)
    requires ch in SimpleChannels
    ensures At(EntryStep(computed, st, e, norm), ch.property)
         == if ValueMatches(Effective(computed, st, ch.accessor), ch, e, norm) then Override(e.newColor) else At(st, ch.property)
  {
    SimpleEntry(computed, st, e, norm, ch);
    SimpleReadName(ch);
    EffectiveIsLive(computed, st, ch.accessor);
  }

  /** One entry writes `background-image` only when the live value is not
      `none`, mentions `gradient` and changes under substitution, and then
      writes the substituted value (main.js:70-77). */
  lemma BackgroundImageEntry(computed: map<string, string>, st: Style, e: Entry, norm: string -> string)
    ensures var v := Effective(computed, st, "backgroundImage");
            var w := ReplaceColorInString(v, norm(e.oldColor), e.newColor, norm);
            At(EntryStep(computed, st, e, norm), "background-image")
            == if v != "none" && Contains(v, "gradient") && w != v then Override(w) else At(st, "background-image")
  {
    ImageEntry(computed, st, e, norm);
    ImageRead(computed, st);
  }

  /** Over the whole palette, `color`, `background-color`, `fill` and `stroke`
      take the replacement of the FIRST entry their original value matches: a
      replacement, read back through the live style, matches no later entry. */
  lemma ChannelFirstMatch(computed: map<string, string>, st: Style, colorMap: seq<Entry>, norm: string -> string,
                          ch: Channel)
    requires ch in SimpleChannels && NoCollision(colorMap, norm)
    ensures At(Colorized(computed, st, colorMap, norm), ch.property)
         == match FirstMatch(Effective(computed, st, ch.accessor), ch, colorMap, norm)
            case None => At(st, ch.property)
            case Some(i) => Override(colorMap[i].newColor)
  {
    ColorizedSimple(computed, st, colorMap, norm, ch);
    CellTraceFirst(computed, ch, At(st, ch.property), colorMap, norm);
    SimpleReadName(ch);
    EffectiveIsLive(computed, st, ch.accessor);
  }

  /** Over the whole palette, a border side takes the replacement of the LAST
      entry its computed value matches: the border writes go to names the
      live style never reads back (main.js:63-68). */
  lemma BorderLastMatch(computed: map<string, string>, st: Style, colorMap: seq<Entry>, norm: string -> string, k: nat)
    requires k < |BorderProps|
    ensures At(Colorized(computed, st, colorMap, norm), BorderNames[k])
         == match LastMatch(Effective(computed, st, BorderProps[k]), colorMap, norm)
            case None => At(st, BorderNames[k])
            case Some(i) => Override(colorMap[i].newColor)
  {
    ColorizedBorder(computed, st, colorMap, norm, k);
    BorderTraceLast(Effective(computed, st, BorderProps[k]), At(st, BorderNames[k]), colorMap, norm);
  }

  /** When no colour in the live `background-image` matches any entry, the
      declaration is left as it was (main.js:74). */
  lemma BackgroundImageUntouched(computed: map<string, string>, st: Style, colorMap: seq<Entry>, norm: string -> string)
    requires forall j :: 0 <= j < |colorMap| ==>
               !SomeColorMatches(Segments(Effective(computed, st, "backgroundImage")), norm(colorMap[j].oldColor), norm)
    ensures At(Colorized(computed, st, colorMap, norm), "background-image") == At(st, "background-image")
  {
    ImageRead(computed, st);
    ColorizedImage(computed, st, colorMap, norm);
    ImageTraceInert(computed, At(st, "background-image"), colorMap, norm);
  }

  /** `d'` is `d`, or an `important` declaration. */
  predicate KeptOrImportant(d: Option<Declaration>, d': Option<Declaration>) {
    d' == d || (d'.Some? && d'.value.priority == Important)
  }

  lemma {:induction false} CellTraceWrites(computed: map<string, string>, ch: Channel, d: Option<Declaration>,
                                           colorMap: seq<Entry>, norm: string -> string)
    ensures KeptOrImportant(d, CellTrace(computed, ch, d, colorMap, norm))
  {
    if colorMap != [] {
      CellTraceWrites(computed, ch, d, colorMap[..|colorMap| - 1], norm);
    }
  }

  lemma {:induction false} BorderTraceWrites(v: string, d: Option<Declaration>, colorMap: seq<Entry>, norm: string -> string)
    ensures KeptOrImportant(d, BorderTrace(v, d, colorMap, norm))
  {
    if colorMap != [] {
      BorderTraceWrites(v, d, colorMap[..|colorMap| - 1], norm);
    }
  }

  lemma {:induction false} ImageTraceWrites(computed: map<string, string>, d: Option<Declaration>, colorMap: seq<Entry>,
                                            norm: string -> string)
    ensures KeptOrImportant(d, ImageTrace(computed, d, colorMap, norm))
  {
    if colorMap != [] {
      ImageTraceWrites(computed, d, colorMap[..|colorMap| - 1], norm);
    }
  }

  /** `colorizeElement` changes the inline style only through `important`
      declarations, and only of the properties in `Written` (main.js:46-87). */
  lemma ColorizedWrites(computed: map<string, string>, st: Style, colorMap: seq<Entry>, norm: string -> string, p: string)
    ensures p !in Written ==> At(Colorized(computed, st, colorMap, norm), p) == At(st, p)
    ensures KeptOrImportant(At(st, p), At(Colorized(computed, st, colorMap, norm), p))
  {
    if p !in Written {
      ColorizedFrame(computed, st, colorMap, norm, p);
    } else if p == "background-image" {
      ColorizedImage(computed, st, colorMap, norm);
      ImageTraceWrites(computed, At(st, p), colorMap, norm);
    } else if p in BorderNames {
      var k :| 0 <= k < |BorderNames| && BorderNames[k] == p;
      ColorizedBorder(computed, st, colorMap, norm, k);
      BorderTraceWrites(Effective(computed, st, BorderProps[k]), At(st, p), colorMap, norm);
    } else {
      var ch := SimpleChannelOf(p);
      ColorizedSimple(computed, st, colorMap, norm, ch);
      CellTraceWrites(computed, ch, At(st, p), colorMap, norm);
    }
  }

  /** The simple channel written under `p`. */
  function SimpleChannelOf(p: string): (ch: Channel)
    requires p in Written && p != "background-image" && p !in BorderNames
    ensures ch in SimpleChannels && ch.property == p
  {
    if p == "color" then ColorChannel
    else if p == "background-color" then BackgroundColorChannel
    else if p == "fill" then FillChannel
    else StrokeChannel
  }

  lemma IdempotentSimple(computed: map<string, string>, st: Style, colorMap: seq<Entry>, norm: string -> string, ch: Channel)
    requires ch in SimpleChannels && NoCollision(colorMap, norm)
    ensures var once := Colorized(computed, st, colorMap, norm);
            At(Colorized(computed, once, colorMap, norm), ch.property) == At(once, ch.property)
  {
    var once := Colorized(computed, st, colorMap, norm);
    var d0 := At(st, ch.property);
    ColorizedSimple(computed, st, colorMap, norm, ch);
    ColorizedSimple(computed, once, colorMap, norm, ch);
    CellTraceFirst(computed, ch, d0, colorMap, norm);
    var d1 := At(once, ch.property);
    CellTraceFirst(computed, ch, d1, colorMap, norm);
    match FirstMatch(LiveValue(computed, ch.property, d0), ch, colorMap, norm) {
      case None =>
      case Some(i) =>
        assert LiveValue(computed, ch.property, d1) == colorMap[i].newColor;
        assert FirstMatch(colorMap[i].newColor, ch, colorMap, norm).None?;
    }
  }

  lemma IdempotentBorder(computed: map<string, string>, st: Style, colorMap: seq<Entry>, norm: string -> string, k: nat)
    requires k < |BorderProps|
    ensures var once := Colorized(computed, st, colorMap, norm);
            At(Colorized(computed, once, colorMap, norm), BorderNames[k]) == At(once, BorderNames[k])
  {
    var once := Colorized(computed, st, colorMap, norm);
    BorderLastMatch(computed, st, colorMap, norm, k);
    BorderLastMatch(computed, once, colorMap, norm, k);
    ColorizedBorder(computed, st, colorMap, norm, k);
  }

  /** Colorizing an element a second time changes nothing but possibly
      `background-image`, as long as no replacement is itself a palette colour. */
  lemma ColorizedIdempotent(computed: map<string, string>, st: Style, colorMap: seq<Entry>, norm: string -> string, p: string)
    requires NoCollision(colorMap, norm) && p != "background-image"
    ensures var once := Colorized(computed, st, colorMap, norm);
            At(Colorized(computed, once, colorMap, norm), p) == At(once, p)
  {
    var once := Colorized(computed, st, colorMap, norm);
    if p !in Written {
      ColorizedFrame(computed, once, colorMap, norm, p);
    } else if p in BorderNames {
      var k :| 0 <= k < |BorderNames| && BorderNames[k] == p;
      IdempotentBorder(computed, st, colorMap, norm, k);
    } else {
      IdempotentSimple(computed, st, colorMap, norm, SimpleChannelOf(p));
    }
  }
}
