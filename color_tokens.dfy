/** The colour tokens of `replaceColorInString` (main.js:37): the regular expression
    `rgb(...)|rgba(...)|hsl(...)|hsla(...)|#[0-9a-fA-F]{3,8}` with flags `gi`,
    written as a hand-made scanner.

    Every quantifier of the expression stands before a character that its own class
    cannot contain (`\s*` before a digit, `\d+` before a blank, a comma or a
    parenthesis, ...), so the backtracking of a JavaScript regular expression never
    changes the end of a match: scanning each quantifier greedily, as below, finds the
    same match. The one place where two quantifiers meet, `\s*(?:deg)?\s*` without
    the `deg`, is scanned as a single run of blanks (the `gap` of a field).

    The scanner returns a parse tree (`Token`) whose `Text` is the matched text,
    character for character; `WellFormed` is the grammar of the expression stated
    declaratively, and the lemmas prove that the scanner accepts exactly the
    well-formed tokens. */
module ColorTokens {
  import opened Wrappers

  /** `\d` */
  predicate IsDigit(c: char) { '0' <= c <= '9' }

  /** `[\d.]` */
  predicate IsNumeral(c: char) { IsDigit(c) || c == '.' }

  /** `[0-9a-fA-F]`; the `i` flag adds nothing to it. */
  predicate IsHexDigit(c: char) { IsDigit(c) || 'a' <= c <= 'f' || 'A' <= c <= 'F' }

  /** `\s` of a JavaScript regular expression: the WhiteSpace and LineTerminator
      code points of ECMAScript. */
  predicate IsSpace(c: char) {
    c == '\t' || c == '\n' || c == '\U{B}' || c == '\U{C}' || c == '\r' || c == ' '
    || c == '\U{A0}' || c == '\U{1680}' || ('\U{2000}' <= c <= '\U{200A}')
    || c == '\U{2028}' || c == '\U{2029}' || c == '\U{202F}' || c == '\U{205F}'
    || c == '\U{3000}' || c == '\U{FEFF}'
  }

  /** Case folding of the `i` flag, restricted to what the expression needs:
      its letters are all ASCII, and outside Unicode mode no non-ASCII
      character folds to an ASCII letter, so folding ASCII letters suffices. */
  function Lower(c: char): char {
    if 'A' <= c <= 'Z' then (c as int + 32) as char else c
  }

  /** `a` and `b` are equal up to the case of ASCII letters. */
  predicate SameLetters(a: string, b: string) {
    |a| == |b| && forall i :: 0 <= i < |a| ==> Lower(a[i]) == Lower(b[i])
  }

  predicate StartsWithIgnoringCase(s: string, w: string) {
    |w| <= |s| && SameLetters(s[..|w|], w)
  }

  datatype CharClass = Space | Digit | Numeral | HexDigit

  predicate InClass(k: CharClass, c: char) {
    match k
    case Space => IsSpace(c)
    case Digit => IsDigit(c)
    case Numeral => IsNumeral(c)
    case HexDigit => IsHexDigit(c)
  }

  predicate AllIn(k: CharClass, s: string) {
    forall i :: 0 <= i < |s| ==> InClass(k, s[i])
  }

  /** A greedy `k*`: the longest prefix of `s` made of `k`, and what follows it. */
  function Span(s: string, k: CharClass): (r: (string, string))
    ensures r.0 + r.1 == s
    ensures AllIn(k, r.0)
    ensures r.1 == [] || !InClass(k, r.1[0])
  {
    if s != [] && InClass(k, s[0]) then
      var (p, rest) := Span(s[1..], k);
      assert [s[0]] + p + rest == s;
      ([s[0]] + p, rest)
    else
      ([], s)
  }

  /** A greedy `k{0,max}`. */
  function SpanUpTo(s: string, k: CharClass, max: nat): (r: (string, string))
    ensures r.0 + r.1 == s
    ensures AllIn(k, r.0) && |r.0| <= max
    ensures |r.0| == max || r.1 == [] || !InClass(k, r.1[0])
  {
    if max > 0 && s != [] && InClass(k, s[0]) then
      var (p, rest) := SpanUpTo(s[1..], k, max - 1);
      assert [s[0]] + p + rest == s;
      ([s[0]] + p, rest)
    else
      ([], s)
  }

  /** A greedy run is determined by where the class stops. */
  lemma {:induction false} SpanOf(p: string, rest: string, k: CharClass)
    requires AllIn(k, p)
    requires rest == [] || !InClass(k, rest[0])
    ensures Span(p + rest, k) == (p, rest)
  {
    if p == [] {
      assert p + rest == rest;
    } else {
      assert (p + rest)[0] == p[0];
      assert (p + rest)[1..] == p[1..] + rest;
      SpanOf(p[1..], rest, k);
      assert [p[0]] + p[1..] == p;
    }
  }

  lemma {:induction false} SpanUpToOf(p: string, rest: string, k: CharClass, max: nat)
    requires AllIn(k, p) && |p| <= max
    requires |p| == max || rest == [] || !InClass(k, rest[0])
    ensures SpanUpTo(p + rest, k, max) == (p, rest)
  {
    if p == [] {
      assert p + rest == rest;
    } else {
      assert (p + rest)[0] == p[0];
      assert (p + rest)[1..] == p[1..] + rest;
      SpanUpToOf(p[1..], rest, k, max - 1);
      assert [p[0]] + p[1..] == p;
    }
  }

  // ---------------------------------------------------------------------------
  // Fields of the functional notations

  /** The four shapes of argument in the expression:
      Integer `\s*\d+\s*`, Number `\s*[\d.]+\s*`, Angle `\s*[\d.]+\s*(?:deg)?\s*`
      and Percentage `\s*[\d.]+\s*%\s*`. */
  datatype FieldKind = Integer | Number | Angle | Percentage

  /** One argument as written: blanks, the numeral, blanks, the unit (`deg`, `%`
      or nothing) and blanks. */
  datatype Field = Field(lead: string, numeral: string, gap: string, unit: string, trail: string)

  function FieldText(f: Field): string {
    f.lead + f.numeral + f.gap + f.unit + f.trail
  }

  function NumeralClass(kind: FieldKind): CharClass {
    if kind == Integer then Digit else Numeral
  }

  /** The grammar of one argument. An Angle without `deg` keeps all its blanks
      in `gap`, so that every argument text has exactly one field. */
  predicate WellFormedField(f: Field, kind: FieldKind) {
    && AllIn(Space, f.lead)
    && f.numeral != [] && AllIn(NumeralClass(kind), f.numeral)
    && WellFormedSuffix(f.gap, f.unit, f.trail, kind)
  }

  /** `\s*` followed by a non-empty run of `k`: the blanks and numeral of a field. */
  function ScanNumeral(s: string, k: CharClass): (r: Option<(string, string, string)>)
    ensures r.Some? ==> AllIn(Space, r.value.0) && r.value.1 != [] && AllIn(k, r.value.1)
    ensures r.Some? ==> s == r.value.0 + (r.value.1 + r.value.2)
  {
    var (lead, r1) := Span(s, Space);
    var (numeral, r2) := Span(r1, k);
    if numeral == [] then None else Some((lead, numeral, r2))
  }

  /** The part of a field after its numeral, as the grammar of `kind` allows it. */
  predicate WellFormedSuffix(gap: string, unit: string, trail: string, kind: FieldKind) {
    && AllIn(Space, gap) && AllIn(Space, trail)
    && match kind
       case Integer => gap == [] && unit == []
       case Number => gap == [] && unit == []
       case Angle => SameLetters(unit, "deg") || (unit == [] && trail == [])
       case Percentage => unit == "%"
  }

  /** Integer and Number: `\s*`. Angle: `\s*(?:deg)?\s*`. Percentage: `\s*%\s*`. */
  function ScanSuffix(s: string, kind: FieldKind): (r: Option<(string, string, string, string)>)
    ensures r.Some? ==> WellFormedSuffix(r.value.0, r.value.1, r.value.2, kind)
    ensures r.Some? ==> s == r.value.0 + (r.value.1 + (r.value.2 + r.value.3))
  {
    var (blanks, r1) := Span(s, Space);
    match kind
    case Integer => Some(([], [], blanks, r1))
    case Number => Some(([], [], blanks, r1))
    case Angle =>
      if StartsWithIgnoringCase(r1, "deg") then
        var (trail, r2) := Span(r1[3..], Space);
        assert r1 == r1[..3] + r1[3..];
        Some((blanks, r1[..3], trail, r2))
      else
        Some((blanks, [], [], r1))
    case Percentage =>
      if r1 != [] && r1[0] == '%' then
        var (trail, r2) := Span(r1[1..], Space);
        assert r1 == "%" + r1[1..];
        Some((blanks, "%", trail, r2))
      else
        None
  }

  function ScanField(s: string, kind: FieldKind): (r: Option<(Field, string)>)
    ensures r.Some? ==> WellFormedField(r.value.0, kind) && FieldText(r.value.0) + r.value.1 == s
  {
    var n := ScanNumeral(s, NumeralClass(kind));
    if n.None? then None
    else
      var (lead, numeral, r1) := n.value;
      var x := ScanSuffix(r1, kind);
      if x.None? then None
      else
        var (gap, unit, trail, rest) := x.value;
        var f := Field(lead, numeral, gap, unit, trail);
        FieldTextAppend(f, rest);
        Some((f, rest))
  }

  lemma FieldTextAppend(f: Field, rest: string)
    ensures FieldText(f) + rest == f.lead + (f.numeral + (f.gap + (f.unit + (f.trail + rest))))
  {
  }

  /** The arguments of a functional notation: fields separated by `,` and closed by `)`. */
  function ArgumentsText(fs: seq<Field>): string {
    if fs == [] then []
    else FieldText(fs[0]) + (if |fs| == 1 then ")" else "," + ArgumentsText(fs[1..]))
  }

  predicate WellFormedArguments(fs: seq<Field>, kinds: seq<FieldKind>) {
    |fs| == |kinds| && forall i :: 0 <= i < |fs| ==> WellFormedField(fs[i], kinds[i])
  }

  function ScanArguments(s: string, kinds: seq<FieldKind>): (r: Option<(seq<Field>, string)>)
    requires kinds != []
    ensures r.Some? ==> WellFormedArguments(r.value.0, kinds)
    ensures r.Some? ==> ArgumentsText(r.value.0) + r.value.1 == s
    decreases |kinds|
  {
    var x := ScanField(s, kinds[0]);
    if x.None? then None
    else
      var (f, rest) := x.value;
      if |kinds| == 1 then
        if rest != [] && rest[0] == ')' then
          ScannedLastArgument(s, f, rest, kinds);
          Some(([f], rest[1..]))
        else None
      else if rest != [] && rest[0] == ',' then
        var y := ScanArguments(rest[1..], kinds[1..]);
        if y.None? then None
        else
          var (fs, rest') := y.value;
          ScannedArguments(s, f, rest, fs, rest', kinds);
          Some(([f] + fs, rest'))
      else None
  }

  /** What `ScanArguments` has found once the last field and `)` have matched. */
  lemma ScannedLastArgument(s: string, f: Field, rest: string, kinds: seq<FieldKind>)
    requires |kinds| == 1 && WellFormedField(f, kinds[0]) && FieldText(f) + rest == s
    requires rest != [] && rest[0] == ')'
    ensures WellFormedArguments([f], kinds) && ArgumentsText([f]) + rest[1..] == s
  {
    ArgumentsTextLast(f, rest[1..]);
    assert rest == ")" + rest[1..];
  }

  /** What `ScanArguments` has found once a field, `,` and the remaining arguments
      have matched. */
  lemma ScannedArguments(s: string, f: Field, rest: string, fs: seq<Field>, rest': string, kinds: seq<FieldKind>)
    requires |kinds| > 1 && WellFormedField(f, kinds[0]) && FieldText(f) + rest == s
    requires rest != [] && rest[0] == ','
    requires WellFormedArguments(fs, kinds[1..]) && ArgumentsText(fs) + rest' == rest[1..]
    ensures WellFormedArguments([f] + fs, kinds) && ArgumentsText([f] + fs) + rest' == s
  {
    ArgumentsTextCons(f, fs, rest');
    assert rest == "," + rest[1..];
    forall i | 0 <= i < |kinds| ensures WellFormedField(([f] + fs)[i], kinds[i]) {
      if i > 0 { assert ([f] + fs)[i] == fs[i - 1] && kinds[i] == kinds[1..][i - 1]; }
    }
  }

  lemma ArgumentsTextLast(f: Field, rest: string)
    ensures ArgumentsText([f]) + rest == FieldText(f) + (")" + rest)
  {
  }

  lemma ArgumentsTextCons(f: Field, fs: seq<Field>, rest: string)
    requires fs != []
    ensures ArgumentsText([f] + fs) + rest == FieldText(f) + ("," + (ArgumentsText(fs) + rest))
  {
    assert ([f] + fs)[0] == f && ([f] + fs)[1..] == fs;
  }

  // ---------------------------------------------------------------------------
  // Tokens

  datatype Notation = Rgb | Rgba | Hsl | Hsla

  function FunctionName(n: Notation): string {
    match n
    case Rgb => "rgb"
    case Rgba => "rgba"
    case Hsl => "hsl"
    case Hsla => "hsla"
  }

  /** The arguments each notation takes in the expression: integer channels for
      `rgb`, a `[\d.]+` alpha for `rgba`, an optional `deg` on the hue and
      percentages for `hsl`. */
  function Parameters(n: Notation): seq<FieldKind> {
    match n
    case Rgb => [Integer, Integer, Integer]
    case Rgba => [Integer, Integer, Integer, Number]
    case Hsl => [Angle, Percentage, Percentage]
    case Hsla => [Angle, Percentage, Percentage, Number]
  }

  /** A match of the expression: `#` and hex digits, or a function name as
      written (any case) with its arguments. */
  datatype Token =
    | Hex(digits: string)
    | Function(notation: Notation, name: string, args: seq<Field>)

  /** The text the token was scanned from. */
  function Text(t: Token): string {
    match t
    case Hex(d) => "#" + d
    case Function(_, name, args) => name + "(" + ArgumentsText(args)
  }

  /** The grammar of the expression, stated without scanning. */
  predicate WellFormed(t: Token) {
    match t
    case Hex(d) => 3 <= |d| <= 8 && AllIn(HexDigit, d)
    case Function(n, name, args) => SameLetters(name, FunctionName(n)) && WellFormedArguments(args, Parameters(n))
  }

  function ScanFunction(s: string, n: Notation): (r: Option<Token>)
    ensures r.Some? ==> r.value.Function? && r.value.notation == n && WellFormed(r.value)
    ensures r.Some? ==> |Text(r.value)| <= |s| && s[..|Text(r.value)|] == Text(r.value)
  {
    var name := FunctionName(n);
    if StartsWithIgnoringCase(s, name + "(") then
      var a := ScanArguments(s[|name| + 1..], Parameters(n));
      if a.None? then None
      else
        var (args, rest) := a.value;
        ScannedFunction(s, n, args, rest);
        Some(Function(n, s[..|name|], args))
    else None
  }

  /** What `ScanFunction` has found once the name and the arguments have matched. */
  lemma ScannedFunction(s: string, n: Notation, args: seq<Field>, rest: string)
    requires StartsWithIgnoringCase(s, FunctionName(n) + "(")
    requires WellFormedArguments(args, Parameters(n))
    requires s[|FunctionName(n)| + 1..] == ArgumentsText(args) + rest
    ensures var t := Function(n, s[..|FunctionName(n)|], args);
            WellFormed(t) && s == Text(t) + rest
  {
    ScannedName(s, FunctionName(n), ArgumentsText(args) + rest);
    var t := Function(n, s[..|FunctionName(n)|], args);
    assert Text(t) + rest == s[..|FunctionName(n)|] + ("(" + (ArgumentsText(args) + rest));
  }

  /** A name followed by `(`, matched up to case, and what follows them. */
  lemma ScannedName(s: string, name: string, after: string)
    requires StartsWithIgnoringCase(s, name + "(")
    requires s[|name| + 1..] == after
    ensures SameLetters(s[..|name|], name) && s == s[..|name|] + ("(" + after)
  {
    var w := name + "(";
    assert Lower(s[..|w|][|name|]) == Lower(w[|name|]);
    assert s[|name|] == '(';
    forall i | 0 <= i < |name| ensures Lower(s[..|name|][i]) == Lower(name[i]) {
      assert s[..|w|][i] == s[..|name|][i];
      assert w[i] == name[i];
    }
    assert s == s[..|name|] + ("(" + s[|name| + 1..]);
  }

  function ScanHex(s: string): (r: Option<Token>)
    ensures r.Some? ==> r.value.Hex? && WellFormed(r.value)
    ensures r.Some? ==> |Text(r.value)| <= |s| && s[..|Text(r.value)|] == Text(r.value)
    ensures r.Some? ==> var n := |Text(r.value)|;
                        |r.value.digits| == 8 || n == |s| || !IsHexDigit(s[n])
  {
    if s != [] && s[0] == '#' then
      var (digits, rest) := SpanUpTo(s[1..], HexDigit, 8);
      if |digits| >= 3 then
        assert s == "#" + digits + rest;
        Some(Hex(digits))
      else None
    else None
  }

  /** The expression's match at the start of `s`, if any: its alternatives tried in
      their written order, the first one that matches wins. */
  function Scan(s: string): (r: Option<Token>)
    ensures r.Some? ==> WellFormed(r.value)
    ensures r.Some? ==> 0 < |Text(r.value)| <= |s| && s[..|Text(r.value)|] == Text(r.value)
    ensures r.Some? && r.value.Hex? ==>
              var n := |Text(r.value)|; |r.value.digits| == 8 || n == |s| || !IsHexDigit(s[n])
  {
    var rgb := ScanFunction(s, Rgb);
    if rgb.Some? then rgb
    else
      var rgba := ScanFunction(s, Rgba);
      if rgba.Some? then rgba
      else
        var hsl := ScanFunction(s, Hsl);
        if hsl.Some? then hsl
        else
          var hsla := ScanFunction(s, Hsla);
          if hsla.Some? then hsla
          else ScanHex(s)
  }

  // ---------------------------------------------------------------------------
  // Completeness: every well-formed token is found by the scanner

  /** A separator that may follow a field: `,` or `)`. */
  predicate StartsWithDelimiter(rest: string) {
    rest != [] && (rest[0] == ',' || rest[0] == ')')
  }

  lemma ScanNumeralOf(lead: string, numeral: string, rest: string, k: CharClass)
    requires k == Digit || k == Numeral
    requires AllIn(Space, lead) && numeral != [] && AllIn(k, numeral)
    requires rest == [] || !InClass(k, rest[0])
    ensures ScanNumeral(lead + (numeral + rest), k) == Some((lead, numeral, rest))
  {
    assert (numeral + rest)[0] == numeral[0];
    SpanOf(lead, numeral + rest, Space);
    SpanOf(numeral, rest, k);
  }

  lemma ScanSuffixOf(gap: string, unit: string, trail: string, rest: string, kind: FieldKind)
    requires WellFormedSuffix(gap, unit, trail, kind)
    requires StartsWithDelimiter(rest)
    ensures ScanSuffix(gap + (unit + (trail + rest)), kind) == Some((gap, unit, trail, rest))
  {
    match kind
    case Integer =>
      assert gap + (unit + (trail + rest)) == trail + rest;
      SpanOf(trail, rest, Space);
    case Number =>
      assert gap + (unit + (trail + rest)) == trail + rest;
      SpanOf(trail, rest, Space);
    case Angle =>
      if unit == [] {
        assert unit + (trail + rest) == rest;
        SpanOf(gap, rest, Space);
        DiffersAt(rest, "deg", 0);
      } else {
        var u := unit + (trail + rest);
        assert u[0] == unit[0] && Lower(unit[0]) == Lower("deg"[0]);
        SpanOf(gap, u, Space);
        assert u[..3] == unit;
        assert u[3..] == trail + rest;
        SpanOf(trail, rest, Space);
      }
    case Percentage =>
      var u := unit + (trail + rest);
      assert u[0] == '%';
      SpanOf(gap, u, Space);
      assert u[1..] == trail + rest;
      SpanOf(trail, rest, Space);
  }

  lemma ScanFieldOf(f: Field, kind: FieldKind, rest: string)
    requires WellFormedField(f, kind)
    requires StartsWithDelimiter(rest)
    ensures ScanField(FieldText(f) + rest, kind) == Some((f, rest))
  {
    var suffix := f.gap + (f.unit + (f.trail + rest));
    var k := NumeralClass(kind);
    assert suffix == [] || !InClass(k, suffix[0]) by {
      if f.gap != [] {
        assert suffix[0] == f.gap[0];
      } else if f.unit != [] {
        assert suffix[0] == f.unit[0];
        assert Lower(f.unit[0]) == Lower("deg"[0]) || f.unit[0] == '%';
      } else if f.trail != [] {
        assert suffix[0] == f.trail[0];
      } else {
        assert suffix[0] == rest[0];
      }
    }
    FieldTextAppend(f, rest);
    ScanNumeralOf(f.lead, f.numeral, suffix, k);
    ScanSuffixOf(f.gap, f.unit, f.trail, rest, kind);
  }

  lemma {:induction false} ScanArgumentsOf(fs: seq<Field>, kinds: seq<FieldKind>, rest: string)
    requires kinds != [] && WellFormedArguments(fs, kinds)
    ensures ScanArguments(ArgumentsText(fs) + rest, kinds) == Some((fs, rest))
    decreases |fs|
  {
    var s := ArgumentsText(fs) + rest;
    if |fs| == 1 {
      assert s == FieldText(fs[0]) + (")" + rest);
      ScanFieldOf(fs[0], kinds[0], ")" + rest);
      assert (")" + rest)[1..] == rest;
      assert [fs[0]] == fs;
    } else {
      var tail := ArgumentsText(fs[1..]) + rest;
      assert [fs[0]] + fs[1..] == fs;
      ArgumentsTextCons(fs[0], fs[1..], rest);
      ArgumentsTail(fs, kinds);
      ScanFieldOf(fs[0], kinds[0], "," + tail);
      assert ("," + tail)[1..] == tail;
      ScanArgumentsOf(fs[1..], kinds[1..], rest);
      assert [fs[0]] + fs[1..] == fs;
    }
  }

  /** The fields after the first of well-formed arguments are well-formed for the
      parameters after the first. */
  lemma ArgumentsTail(fs: seq<Field>, kinds: seq<FieldKind>)
    requires fs != [] && WellFormedArguments(fs, kinds)
    ensures WellFormedArguments(fs[1..], kinds[1..])
  {
    forall i | 0 <= i < |fs[1..]| ensures WellFormedField(fs[1..][i], kinds[1..][i]) {
      assert fs[1..][i] == fs[i + 1] && kinds[1..][i] == kinds[i + 1];
    }
  }

  /** A functional-notation alternative other than `n` itself cannot match the text
      of an `n` token before `n` is tried. */
  lemma EarlierNotationFails(t: Token, m: Notation, rest: string)
    requires t.Function? && WellFormed(t)
    requires m == Rgb || (m == Rgba && t.notation != Rgb) || (m == Hsl && t.notation == Hsla)
    requires m != t.notation
    ensures ScanFunction(Text(t) + rest, m) == None
  {
    var s := Text(t) + rest;
    var name := t.name;
    var w := FunctionName(m) + "(";
    var j := if Lower(FunctionName(t.notation)[0]) != Lower(w[0]) then 0 else 3;
    assert Lower(name[j]) == Lower(FunctionName(t.notation)[j]);
    assert s[j] == name[j];
    DiffersAt(s, w, j);
  }

  /** Every well-formed functional token is matched in full, whatever follows it. */
  lemma ScanFunctionText(t: Token, rest: string)
    requires t.Function? && WellFormed(t)
    ensures Scan(Text(t) + rest) == Some(t)
  {
    var n := t.notation;
    ScanOwnNotation(t, rest);
    if n != Rgb { EarlierNotationFails(t, Rgb, rest); }
    if n == Hsl || n == Hsla { EarlierNotationFails(t, Rgba, rest); }
    if n == Hsla { EarlierNotationFails(t, Hsl, rest); }
  }

  /** The alternative of a functional token's own notation matches it in full. */
  lemma ScanOwnNotation(t: Token, rest: string)
    requires t.Function? && WellFormed(t)
    ensures ScanFunction(Text(t) + rest, t.notation) == Some(t)
  {
    var n, name, args := t.notation, t.name, t.args;
    var s, after := Text(t) + rest, ArgumentsText(args) + rest;
    Regroup(name, "(", ArgumentsText(args), rest);
    NameStarts(name, FunctionName(n), after);
    ScanArgumentsOf(args, Parameters(n), rest);
    ScanFunctionFinds(s, n, args, rest);
  }

  /** `ScanFunction` once the name, `(` and the arguments have matched. */
  lemma ScanFunctionFinds(s: string, n: Notation, args: seq<Field>, rest: string)
    requires StartsWithIgnoringCase(s, FunctionName(n) + "(")
    requires ScanArguments(s[|FunctionName(n)| + 1..], Parameters(n)) == Some((args, rest))
    ensures ScanFunction(s, n) == Some(Function(n, s[..|FunctionName(n)|], args))
  {
  }

  lemma Regroup(a: string, b: string, c: string, d: string)
    ensures a + b + c + d == a + (b + (c + d))
  {
  }

  /** A name written in any case, then `(`, starts with the canonical name and `(`. */
  lemma NameStarts(name: string, canonical: string, after: string)
    requires SameLetters(name, canonical)
    ensures var s := name + ("(" + after);
            && StartsWithIgnoringCase(s, canonical + "(")
            && s[..|canonical|] == name && s[|canonical| + 1..] == after
  {
    var s := name + ("(" + after);
    var w := canonical + "(";
    assert s[..|w|] == name + "(";
    forall i | 0 <= i < |w| ensures Lower(s[..|w|][i]) == Lower(w[i]) {
      if i < |name| {
        assert s[..|w|][i] == name[i] && w[i] == canonical[i];
      }
    }
  }

  /** A well-formed hex token is matched in full when the greedy `{3,8}` stops at its
      end: after eight digits, or before a character that is not a hex digit. */
  lemma ScanHexText(digits: string, rest: string)
    requires WellFormed(Hex(digits))
    requires |digits| == 8 || rest == [] || !IsHexDigit(rest[0])
    ensures Scan(Text(Hex(digits)) + rest) == Some(Hex(digits))
  {
    var s := "#" + digits + rest;
    assert s[1..] == digits + rest;
    SpanUpToOf(digits, rest, HexDigit, 8);
    NotAFunction(s, Rgb);
    NotAFunction(s, Rgba);
    NotAFunction(s, Hsl);
    NotAFunction(s, Hsla);
  }

  lemma NotAFunction(s: string, m: Notation)
    requires s != [] && s[0] == '#'
    ensures ScanFunction(s, m) == None
  {
    DiffersAt(s, FunctionName(m) + "(", 0);
  }

  lemma DiffersAt(s: string, w: string, j: nat)
    requires j < |w| && j < |s| && Lower(s[j]) != Lower(w[j])
    ensures !StartsWithIgnoringCase(s, w)
  {
    if |w| <= |s| {
      assert s[..|w|][j] == s[j];
    }
  }

  /** No match can start at a character other than `#`, `h`, or `r` followed by `g`
      (in either case); a lone `r` at the end cannot start one either. */
  lemma NoMatchAt(s: string)
    requires s != [] && s[0] != '#' && Lower(s[0]) != 'h'
    requires Lower(s[0]) == 'r' && |s| > 1 ==> Lower(s[1]) != 'g'
    ensures Scan(s) == None
  {
    if Lower(s[0]) != 'r' || |s| > 1 {
      var j := if Lower(s[0]) == 'r' then 1 else 0;
      DiffersAt(s, FunctionName(Rgb) + "(", j);
      DiffersAt(s, FunctionName(Rgba) + "(", j);
    }
    DiffersAt(s, FunctionName(Hsl) + "(", 0);
    DiffersAt(s, FunctionName(Hsla) + "(", 0);
  }
}
