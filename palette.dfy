/** The palette (main.js:11-21): the authored `reverseMap`, from a replacement
    colour to the colour strings it replaces, folded into `colorMap`, from each
    of those strings to its replacement.

    Both are plain objects with string keys. An object is modelled as its own
    properties in enumeration order, which for string keys is the order in
    which they were first assigned; assigning to a key that is already there
    changes its value and keeps its place. */
module Palette {
  import opened Wrappers

  /** One property of `reverseMap`: a replacement and the strings it replaces. */
  datatype Group = Group(replacement: string, olds: seq<string>)

  /** One property of `colorMap`, as `Object.entries` yields it. */
  datatype Entry = Entry(oldColor: string, newColor: string)

  function Keys(m: seq<Entry>): seq<string> {
    seq(|m|, i requires 0 <= i < |m| => m[i].oldColor)
  }

  predicate Distinct(xs: seq<string>) {
    forall i, j :: 0 <= i < j < |xs| ==> xs[i] != xs[j]
  }

  /** The index of the first occurrence of `x` in `xs`. */
  function FirstIndex(xs: seq<string>, x: string): (i: nat)
    requires x in xs
    ensures i < |xs| && xs[i] == x && x !in xs[..i]
  {
    if xs[0] == x then 0
    else
      var i := 1 + FirstIndex(xs[1..], x);
      assert xs[..i] == [xs[0]] + xs[1..][..i - 1];
      i
  }

  /** Property access `m[k]`: the value of the entry with key `k`, `None` when
      there is none. */
  function Lookup(m: seq<Entry>, k: string): (r: Option<string>)
    ensures r.Some? <==> k in Keys(m)
    ensures r.Some? ==> exists i :: 0 <= i < |m| && m[i] == Entry(k, r.value)
  {
    if k in Keys(m) then
      var i := FirstIndex(Keys(m), k);
      assert m[i] == Entry(k, m[i].newColor);
      Some(m[i].newColor)
    else None
  }

  /** The assignment `m[k] = v` of main.js:18: an existing entry takes the new
      value in its place, a new key is added at the end. */
  function Assign(m: seq<Entry>, k: string, v: string): (r: seq<Entry>)
    ensures Keys(r) == if k in Keys(m) then Keys(m) else Keys(m) + [k]
  {
    if k in Keys(m) then m[FirstIndex(Keys(m), k) := Entry(k, v)] else m + [Entry(k, v)]
  }

  /** After `m[k] = v`, `m[k]` is `v` and every other key reads as before. */
  lemma AssignLookup(m: seq<Entry>, k: string, v: string)
    ensures Lookup(Assign(m, k, v), k) == Some(v)
    ensures forall k' :: k' != k ==> Lookup(Assign(m, k, v), k') == Lookup(m, k')
  {
    var r := Assign(m, k, v);
    if k in Keys(m) {
      assert Keys(r) == Keys(m);
    } else {
      FirstIndexUnique(Keys(r), k, |m|);
      forall k' | k' != k && k' in Keys(m) ensures FirstIndex(Keys(r), k') == FirstIndex(Keys(m), k') {
        FirstIndexExtend(Keys(m), k, k');
      }
    }
  }

  lemma KeysAppend(a: seq<Entry>, b: seq<Entry>)
    ensures Keys(a + b) == Keys(a) + Keys(b)
  {
  }

  lemma FirstIndexExtend(xs: seq<string>, y: string, x: string)
    requires x in xs
    ensures FirstIndex(xs + [y], x) == FirstIndex(xs, x)
  {
    var i := FirstIndex(xs, x);
    assert (xs + [y])[i] == x && (xs + [y])[..i] == xs[..i];
    FirstIndexUnique(xs + [y], x, i);
  }

  lemma FirstIndexUnique(xs: seq<string>, x: string, i: nat)
    requires i < |xs| && xs[i] == x && x !in xs[..i]
    ensures FirstIndex(xs, x) == i
  {
    var j := FirstIndex(xs, x);
    forall t | 0 <= t < i ensures xs[t] != x { assert xs[..i][t] == xs[t]; }
    forall t | 0 <= t < j ensures xs[t] != x { assert xs[..j][t] == xs[t]; }
  }

  /** The assignments the `reduce` and its inner `forEach` perform, in order:
      the groups in the order of `Object.keys`, each group's strings in list order. */
  function Writes(reverseMap: seq<Group>): (ws: seq<Entry>)
    ensures forall w :: w in ws ==> exists g :: g in reverseMap && w.oldColor in g.olds && w.newColor == g.replacement
  {
    if reverseMap == [] then []
    else Writes(reverseMap[..|reverseMap| - 1]) + GroupWrites(reverseMap[|reverseMap| - 1])
  }

  function GroupWrites(g: Group): (ws: seq<Entry>)
    ensures |ws| == |g.olds|
    ensures forall i :: 0 <= i < |ws| ==> ws[i] == Entry(g.olds[i], g.replacement)
  {
    seq(|g.olds|, i requires 0 <= i < |g.olds| => Entry(g.olds[i], g.replacement))
  }

  /** Performing the assignments `ws` on `m`, first to last. */
  function Replay(m: seq<Entry>, ws: seq<Entry>): seq<Entry>
    decreases |ws|
  {
    if ws == [] then m
    else Replay(Assign(m, ws[0].oldColor, ws[0].newColor), ws[1..])
  }

  /** `colorMap`: the assignments performed on the empty object `{}`. */
  function ColorMapOf(reverseMap: seq<Group>): seq<Entry> {
    Replay([], Writes(reverseMap))
  }

  /** Every string listed anywhere in `reverseMap`, in the order of the writes. */
  function Listed(reverseMap: seq<Group>): seq<string> {
    Keys(Writes(reverseMap))
  }

  /** The replacement of the last group that lists `k`, if any: the value a later
      plain assignment leaves behind. */
  function LastListing(reverseMap: seq<Group>, k: string): (r: Option<string>)
    ensures r.None? <==> forall g :: g in reverseMap ==> k !in g.olds
  {
    if reverseMap == [] then None
    else
      var g := reverseMap[|reverseMap| - 1];
      if k in g.olds then Some(g.replacement)
      else
        var r := LastListing(reverseMap[..|reverseMap| - 1], k);
        assert forall h :: h in reverseMap ==> h in reverseMap[..|reverseMap| - 1] || h == g;
        r
  }

  // ---------------------------------------------------------------------------
  // The fold, step by step

  lemma {:induction false} ReplayAppend(m: seq<Entry>, ws: seq<Entry>, vs: seq<Entry>)
    ensures Replay(m, ws + vs) == Replay(Replay(m, ws), vs)
    decreases |ws|
  {
    if ws == [] {
      assert ws + vs == vs;
    } else {
      assert (ws + vs)[0] == ws[0] && (ws + vs)[1..] == ws[1..] + vs;
      ReplayAppend(Assign(m, ws[0].oldColor, ws[0].newColor), ws[1..], vs);
    }
  }

  lemma ReplayOne(m: seq<Entry>, w: Entry)
    ensures Replay(m, [w]) == Assign(m, w.oldColor, w.newColor)
  {
    assert [w][1..] == [];
  }

  /** The value a key holds after the assignments: the last one to it, or the old one. */
  function LastWrite(ws: seq<Entry>, k: string): (r: Option<string>)
    ensures r.None? <==> k !in Keys(ws)
  {
    if ws == [] then None
    else if ws[|ws| - 1].oldColor == k then
      assert Keys(ws)[|ws| - 1] == k;
      Some(ws[|ws| - 1].newColor)
    else
      var r := LastWrite(ws[..|ws| - 1], k);
      assert Keys(ws) == Keys(ws[..|ws| - 1]) + [ws[|ws| - 1].oldColor];
      r
  }

  lemma {:induction false} ReplayLookup(m: seq<Entry>, ws: seq<Entry>, k: string)
    ensures Lookup(Replay(m, ws), k) == if LastWrite(ws, k).Some? then LastWrite(ws, k) else Lookup(m, k)
    decreases |ws|
  {
    if ws != [] {
      var init, w := ws[..|ws| - 1], ws[|ws| - 1];
      assert ws == init + [w];
      ReplayAppend(m, init, [w]);
      ReplayOne(Replay(m, init), w);
      AssignLookup(Replay(m, init), w.oldColor, w.newColor);
      ReplayLookup(m, init, k);
    }
  }

  lemma {:induction false} ReplayKeys(m: seq<Entry>, ws: seq<Entry>)
    requires Distinct(Keys(m))
    ensures Distinct(Keys(Replay(m, ws)))
    ensures forall k :: k in Keys(Replay(m, ws)) <==> k in Keys(m) || k in Keys(ws)
    decreases |ws|
  {
    if ws != [] {
      var w := ws[0];
      var m' := Assign(m, w.oldColor, w.newColor);
      assert Distinct(Keys(m')) by {
        if w.oldColor !in Keys(m) {
          assert Keys(m') == Keys(m) + [w.oldColor];
        }
      }
      ReplayKeys(m', ws[1..]);
      assert Keys(ws) == [w.oldColor] + Keys(ws[1..]);
    }
  }

  /** `keys` are among `xs` and appear in the order of their first occurrence in `xs`. */
  predicate FirstOccurrenceOrder(keys: seq<string>, xs: seq<string>) {
    && (forall i :: 0 <= i < |keys| ==> keys[i] in xs)
    && (forall i, j :: 0 <= i < j < |keys| ==> FirstIndex(xs, keys[i]) < FirstIndex(xs, keys[j]))
  }

  /** Keys appear in the order in which they were first assigned. */
  predicate FirstAssignedOrder(keys: seq<string>, ws: seq<Entry>) {
    FirstOccurrenceOrder(keys, Keys(ws))
  }

  lemma OrderExtendOld(keys: seq<string>, xs: seq<string>, y: string)
    requires FirstOccurrenceOrder(keys, xs)
    ensures FirstOccurrenceOrder(keys, xs + [y])
  {
    forall i | 0 <= i < |keys| ensures FirstIndex(xs + [y], keys[i]) == FirstIndex(xs, keys[i]) {
      FirstIndexExtend(xs, y, keys[i]);
    }
  }

  lemma OrderExtendNew(keys: seq<string>, xs: seq<string>, y: string)
    requires FirstOccurrenceOrder(keys, xs) && y !in xs
    ensures FirstOccurrenceOrder(keys + [y], xs + [y])
  {
    OrderExtendOld(keys, xs, y);
    assert (xs + [y])[|xs|] == y && (xs + [y])[..|xs|] == xs;
    FirstIndexUnique(xs + [y], y, |xs|);
    var after := keys + [y];
    forall i | 0 <= i < |keys| ensures after[i] == keys[i] && FirstIndex(xs + [y], keys[i]) < |xs| {
      assert FirstIndex(xs, keys[i]) < |xs|;
    }
  }

  lemma {:induction false} ReplayOrder(ws: seq<Entry>)
    ensures FirstAssignedOrder(Keys(Replay([], ws)), ws)
    decreases |ws|
  {
    if ws != [] {
      var init, w := ws[..|ws| - 1], ws[|ws| - 1];
      assert ws == init + [w];
      ReplayAppend([], init, [w]);
      ReplayOne(Replay([], init), w);
      ReplayOrder(init);
      ReplayKeys([], init);
      KeysAppend(init, [w]);
      assert Keys([w]) == [w.oldColor];
      if w.oldColor in Keys(init) {
        OrderExtendOld(Keys(Replay([], init)), Keys(init), w.oldColor);
      } else {
        OrderExtendNew(Keys(Replay([], init)), Keys(init), w.oldColor);
      }
    }
  }

  lemma {:induction false} WritesListing(reverseMap: seq<Group>, k: string)
    ensures LastWrite(Writes(reverseMap), k) == LastListing(reverseMap, k)
    decreases |reverseMap|
  {
    if reverseMap != [] {
      var init, g := reverseMap[..|reverseMap| - 1], reverseMap[|reverseMap| - 1];
      WritesListing(init, k);
      LastWriteAppend(Writes(init), GroupWrites(g), k);
      GroupLastWrite(g, k);
    }
  }

  lemma {:induction false} LastWriteAppend(ws: seq<Entry>, vs: seq<Entry>, k: string)
    ensures LastWrite(ws + vs, k) == if LastWrite(vs, k).Some? then LastWrite(vs, k) else LastWrite(ws, k)
    decreases |vs|
  {
    if vs == [] {
      assert ws + vs == ws;
    } else {
      assert (ws + vs)[..|ws + vs| - 1] == ws + vs[..|vs| - 1];
      LastWriteAppend(ws, vs[..|vs| - 1], k);
    }
  }

  lemma GroupLastWrite(g: Group, k: string)
    ensures LastWrite(GroupWrites(g), k) == if k in g.olds then Some(g.replacement) else None
  {
    var ws := GroupWrites(g);
    if k in g.olds {
      var i := FirstIndex(g.olds, k);
      assert Keys(ws)[i] == ws[i].oldColor == k;
      LastWriteValue(ws, k, g.replacement);
    } else {
      assert k !in Keys(ws);
    }
  }

  lemma {:induction false} LastWriteValue(ws: seq<Entry>, k: string, v: string)
    requires k in Keys(ws) && forall w :: w in ws ==> w.newColor == v
    ensures LastWrite(ws, k) == Some(v)
    decreases |ws|
  {
    if ws[|ws| - 1].oldColor != k {
      assert Keys(ws) == Keys(ws[..|ws| - 1]) + [ws[|ws| - 1].oldColor];
      LastWriteValue(ws[..|ws| - 1], k, v);
    }
  }

  // ---------------------------------------------------------------------------
  // What `colorMap` is

  /** Every listed string is a key, mapped to the replacement of the last group
      that lists it; nothing else is a key. */
  lemma ColorMapLookup(reverseMap: seq<Group>, k: string)
    ensures Lookup(ColorMapOf(reverseMap), k) == LastListing(reverseMap, k)
  {
    ReplayLookup([], Writes(reverseMap), k);
    WritesListing(reverseMap, k);
  }

  /** The keys are the listed strings, each once, in the order of first listing. */
  lemma ColorMapKeys(reverseMap: seq<Group>)
    ensures Distinct(Keys(ColorMapOf(reverseMap)))
    ensures forall k :: k in Keys(ColorMapOf(reverseMap)) <==> k in Listed(reverseMap)
    ensures FirstAssignedOrder(Keys(ColorMapOf(reverseMap)), Writes(reverseMap))
  {
    ReplayKeys([], Writes(reverseMap));
    ReplayOrder(Writes(reverseMap));
  }

  /** The authored `reverseMap` of main.js:11-14. */
  const ReverseMap: seq<Group> := [Group("lightsteelblue", ["#f8f7f6"]), Group("lightgrey", ["#fcfcfc"])]

  lemma ColorMapValue()
    ensures ColorMapOf(ReverseMap) == [Entry("#f8f7f6", "lightsteelblue"), Entry("#fcfcfc", "lightgrey")]
  {
    var g1, g2 := ReverseMap[0], ReverseMap[1];
    var w1, w2 := Entry("#f8f7f6", "lightsteelblue"), Entry("#fcfcfc", "lightgrey");
    assert GroupWrites(g1) == [w1] && GroupWrites(g2) == [w2];
    assert ReverseMap[..1] == [g1] && [g1][..0] == [];
    assert Writes([g1]) == [w1];
    assert Writes(ReverseMap) == [w1, w2];
    var m1 := Assign([], w1.oldColor, w1.newColor);
    assert m1 == [w1];
    assert [w1, w2][1..] == [w2];
    ReplayOne(m1, w2);
  }

  // ---------------------------------------------------------------------------
  // The `reduce` as it runs

  /** The strings of the groups before `i`, then the first `j` strings of group `i`. */
  function WritesUpTo(reverseMap: seq<Group>, i: nat, j: nat): seq<Entry>
    requires i < |reverseMap| && j <= |reverseMap[i].olds|
  {
    Writes(reverseMap[..i]) + GroupWrites(reverseMap[i])[..j]
  }

  lemma WritesStart(reverseMap: seq<Group>, i: nat)
    requires i < |reverseMap|
    ensures WritesUpTo(reverseMap, i, 0) == Writes(reverseMap[..i])
  {
    assert GroupWrites(reverseMap[i])[..0] == [];
  }

  lemma WritesNext(reverseMap: seq<Group>, i: nat, j: nat)
    requires i < |reverseMap| && j < |reverseMap[i].olds|
    ensures Replay([], WritesUpTo(reverseMap, i, j + 1))
            == Assign(Replay([], WritesUpTo(reverseMap, i, j)), reverseMap[i].olds[j], reverseMap[i].replacement)
  {
    var g := reverseMap[i];
    var w := Entry(g.olds[j], g.replacement);
    assert WritesUpTo(reverseMap, i, j + 1) == WritesUpTo(reverseMap, i, j) + [w];
    ReplayAppend([], WritesUpTo(reverseMap, i, j), [w]);
    ReplayOne(Replay([], WritesUpTo(reverseMap, i, j)), w);
  }

  lemma WritesGroupDone(reverseMap: seq<Group>, i: nat)
    requires i < |reverseMap|
    ensures WritesUpTo(reverseMap, i, |reverseMap[i].olds|) == Writes(reverseMap[..i + 1])
  {
    assert GroupWrites(reverseMap[i])[..|reverseMap[i].olds|] == GroupWrites(reverseMap[i]);
    assert reverseMap[..i + 1][..i] == reverseMap[..i];
  }

  /** `Object.keys(reverseMap).reduce(...)`: an accumulator starting as `{}`, one
      assignment `acc[value] = color` per listed string. */
  method BuildColorMap(reverseMap: seq<Group>) returns (colorMap: seq<Entry>)
    ensures colorMap == ColorMapOf(reverseMap)
    ensures Distinct(Keys(colorMap))
    ensures forall k :: Lookup(colorMap, k) == LastListing(reverseMap, k)
    ensures FirstAssignedOrder(Keys(colorMap), Writes(reverseMap))
  {
    var acc: seq<Entry> := [];
    for i := 0 to |reverseMap|
      invariant acc == ColorMapOf(reverseMap[..i])
    {
      var g := reverseMap[i];
      WritesStart(reverseMap, i);
      for j := 0 to |g.olds|
        invariant acc == Replay([], WritesUpTo(reverseMap, i, j))
      {
        WritesNext(reverseMap, i, j);
        acc := Assign(acc, g.olds[j], g.replacement);
      }
      WritesGroupDone(reverseMap, i);
    }
    assert reverseMap[..|reverseMap|] == reverseMap;
    colorMap := acc;
    ColorMapKeys(reverseMap);
    forall k ensures Lookup(colorMap, k) == LastListing(reverseMap, k) {
      ColorMapLookup(reverseMap, k);
    }
  }
}
