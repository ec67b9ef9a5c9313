# Colorize, modelled in Dafny

Colorize is a userscript (`main.js`) that imposes a colour scheme on web pages.
Each element's live style is read through `getComputedStyle`. Whenever a
colour-carrying property normalises to one of the palette's old colours, the
script writes the replacement into the element's inline style with priority
`important`. The script does this for every element when the page loads. A
`MutationObserver` then does it again for added subtrees and for elements
whose `style` or `class` attribute changed.

The project has seven modules.

- `Wrappers` holds `Option`.
- `Palette` (palette.dfy) covers the `colorMap` fold of main.js:11-21, both
  as a loop (`BuildColorMap`) and as a specification function (`ColorMapOf`).
  The JavaScript object is modelled as an association list ordered by first
  assignment. Assigning an existing key keeps its position, as JavaScript
  objects do for string keys.
- `ColorTokens` (color_tokens.dfy) covers the regular expression of
  main.js:37. It is written as a greedy scanner returning a parse tree
  (`Token`). `WellFormed` states the expression's grammar declaratively. The
  lemmas prove the scanner sound (whatever it returns is well-formed and
  spells a prefix of the input) and complete (every well-formed token is
  found at the start of its own text).
- `Substitution` (substitution.dfy) covers `replaceColorInString`
  (main.js:36-44). A global `replace` is the left-to-right scan `Segments`,
  in which each segment is a match or one copied character, followed by the
  callback applied to each match.
- `Engine` (engine.dfy) covers `colorizeElement` (main.js:46-87).
  - An `Element` is a class. Its fields are the computed values as they
    stood before the script wrote to the element (`computed`, the cascade's
    result with the element's own inline declarations of that moment
    included), and the inline style (`inline`, a map from property name to
    value and priority). The script's writes reach the live read only
    through `inline`.
  - `computedStyle` is LIVE: reading accessor `a` yields the element's own
    `important` inline declaration of the CSS property behind `a` (for
    example `background-color` for `backgroundColor`), and otherwise the base
    computed value. A write made earlier in the palette loop is therefore
    seen by later entries.
  - The methods mirror the source statement by statement. Each is proved
    against a function (`ChannelStep`, `BorderSteps`, `BackgroundImageStep`,
    `EntryStep`, `Colorized`).
- `EngineFacts` (engine_facts.dfy) proves what those functions mean,
  property by property.
  - `color`, `background-color`, `fill` and `stroke` end with the
    replacement of the FIRST entry whose normalised old colour their
    original value matches. This holds provided no replacement is itself a
    palette colour.
  - Border sides end with the replacement of the LAST matching entry. The
    script writes them under the names `borderTop-color`, `borderRight-color`
    and so on: `prop.replace('Color', '-color')` on the camel-cased accessor.
    The live style never reads those names back.
  - Nothing but these nine properties is ever written, and only with
    priority `important`. Provided no replacement is itself a palette
    colour, running the function a second time changes nothing except
    possibly `background-image`.
- `Walker` (walker.dfy) covers `processAllElements`,
  `processElementAndChildren` and the mutation callback (main.js:90-122).
  - The document is a finite tree of `Node`s. `querySelectorAll('*')` is the
    function `QueryAll`. The elements the callback reaches for a batch of
    records are the function `Dispatch`. Both are proved to reach exactly
    the elements of the relevant subtrees.
  - The methods walk those lists and call `ColorizeElement` on each element.
    An element listed `k` times is colorized `k` times. For `ColorizeEach`,
    `ProcessAllElements` and `ProcessElementAndChildren`, `Repeat` also gives
    the resulting inline style.
  - A ghost counter `runs` on `Element` counts the calls of `ColorizeElement`.

`normalizeColor` draws on a canvas. The model takes it as a parameter
`norm: string -> string` and assumes nothing about it, including its value on
strings that are not colours. Every property here holds for any `norm`.

## Model

| member | source | states |
|---|---|---|
| Palette.Assign | main.js:18 | `acc[value] = color` keeps a present key in place and appends a new one at the end |
| Palette.Lookup | main.js:16-21 | the value the object holds for key `k`: present exactly when `k` is a key, and then the value of an entry for `k` |
| Palette.AssignLookup | main.js:18 | after `acc[value] = color`, that key maps to `color` and every other key keeps its value |
| Palette.BuildColorMap | main.js:16-21 | the nested `reduce`/`forEach` builds the map whose keys are distinct, whose key `k` maps to the replacement of the last group listing `k`, and whose keys are in order of first assignment |
| Palette.ColorMapLookup | main.js:16-21 | looking up `k` in the built map gives the replacement of the last group that lists `k`, and nothing when no group lists it |
| Palette.ColorMapKeys | main.js:16-21 | the built map's keys are distinct, are exactly the listed old colours, and come in the order the writes first assign them |
| Palette.ColorMapOf | main.js:16-21 | the object the `reduce`/`forEach` builds, as the replay of every `acc[value] = color` from `{}`; `BuildColorMap` is proved to compute it, `ColorMapLookup` proves it against the independent `LastListing` and `ColorMapKeys` gives its key order |
| Palette.ColorMapValue | main.js:11-21 | the script's own palette is `#f8f7f6 -> lightsteelblue`, then `#fcfcfc -> lightgrey` |
| ColorTokens.Span | main.js:37 | a greedy `*`/`+` quantifier over one character class takes the longest run of the class, and what follows does not start with the class |
| ColorTokens.WellFormed | main.js:37 | the grammar of the expression as a predicate on parse trees; `ScanFunctionText` and `ScanHexText` prove every well-formed token is matched as itself, and `Scan` returns only well-formed tokens |
| ColorTokens.SpanUpTo | main.js:37 | the bounded quantifier `{3,8}` takes at most the bound and stops only at the bound or before a character outside the class |
| ColorTokens.SpanOf | main.js:37 | a run of the class followed by a character outside it is exactly what the quantifier takes |
| ColorTokens.ScanField | main.js:37 | a scanned argument is well-formed for its shape (`\s*\d+\s*`, `\s*[\d.]+\s*`, `\s*[\d.]+\s*(?:deg)?\s*`, `\s*[\d.]+\s*%\s*`) and spells a prefix of the input |
| ColorTokens.ScanFieldOf | main.js:37 | every well-formed argument followed by `,` or `)` is scanned as itself |
| ColorTokens.ScanArguments | main.js:37 | scanned arguments are well-formed for the notation's parameter list and spell a prefix of the input |
| ColorTokens.ScanArgumentsOf | main.js:37 | every well-formed argument list is scanned as itself, whatever follows it |
| ColorTokens.ScanFunction | main.js:37 | a scanned `rgb(`, `rgba(`, `hsl(` or `hsla(` token has the requested notation, is well-formed and spells a prefix of the input |
| ColorTokens.ScanHex | main.js:37 | a scanned `#` token has 3 to 8 hex digits and spells a prefix; it stops after 8 digits or before a non-hex character |
| ColorTokens.Scan | main.js:37 | the alternation in source order returns only well-formed, non-empty prefixes of the input |
| ColorTokens.EarlierNotationFails | main.js:37 | an alternative written before a token's own notation fails on that token's text, so the alternation's first success is the token's own |
| ColorTokens.ScanFunctionText | main.js:37 | every well-formed functional token, in any letter case and followed by anything, is matched as exactly itself |
| ColorTokens.ScanHexText | main.js:37 | a well-formed hex token followed by a non-hex character, or with 8 digits, is matched as exactly itself |
| ColorTokens.NoMatchAt | main.js:37 | no match starts at a character other than `#`, `h`, or `r` followed by `g`, in either case; a lone `r` at the end starts none either |
| Substitution.ReplaceColorInString | main.js:36-44 | when no match normalises to `oldNorm`, the string comes back unchanged |
| Substitution.Segments | main.js:38 | the left-to-right scan of a global `replace`; `JoinSegments` proves it spells its input and `SegmentsAreTokens` that each segment is what the expression matches where the segment starts |
| Substitution.Substituted | main.js:38-43 | the callback on one segment: `newColor` for a match whose text normalises to `oldNorm`, the match itself for any other, and a copied character unchanged; `GradientReplacement` shows it in context |
| Substitution.SubstituteAll | main.js:38-43 | the callback applied to every segment in order; `SubstituteAppend` proves it works segment by segment and `SubstituteNothing` that it rebuilds the text when nothing matches |
| Substitution.JoinSegments | main.js:38 | the scan of a global `replace` loses and adds nothing: its segments spell the input |
| Substitution.SegmentsAreTokens | main.js:37-38 | each segment is what the expression matches (or the character it copies) at the offset where the segment starts, and every match is well-formed |
| Substitution.SubstituteNothing | main.js:38-43 | a callback that matches no colour rebuilds the original text |
| Substitution.SubstituteAppend | main.js:38-43 | the replacement of a concatenation of segments is the concatenation of their replacements |
| Substitution.SegmentsInert | main.js:37-38 | text where no match can start is copied character by character |
| Substitution.GradientSegments | main.js:37-38 | `linear-gradient(#d1, #d2)` scans as two colour matches among copied text |
| Substitution.GradientReplacement | main.js:36-44 | in `linear-gradient(#d1, #d2)`, only the stop that normalises to `oldNorm` is replaced |
| Engine.IndexOf | main.js:72 | the first occurrence of `w` in `s`, and none when `w` does not occur (`includes`) |
| Engine.Contains | main.js:72 | `bgImage.includes('gradient')` through `IndexOf`; `ContainsOccurs` characterises it |
| Engine.ContainsOccurs | main.js:72 | `s.includes(w)` holds exactly when `w` occurs at some position of `s` |
| Engine.ReplaceFirst | main.js:66 | `String.prototype.replace` with a string pattern, for a replacement containing no `$` (as `'-color'` at its one call): when `pattern` occurs at `i` and at no earlier position, the result is `s` with that occurrence replaced; when it occurs nowhere, `s` itself |
| Engine.Effective | main.js:47-53 | the live read `computedStyle[accessor]`; `EngineFacts.ReadAfterWrite` proves it shows the last `important` write to the property behind the accessor and ignores writes to other properties |
| Engine.BorderInlineName | main.js:66 | the inline name a border side is written to, `prop.replace('Color', '-color')`; `EngineFacts.BorderNameOf` and `BorderSideNames` give its value on the four sides |
| Engine.ChannelStep | main.js:53-55 | one channel's read, test and write; `ColorizeChannel` is proved against it and `EngineFacts.ChannelEntry` gives its effect in closed form |
| Engine.BorderSteps | main.js:63-68 | the four sides' read, test and write in order; `ColorizeBorders` is proved against it and `EngineFacts.BorderEntry` gives its effect side by side |
| Engine.BackgroundImageStep | main.js:70-77 | the gradient test and rewrite; `ColorizeBackgroundImage` is proved against it and `EngineFacts.BackgroundImageEntry` gives its effect in closed form |
| Engine.EntryStep | main.js:49-86 | one iteration of the palette loop; `EngineFacts.ChannelEntry`, `BorderEntry`, `BackgroundImageEntry` and `EntryFrame` give its effect property by property |
| Engine.Colorized | main.js:46-87 | the whole palette loop; `EngineFacts.ChannelFirstMatch`, `BorderLastMatch`, `BackgroundImageUntouched`, `ColorizedWrites` and `ColorizedIdempotent` characterise it |
| Engine.Element.Live | main.js:47-53 | `computedStyle[accessor]` on the element as it stands, through `Effective`; `EngineFacts.ReadAfterWrite` gives how writes show in it |
| Engine.Element.SetProperty | main.js:54 | `style.setProperty(p, v, prio)` sets the inline declaration of `p` and nothing else |
| Engine.ColorizeChannel | main.js:53-55 | a channel is overwritten with `newColor`, `important`, exactly when its live value (non-empty, for `fill`/`stroke`) normalises to `oldNorm` |
| Engine.ColorizeBorders | main.js:63-68 | the four border sides are tested and written in order |
| Engine.ColorizeBackgroundImage | main.js:70-77 | a live `background-image` other than `none` that mentions `gradient` is rewritten by `replaceColorInString`, and written only if it changed |
| Engine.ColorizeEntry | main.js:49-86 | one palette entry runs the six checks in source order |
| Engine.ColorizeElement | main.js:46-87 | `colorizeElement` runs the entries of `colorMap` in order over the live style |
| EngineFacts.BorderNameOf | main.js:66 | `(p + "Color").replace('Color', '-color')` is `p + "-color"` when `p` has no `C` |
| EngineFacts.BorderSideNames | main.js:63-66 | the sides are written under `borderTop-color`, `borderRight-color`, `borderBottom-color` and `borderLeft-color`, but read from `border-top-color` and so on |
| EngineFacts.BackgroundNames | main.js:58-71 | `backgroundColor` and `backgroundImage` are read from `background-color` and `background-image` |
| EngineFacts.NamesApart | main.js:54-84 | the nine written names are distinct where they must be, and the names the borders are read from are never written |
| EngineFacts.ReadAfterWrite | main.js:47-54 | after `setProperty(p, v, 'important')` to the CSS property `p` behind an accessor, the live read of that accessor is `v`; a write to any other property leaves the read unchanged |
| EngineFacts.ChannelEntry | main.js:52-59 | one entry overrides `color`, `background-color`, `fill` or `stroke` with its replacement exactly when that channel's test passes on the live value, and otherwise leaves it |
| EngineFacts.BackgroundImageEntry | main.js:70-77 | one entry writes `background-image` exactly when the live value is not `none`, mentions `gradient` and changes under substitution, and then writes the substituted value |
| EngineFacts.BorderEntry | main.js:63-68 | one entry overrides a border side exactly when its live value matches, and leaves what the side is read from unchanged |
| EngineFacts.EntryFrame | main.js:49-86 | one entry changes no property outside the nine it writes |
| EngineFacts.ChannelFirstMatch | main.js:49-59 | over the palette, `color`, `background-color`, `fill` and `stroke` end with the replacement of the first matching entry, when no replacement is itself a palette colour |
| EngineFacts.BorderLastMatch | main.js:63-68 | over the palette, a border side ends with the replacement of the last entry its value matches |
| EngineFacts.BackgroundImageUntouched | main.js:70-77 | when no colour in the live `background-image` matches any entry, that declaration is left as it was |
| EngineFacts.ColorizedWrites | main.js:46-87 | `colorizeElement` leaves every other property alone, and any declaration it changes becomes `important` |
| EngineFacts.ColorizedIdempotent | main.js:46-87 | colorizing twice gives what colorizing once gives, except possibly `background-image`, when no replacement is a palette colour |
| Walker.QueryAllFinds | main.js:91 | `querySelectorAll('*')` lists exactly the elements strictly below the node |
| Walker.TargetsAreSubtree | main.js:97-105 | `processElementAndChildren` reaches exactly the elements of the node's subtree |
| Walker.AddedTargetsFind | main.js:111-115 | the loop over `addedNodes` reaches exactly the added element nodes and the elements below them |
| Walker.MutationTargetsFind | main.js:110-120 | one record reaches exactly the elements it triggers: an added element node and the elements below it, or the target of an attribute change |
| Walker.DispatchFinds | main.js:108-122 | the callback reaches exactly the elements that some record of the batch triggers |
| Walker.QueryAll | main.js:91-102 | `querySelectorAll('*')`: the elements strictly below the node in document order; `QueryAllFinds` characterises its members |
| Walker.Targets | main.js:97-105 | the node itself if it is an element, then its descendants; `TargetsAreSubtree` characterises its members |
| Walker.AddedTargets | main.js:111-115 | the targets of each added element node, in order; `AddedTargetsFind` characterises its members |
| Walker.MutationTargets | main.js:110-120 | the targets of one record; `MutationTargetsFind` characterises them as the elements the record triggers |
| Walker.Dispatch | main.js:108-122 | the targets of a batch, record by record; `DispatchFinds` characterises them |
| Walker.RepeatAdd | main.js:92-94 | `a` runs and then `b` runs of `colorizeElement` are `a + b` runs |
| Walker.RepeatSettles | main.js:108-122 | repeated runs over unchanged page styles, such as the re-runs that the script's own `style` writes trigger, end as one run would, except possibly `background-image`, when no replacement is a palette colour |
| Walker.ColorizeEach | main.js:92-94 | every listed element is colorized once per occurrence, and its inline style is that many runs of `colorizeElement` |
| Walker.ProcessAllElements | main.js:90-95 | every element of the document is colorized once per occurrence in `querySelectorAll('*')`, with the resulting inline style |
| Walker.ProcessElementAndChildren | main.js:97-105 | the node, if it is an element, and every element below it are colorized once, with the resulting inline style |
| Walker.HandleAdded | main.js:111-115 | each added element node and each element below it is colorized once per occurrence, and no other element is touched |
| Walker.HandleMutation | main.js:110-120 | a `childList` record colorizes its added subtrees, an `attributes` record its element target, and other records nothing |
| Walker.OnMutations | main.js:108-122 | the callback colorizes each element once per occurrence in the batch's dispatch list, and no other element |

## Left out

- `normalizeColor` (main.js:24-33) is a parameter. Its canvas drawing, its pixel read-back and the rounding of `a / 255` are not modelled.
- The CSS cascade and computed-value serialisation are not modelled. A computed value is the string the model is given, and an inline declaration is read back as the string that was written.
- A write is not reflected in other elements' computed values. A new `color` on a parent changes the `color`, `fill` and `stroke` its descendants inherit, which `processAllElements` reads later. `currentcolor` in a border, fill or stroke is not re-resolved after the element's own `color` changes.
- CSSOM validation in `setProperty` is not modelled. A browser drops a write to a name that is not a CSS property, such as `borderTop-color`, or of a value it cannot parse. `setProperty(p, "", prio)` removes the declaration, after which the browser reads the computed value again. The model records every such write as given, so a palette entry with an empty replacement would leave a declaration whose value `Effective` reads back as `""`. The script's own palette has no empty replacement.
- The `MutationObserver` subscription (`startObserver`, main.js:125-132) is not modelled: the `attributeFilter` of `style` and `class`, the batching of records, and the records the script's own writes trigger. The model takes a batch of records as input.
- The `load` listener (main.js:134-137) is not modelled beyond `ProcessAllElements` itself. The `setInterval` of main.js:140 is commented out in the source.
- The userscript metadata block (main.js:1-6) is not modelled.
- The ordering of object keys that look like array indices, and the special key `__proto__`, are not modelled. They do not arise with colour strings.
- Strings are sequences of Unicode characters, not UTF-16 code units. Surrogate pairs are not modelled.
- `processElementAndChildren` on a text or comment node is excluded by `requires CanQuery`. The source's callback never passes one, and the uncaught `TypeError` it would raise is not modelled.
- Changes the page makes to an element's styles between runs are not modelled. `computed` is fixed when the element is built, so repeated runs see the same base values. The `attributes` branch (main.js:116-119) also reacts to a `class` or `style` change by the page, after which the computed colour can differ and a new run can write a different replacement.
- The document tree is fixed while the walkers run, which holds because the script changes only inline styles. `querySelectorAll` is modelled as the list of descendant elements in document order.
- Walker.HandleAdded: states how many times each element is colorized, not its resulting inline style. Composing those runs across `ProcessElementAndChildren` calls exceeds the verifier's resource bound. For a single subtree, `ProcessElementAndChildren` states the inline style.
- Walker.HandleMutation: states counts only, for the same reason as `HandleAdded`.
- Walker.OnMutations: states counts only, for the same reason as `HandleAdded`.
- Walker.RepeatSettles: `background-image` is excluded, for the same reason as in `ColorizedIdempotent`. A second pass re-scans the rewritten gradient, and a replacement colour name may itself match.
- Engine.ReplaceFirst: does not expand the `$&`, `$$`, `` $` `` and `$'` patterns of a replacement string, as JavaScript's `replace` does. Its one call passes `'-color'`, which contains no `$`.
- EngineFacts.ColorizedIdempotent: idempotence of `background-image` is not claimed. A second pass re-scans the rewritten gradient, and a replacement colour name may itself match.
