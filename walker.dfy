/** Which elements get colorized: `processAllElements`,
    `processElementAndChildren` and the mutation callback (main.js:90-122).

    The document is a finite tree of nodes tagged by their kind. The element
    lists that `querySelectorAll('*')` and the mutation callback produce are
    functions of the tree and of the mutation records; the methods walk those
    lists and call `ColorizeElement` on each element, so an element that occurs
    twice is colorized twice. */
module Walker {
  import opened Palette
  import opened Engine
  import opened EngineFacts

  datatype Node =
    | ElementNode(element: Element, children: seq<Node>)
    | TextNode(data: string)
    | CommentNode(data: string)
    | DocumentNode(children: seq<Node>)
    | FragmentNode(children: seq<Node>)

  /** The nodes that have `querySelectorAll`. */
  predicate CanQuery(n: Node) {
    n.ElementNode? || n.DocumentNode? || n.FragmentNode?
  }

  /** `[n]` for an element node (`nodeType === Node.ELEMENT_NODE`), else nothing. */
  function Own(n: Node): seq<Element> {
    if n.ElementNode? then [n.element] else []
  }

  /** `n.querySelectorAll('*')`: the elements strictly below `n`, in document order. */
  function QueryAll(n: Node): seq<Element>
    decreases n, 1
  {
    match n
    case ElementNode(_, cs) => Gather(cs)
    case DocumentNode(cs) => Gather(cs)
    case FragmentNode(cs) => Gather(cs)
    case _ => []
  }

  /** The elements of the nodes `ns` and below them, in document order. */
  function Gather(ns: seq<Node>): seq<Element>
    decreases ns, 0
  {
    if ns == [] then [] else Own(ns[0]) + QueryAll(ns[0]) + Gather(ns[1..])
  }

  /** `e` is the element of `n` or of a node below it. */
  predicate Within(n: Node, e: Element)
    decreases n, 1
  {
    match n
    case ElementNode(el, cs) => el == e || WithinSome(cs, e)
    case DocumentNode(cs) => WithinSome(cs, e)
    case FragmentNode(cs) => WithinSome(cs, e)
    case _ => false
  }

  predicate WithinSome(ns: seq<Node>, e: Element)
    decreases ns, 0
  {
    ns != [] && (Within(ns[0], e) || WithinSome(ns[1..], e))
  }

  /** The children of `n`. */
  function Kids(n: Node): seq<Node> {
    match n
    case ElementNode(_, cs) => cs
    case DocumentNode(cs) => cs
    case FragmentNode(cs) => cs
    case _ => []
  }

  lemma {:induction false} QueryAllFinds(n: Node, e: Element)
    ensures e in QueryAll(n) <==> WithinSome(Kids(n), e)
    decreases n, 1
  {
    match n
    case ElementNode(_, cs) => GatherFinds(cs, e);
    case DocumentNode(cs) => GatherFinds(cs, e);
    case FragmentNode(cs) => GatherFinds(cs, e);
    case _ =>
  }

  lemma {:induction false} GatherFinds(ns: seq<Node>, e: Element)
    ensures e in Gather(ns) <==> WithinSome(ns, e)
    decreases ns, 0
  {
    if ns != [] {
      QueryAllFinds(ns[0], e);
      GatherFinds(ns[1..], e);
    }
  }

  /** The elements `processElementAndChildren(n)` colorizes, in order (main.js:97-105). */
  function Targets(n: Node): seq<Element> {
    Own(n) + QueryAll(n)
  }

  /** `processElementAndChildren` reaches exactly the elements of the subtree. */
  lemma TargetsAreSubtree(n: Node, e: Element)
    requires CanQuery(n)
    ensures e in Targets(n) <==> Within(n, e)
  {
    QueryAllFinds(n, e);
  }

  // ---------------------------------------------------------------------------
  // Mutation records

  datatype Mutation =
    | ChildList(addedNodes: seq<Node>)
    | Attributes(target: Node)
    | CharacterData(target: Node)

  /** The elements the loop over `addedNodes` colorizes (main.js:111-115). */
  function AddedTargets(added: seq<Node>): seq<Element> {
    if added == [] then []
    else
      var n := added[|added| - 1];
      AddedTargets(added[..|added| - 1]) + (if n.ElementNode? then Targets(n) else [])
  }

  /** The elements the callback colorizes for one mutation record (main.js:110-120). */
  function MutationTargets(m: Mutation): seq<Element> {
    match m
    case ChildList(added) => AddedTargets(added)
    case Attributes(target) => Own(target)
    case CharacterData(_) => []
  }

  /** The elements the callback colorizes for a batch of records, in order (main.js:108-122). */
  function Dispatch(ms: seq<Mutation>): seq<Element> {
    if ms == [] then [] else Dispatch(ms[..|ms| - 1]) + MutationTargets(ms[|ms| - 1])
  }

  /** A record makes the callback colorize `e`: an added element node holds `e`
      in its subtree, or an attribute changed on the element `e`. */
  predicate Triggers(m: Mutation, e: Element) {
    match m
    case ChildList(added) => exists k :: 0 <= k < |added| && added[k].ElementNode? && Within(added[k], e)
    case Attributes(target) => target.ElementNode? && target.element == e
    case CharacterData(_) => false
  }

  lemma {:induction false} AddedTargetsFind(added: seq<Node>, e: Element)
    ensures e in AddedTargets(added) <==> exists k :: 0 <= k < |added| && added[k].ElementNode? && Within(added[k], e)
  {
    if added != [] {
      var init := added[..|added| - 1];
      var n := added[|added| - 1];
      AddedTargetsFind(init, e);
      assert forall k :: 0 <= k < |init| ==> init[k] == added[k];
      if n.ElementNode? {
        TargetsAreSubtree(n, e);
      }
    }
  }

  lemma MutationTargetsFind(m: Mutation, e: Element)
    ensures e in MutationTargets(m) <==> Triggers(m, e)
  {
    if m.ChildList? {
      AddedTargetsFind(m.addedNodes, e);
    }
  }

  /** The callback colorizes exactly the elements some record of the batch triggers. */
  lemma {:induction false} DispatchFinds(ms: seq<Mutation>, e: Element)
    ensures e in Dispatch(ms) <==> exists i :: 0 <= i < |ms| && Triggers(ms[i], e)
  {
    if ms != [] {
      var init := ms[..|ms| - 1];
      DispatchFinds(init, e);
      MutationTargetsFind(ms[|ms| - 1], e);
      assert forall i :: 0 <= i < |init| ==> init[i] == ms[i];
    }
  }

  // ---------------------------------------------------------------------------
  // The elements of an existing tree exist

  lemma {:induction false} QueryAllAllocated(n: Node)
    requires allocated(n)
    ensures forall e :: e in QueryAll(n) ==> allocated(e)
    decreases n, 1
  {
    match n
    case ElementNode(_, cs) => GatherAllocated(cs);
    case DocumentNode(cs) => GatherAllocated(cs);
    case FragmentNode(cs) => GatherAllocated(cs);
    case _ =>
  }

  lemma {:induction false} GatherAllocated(ns: seq<Node>)
    requires allocated(ns)
    ensures forall e :: e in Gather(ns) ==> allocated(e)
    decreases ns, 0
  {
    if ns != [] {
      QueryAllAllocated(ns[0]);
      GatherAllocated(ns[1..]);
    }
  }

  lemma {:induction false} AddedTargetsAllocated(added: seq<Node>)
    requires allocated(added)
    ensures forall e :: e in AddedTargets(added) ==> allocated(e)
  {
    if added != [] {
      AddedTargetsAllocated(added[..|added| - 1]);
      QueryAllAllocated(added[|added| - 1]);
    }
  }

  lemma {:induction false} DispatchAllocated(ms: seq<Mutation>)
    requires allocated(ms)
    ensures forall e :: e in Dispatch(ms) ==> allocated(e)
  {
    if ms != [] {
      DispatchAllocated(ms[..|ms| - 1]);
      match ms[|ms| - 1]
      case ChildList(added) => AddedTargetsAllocated(added);
      case _ =>
    }
  }

  // ---------------------------------------------------------------------------
  // Colorizing, once per occurrence

  /** The inline style after `n` runs of `colorizeElement`. */
  function Repeat(computed: map<string, string>, st: Style, colorMap: seq<Entry>, norm: string -> string, n: nat): Style {
    if n == 0 then st else Colorized(computed, Repeat(computed, st, colorMap, norm, n - 1), colorMap, norm)
  }

  lemma {:induction false} RepeatAdd(computed: map<string, string>, st: Style, colorMap: seq<Entry>, norm: string -> string,
                                     a: nat, b: nat)
    ensures Repeat(computed, Repeat(computed, st, colorMap, norm, a), colorMap, norm, b) == Repeat(computed, st, colorMap, norm, a + b)
  {
    if b > 0 {
      RepeatAdd(computed, st, colorMap, norm, a, b - 1);
    }
  }

  /** An element colorized several times ends as if colorized once, except
      perhaps for `background-image`, when no replacement is a palette colour. */
  lemma {:induction false} RepeatSettles(computed: map<string, string>, st: Style, colorMap: seq<Entry>, norm: string -> string,
                                         n: nat, p: string)
    requires NoCollision(colorMap, norm) && p != "background-image" && n >= 1
    ensures At(Repeat(computed, st, colorMap, norm, n), p) == At(Colorized(computed, st, colorMap, norm), p)
  {
    if n > 1 {
      RepeatSettles(computed, st, colorMap, norm, n - 1, p);
      ColorizedIdempotent(computed, Repeat(computed, st, colorMap, norm, n - 2), colorMap, norm, p);
    }
  }

  /** `elements.forEach(colorizeElement)`, and the `for ... of` loop of
      `processAllElements` (main.js:92-94, 102-104): each element is colorized
      once per occurrence in `els`. */
  method ColorizeEach(els: seq<Element>, colorMap: seq<Entry>, norm: string -> string)
    modifies set e | e in els
    ensures forall e {:trigger e in els} :: e in els ==> e.runs == old(e.runs) + multiset(els)[e]
    ensures forall e {:trigger e in els} :: e in els ==> e.inline == Repeat(e.computed, old(e.inline), colorMap, norm, multiset(els)[e])
  {
    ghost var seen: multiset<Element> := multiset{};
    for i := 0 to |els|
      invariant seen == multiset(els[..i])
      invariant forall e {:trigger e in els} :: e in els ==> e.runs == old(e.runs) + seen[e]
      invariant forall e {:trigger e in els} :: e in els ==> e.inline == Repeat(e.computed, old(e.inline), colorMap, norm, seen[e])
    {
      label Before:
      ColorizeElement(els[i], colorMap, norm);
      forall e {:trigger e in els} | e in els
        ensures e.runs == old(e.runs) + (seen + multiset{els[i]})[e]
        ensures e.inline == Repeat(e.computed, old(e.inline), colorMap, norm, (seen + multiset{els[i]})[e])
      {
        if e != els[i] {
          assert e.inline == old@Before(e.inline) && e.runs == old@Before(e.runs);
        }
      }
      assert els[..i + 1] == els[..i] + [els[i]];
      seen := seen + multiset{els[i]};
    }
    assert els[..|els|] == els;
  }

  /** `processAllElements()` on the document `doc` (main.js:90-95). */
  method ProcessAllElements(doc: Node, colorMap: seq<Entry>, norm: string -> string)
    requires doc.DocumentNode?
    modifies set e | e in QueryAll(doc)
    ensures forall e {:trigger e in QueryAll(doc)} :: e in QueryAll(doc) ==> old(allocated(e))
    ensures forall e {:trigger e in QueryAll(doc)} :: e in QueryAll(doc) && old(allocated(e)) ==>
              e.runs == old(e.runs) + multiset(QueryAll(doc))[e]
    ensures forall e {:trigger e in QueryAll(doc)} :: e in QueryAll(doc) && old(allocated(e)) ==>
              e.inline == Repeat(e.computed, old(e.inline), colorMap, norm, multiset(QueryAll(doc))[e])
  {
    QueryAllAllocated(doc);
    var elements := QueryAll(doc);
    ColorizeEach(elements, colorMap, norm);
  }

  /** `processElementAndChildren(node)` (main.js:97-105). */
  method ProcessElementAndChildren(node: Node, colorMap: seq<Entry>, norm: string -> string)
    requires CanQuery(node)
    modifies set e | e in Targets(node)
    ensures forall e {:trigger e in Targets(node)} :: e in Targets(node) ==> old(allocated(e))
    ensures forall e {:trigger e in Targets(node)} :: e in Targets(node) && old(allocated(e)) ==>
              e.runs == old(e.runs) + multiset(Targets(node))[e]
    ensures forall e {:trigger e in Targets(node)} :: e in Targets(node) && old(allocated(e)) ==>
              e.inline == Repeat(e.computed, old(e.inline), colorMap, norm, multiset(Targets(node))[e])
  {
    QueryAllAllocated(node);
    if node.ElementNode? {
      ColorizeElement(node.element, colorMap, norm);
    }
    label Middle:
    ColorizeEach(QueryAll(node), colorMap, norm);
    forall e {:trigger e in Targets(node)} | e in Targets(node)
      ensures e.runs == old(e.runs) + multiset(Targets(node))[e]
      ensures e.inline == Repeat(e.computed, old(e.inline), colorMap, norm, multiset(Targets(node))[e])
    {
      if e in QueryAll(node) {
        RepeatAdd(e.computed, old(e.inline), colorMap, norm, multiset(Own(node))[e], multiset(QueryAll(node))[e]);
      } else {
        assert e.inline == old@Middle(e.inline) && e.runs == old@Middle(e.runs);
      }
    }
  }

  /** The elements of the `j`-th added node are among those of the whole list. */
  lemma AddedTargetsCover(added: seq<Node>, j: nat)
    requires j < |added| && added[j].ElementNode?
    ensures forall e :: e in Targets(added[j]) ==> e in AddedTargets(added)
  {
    forall e | e in Targets(added[j])
      ensures e in AddedTargets(added)
    {
      TargetsAreSubtree(added[j], e);
      AddedTargetsFind(added, e);
    }
  }

  lemma AddedTargetsNext(added: seq<Node>, j: nat)
    requires j < |added|
    ensures multiset(AddedTargets(added[..j + 1]))
         == multiset(AddedTargets(added[..j])) + multiset(if added[j].ElementNode? then Targets(added[j]) else [])
  {
    assert added[..j + 1][..j] == added[..j];
  }

  /** The records before the `i`-th produce its elements too. */
  lemma DispatchCover(ms: seq<Mutation>, i: nat)
    requires i < |ms|
    ensures forall e :: e in MutationTargets(ms[i]) ==> e in Dispatch(ms)
  {
    forall e | e in MutationTargets(ms[i])
      ensures e in Dispatch(ms)
    {
      MutationTargetsFind(ms[i], e);
      DispatchFinds(ms, e);
    }
  }

  lemma DispatchNext(ms: seq<Mutation>, i: nat)
    requires i < |ms|
    ensures multiset(Dispatch(ms[..i + 1])) == multiset(Dispatch(ms[..i])) + multiset(MutationTargets(ms[i]))
  {
    assert ms[..i + 1][..i] == ms[..i];
  }

  /** The loop over `mutation.addedNodes` (main.js:111-115): each element of
      an added element's subtree is colorized once per occurrence. */
  method HandleAdded(added: seq<Node>, colorMap: seq<Entry>, norm: string -> string)
    modifies set e | e in AddedTargets(added)
    ensures forall e {:trigger e in AddedTargets(added)} :: e in AddedTargets(added) ==> old(allocated(e))
    ensures forall e {:trigger e in AddedTargets(added)} :: e in AddedTargets(added) && old(allocated(e)) ==>
              e.runs == old(e.runs) + multiset(AddedTargets(added))[e]
  {
    AddedTargetsAllocated(added);
    ghost var seen: multiset<Element> := multiset{};
    for j := 0 to |added|
      invariant seen == multiset(AddedTargets(added[..j]))
      invariant forall e {:trigger e in AddedTargets(added)} :: e in AddedTargets(added) ==> e.runs == old(e.runs) + seen[e]
    {
      var node := added[j];
      AddedTargetsNext(added, j);
      if node.ElementNode? {
        AddedTargetsCover(added, j);
        label Before:
        ProcessElementAndChildren(node, colorMap, norm);
        forall e {:trigger e in AddedTargets(added)} | e in AddedTargets(added)
          ensures e.runs == old(e.runs) + (seen + multiset(Targets(node)))[e]
        {
          if e !in Targets(node) {
            assert e.runs == old@Before(e.runs);
          }
        }
        seen := seen + multiset(Targets(node));
      }
    }
    assert added[..|added|] == added;
  }

  /** The body of the callback for one mutation record (main.js:110-120). */
  method HandleMutation(m: Mutation, colorMap: seq<Entry>, norm: string -> string)
    modifies set e | e in MutationTargets(m)
    ensures forall e {:trigger e in MutationTargets(m)} :: e in MutationTargets(m) ==> old(allocated(e))
    ensures forall e {:trigger e in MutationTargets(m)} :: e in MutationTargets(m) && old(allocated(e)) ==>
              e.runs == old(e.runs) + multiset(MutationTargets(m))[e]
  {
    match m
    case ChildList(added) =>
      HandleAdded(added, colorMap, norm);
    case Attributes(target) =>
      if target.ElementNode? {
        ColorizeElement(target.element, colorMap, norm);
      }
    case CharacterData(_) =>
  }

  /** The `MutationObserver` callback for one batch of records (main.js:108-122). */
  method OnMutations(ms: seq<Mutation>, colorMap: seq<Entry>, norm: string -> string)
    modifies set e | e in Dispatch(ms)
    ensures forall e {:trigger e in Dispatch(ms)} :: e in Dispatch(ms) ==> old(allocated(e))
    ensures forall e {:trigger e in Dispatch(ms)} :: e in Dispatch(ms) && old(allocated(e)) ==>
              e.runs == old(e.runs) + multiset(Dispatch(ms))[e]
  {
    DispatchAllocated(ms);
    ghost var seen: multiset<Element> := multiset{};
    for i := 0 to |ms|
      invariant seen == multiset(Dispatch(ms[..i]))
      invariant forall e {:trigger e in Dispatch(ms)} :: e in Dispatch(ms) ==> e.runs == old(e.runs) + seen[e]
    {
      DispatchNext(ms, i);
      DispatchCover(ms, i);
      label Before:
      HandleMutation(ms[i], colorMap, norm);
      forall e {:trigger e in Dispatch(ms)} | e in Dispatch(ms)
        ensures e.runs == old(e.runs) + (seen + multiset(MutationTargets(ms[i])))[e]
      {
        if e !in MutationTargets(ms[i]) {
          assert e.runs == old@Before(e.runs);
        }
      }
      seen := seen + multiset(MutationTargets(ms[i]));
    }
    assert ms[..|ms|] == ms;
  }
}
