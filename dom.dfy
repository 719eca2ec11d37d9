// The parsed document the scraper reads through cheerio: a forest of text,
// comment and element nodes (the HTML tokeniser itself is outside the
// model), and the four operations the scraper applies to it: `$(sel)`,
// `.text()`, `.attr(name)` and `.remove()`.

module Dom {
  import opened Wrappers

  datatype Node =
    | Text(data: string)
    | Comment(data: string)
    | Element(tag: string, attrs: map<string, string>, children: seq<Node>)

  /** Text content of a node list, as cheerio's `.text()` computes it:
      every text node in document order; comments contribute nothing. */
  function TextContent(ns: seq<Node>): string
    decreases ns
  {
    if ns == [] then [] else NodeText(ns[0]) + TextContent(ns[1..])
  }

  function NodeText(n: Node): string
    decreases n
  {
    match n
    case Text(data) => data
    case Comment(_) => []
    case Element(_, _, children) => TextContent(children)
  }

  lemma {:induction false} TextContentAppend(a: seq<Node>, b: seq<Node>)
    ensures TextContent(a + b) == TextContent(a) + TextContent(b)
  {
    if a == [] {
      assert a + b == b;
    } else {
      assert (a + b)[0] == a[0];
      assert (a + b)[1..] == a[1..] + b;
      TextContentAppend(a[1..], b);
    }
  }

  /** The two selector shapes the scraper uses: `tag` and `tag[attr="value"]`. */
  datatype Selector = Tag(name: string) | TagWithAttr(name: string, attr: string, value: string)

  predicate Matches(sel: Selector, n: Node) {
    n.Element? && n.tag == sel.name &&
    (sel.TagWithAttr? ==> sel.attr in n.attrs && n.attrs[sel.attr] == sel.value)
  }

  /** `$(sel)`: every matching element in document order, including
      matches nested inside other matches. */
  function Select(sel: Selector, ns: seq<Node>): (r: seq<Node>)
    ensures forall i :: 0 <= i < |r| ==> Matches(sel, r[i])
    decreases ns
  {
    if ns == [] then [] else SelectIn(sel, ns[0]) + Select(sel, ns[1..])
  }

  function SelectIn(sel: Selector, n: Node): (r: seq<Node>)
    ensures forall i :: 0 <= i < |r| ==> Matches(sel, r[i])
    decreases n
  {
    match n
    case Element(_, _, children) => (if Matches(sel, n) then [n] else []) + Select(sel, children)
    case _ => []
  }

  /** Document order: each node, then the nodes inside it. */
  function Preorder(ns: seq<Node>): seq<Node>
    decreases ns
  {
    if ns == [] then [] else NodePreorder(ns[0]) + Preorder(ns[1..])
  }

  function NodePreorder(n: Node): seq<Node>
    decreases n
  {
    [n] + (if n.Element? then Preorder(n.children) else [])
  }

  /** The nodes of `xs` that match `sel`, in the order of `xs`. */
  function Filter(sel: Selector, xs: seq<Node>): seq<Node> {
    if xs == [] then [] else (if Matches(sel, xs[0]) then [xs[0]] else []) + Filter(sel, xs[1..])
  }

  lemma {:induction false} FilterAppend(sel: Selector, a: seq<Node>, b: seq<Node>)
    ensures Filter(sel, a + b) == Filter(sel, a) + Filter(sel, b)
  {
    if a == [] {
      assert a + b == b;
    } else {
      assert (a + b)[0] == a[0];
      assert (a + b)[1..] == a[1..] + b;
      FilterAppend(sel, a[1..], b);
    }
  }

  /** `$(sel)` selects every matching node of the document and nothing
      else, in document order. */
  lemma {:induction false} SelectInDocumentOrder(sel: Selector, ns: seq<Node>)
    ensures Select(sel, ns) == Filter(sel, Preorder(ns))
    decreases ns
  {
    if ns != [] {
      var n := ns[0];
      var inner := if n.Element? then Preorder(n.children) else [];
      assert Select(sel, ns) == SelectIn(sel, n) + Select(sel, ns[1..]);
      assert Preorder(ns) == NodePreorder(n) + Preorder(ns[1..]);
      SelectInDocumentOrder(sel, ns[1..]);
      FilterAppend(sel, NodePreorder(n), Preorder(ns[1..]));
      FilterAppend(sel, [n], inner);
      assert Filter(sel, [n]) == if Matches(sel, n) then [n] else [];
      if n.Element? {
        SelectInDocumentOrder(sel, n.children);
      }
    }
  }

  /** `.attr(name)` on a selection: the attribute of its first element,
      undefined (None) when the selection is empty or that element lacks it. */
  function FirstAttr(selection: seq<Node>, name: string): (r: Option<string>)
    ensures r.Some? ==> selection != [] && selection[0].Element? && name in selection[0].attrs
    ensures r.Some? ==> r.value == selection[0].attrs[name]
    ensures selection != [] && selection[0].Element? && name in selection[0].attrs ==> r.Some?
  {
    if selection != [] && selection[0].Element? && name in selection[0].attrs
    then Some(selection[0].attrs[name])
    else None
  }

  /** No element whose tag is in `tags` occurs anywhere in `ns`. */
  predicate FreeOf(tags: set<string>, ns: seq<Node>)
    decreases ns
  {
    ns == [] || (FreeOfNode(tags, ns[0]) && FreeOf(tags, ns[1..]))
  }

  predicate FreeOfNode(tags: set<string>, n: Node)
    decreases n
  {
    n.Element? ==> n.tag !in tags && FreeOf(tags, n.children)
  }

  /** `$(tags).remove()`: every element whose tag is in `tags` is taken out
      together with its subtree; everything else stays in place. */
  function Remove(tags: set<string>, ns: seq<Node>): (r: seq<Node>)
    ensures FreeOf(tags, r)
    decreases ns
  {
    if ns == [] then []
    else if ns[0].Element? && ns[0].tag in tags then Remove(tags, ns[1..])
    else [RemoveIn(tags, ns[0])] + Remove(tags, ns[1..])
  }

  function RemoveIn(tags: set<string>, n: Node): (r: Node)
    requires !(n.Element? && n.tag in tags)
    ensures FreeOfNode(tags, r)
    decreases n
  {
    match n
    case Element(tag, attrs, children) => Element(tag, attrs, Remove(tags, children))
    case _ => n
  }

  /** Removal keeps every other node where it is: text and comments as
      they are, and an element with its tag and attributes, only its
      contents being cleaned in turn. */
  lemma RemoveKeeps(tags: set<string>, n: Node)
    requires !(n.Element? && n.tag in tags)
    ensures n.Element? ==> Remove(tags, [n]) == [Element(n.tag, n.attrs, Remove(tags, n.children))]
    ensures !n.Element? ==> Remove(tags, [n]) == [n]
  {
    assert [n][1..] == [];
  }

  /** The text that stays visible: every text node that is not inside a
      removed element, in document order. */
  function TextOutside(tags: set<string>, ns: seq<Node>): string
    decreases ns
  {
    if ns == [] then []
    else
      var first := if ns[0].Element? && ns[0].tag in tags then [] else NodeTextOutside(tags, ns[0]);
      first + TextOutside(tags, ns[1..])
  }

  function NodeTextOutside(tags: set<string>, n: Node): string
    decreases n
  {
    match n
    case Text(data) => data
    case Comment(_) => []
    case Element(_, _, children) => TextOutside(tags, children)
  }

  /** After removal, `.text()` reads exactly the text outside the removed
      elements: removal loses no other text, at any depth. */
  lemma {:induction false} RemovedText(tags: set<string>, ns: seq<Node>)
    ensures TextContent(Remove(tags, ns)) == TextOutside(tags, ns)
    decreases ns
  {
    if ns != [] {
      var n := ns[0];
      RemovedText(tags, ns[1..]);
      if !(n.Element? && n.tag in tags) {
        var kept := RemoveIn(tags, n);
        var rest := Remove(tags, ns[1..]);
        assert ([kept] + rest)[0] == kept && ([kept] + rest)[1..] == rest;
        if n.Element? {
          RemovedText(tags, n.children);
        }
        assert NodeText(kept) == NodeTextOutside(tags, n);
      }
    }
  }

  /** Removal takes out nothing but the named elements: a document that
      has none of them is left as it is. */
  lemma {:induction false} RemoveNothing(tags: set<string>, ns: seq<Node>)
    requires FreeOf(tags, ns)
    ensures Remove(tags, ns) == ns
    decreases ns
  {
    if ns != [] {
      if ns[0].Element? {
        RemoveNothing(tags, ns[0].children);
      }
      RemoveNothing(tags, ns[1..]);
    }
  }

  /** Removal works node by node, so it distributes over concatenation. */
  lemma {:induction false} RemoveAppend(tags: set<string>, a: seq<Node>, b: seq<Node>)
    ensures Remove(tags, a + b) == Remove(tags, a) + Remove(tags, b)
  {
    if a == [] {
      assert a + b == b;
    } else {
      assert (a + b)[0] == a[0];
      assert (a + b)[1..] == a[1..] + b;
      RemoveAppend(tags, a[1..], b);
    }
  }

  /** An element named in `tags`, wherever it is inserted among siblings
      and whatever it contains, leaves no trace after removal. */
  lemma RemoveDropsInserted(tags: set<string>, before: seq<Node>, e: Node, after: seq<Node>)
    requires e.Element? && e.tag in tags
    ensures Remove(tags, before + [e] + after) == Remove(tags, before + after)
  {
    RemoveAppend(tags, before + [e], after);
    RemoveAppend(tags, before, [e]);
    RemoveAppend(tags, before, after);
    assert Remove(tags, [e]) == [];
  }
}
