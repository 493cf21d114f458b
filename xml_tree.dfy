/**
  Conversion of a parsed XML element tree into the labelled tree that the
  viewer draws (`xmlToJSON`), and the grouping of several converted documents
  under one synthetic root labelled "OSS" (`loadXMLFiles` without its I/O).
 */
module XmlTree {
  import opened Wrappers

  /** A parsed XML element: its tag name (`nodeName`), the value of its `name`
      attribute (None when the attribute is absent) and its element children
      (the DOM `children` collection, which holds elements only), in document order. */
  datatype Element = Element(tag: string, nameAttr: Option<string>, children: seq<Element>)

  /** A node of the tree handed to the renderer: `{ name, children }`. */
  datatype Node = Node(name: string, children: seq<Node>)

  /** Label of the synthetic root that groups all loaded documents. */
  const RootLabel := "OSS"

  /** JavaScript truthiness of `getAttribute`'s result: null and "" are falsy. */
  predicate Truthy(attr: Option<string>)
  {
    attr.Some? && attr.value != ""
  }

  /** The label `xml.getAttribute("name") || xml.nodeName`. */
  function Label(e: Element): (r: string)
    ensures e.nameAttr.Some? && e.nameAttr.value != "" ==> r == e.nameAttr.value
    ensures e.nameAttr.None? || e.nameAttr.value == "" ==> r == e.tag
  {
    if Truthy(e.nameAttr) then e.nameAttr.value else e.tag
  }

  /** The conversion `xmlToJSON`, as a function of the element. */
  function ToTree(e: Element): (n: Node)
    decreases e
  {
    Node(Label(e), seq(|e.children|, i requires 0 <= i < |e.children| => ToTree(e.children[i])))
  }

  /** The tree built by `loadXMLFiles`: one converted tree per document, in input order. */
  function Combine(documents: seq<Element>): (combined: Node)
  {
    Node(RootLabel, seq(|documents|, i requires 0 <= i < |documents| => ToTree(documents[i])))
  }

  /** `xmlToJSON`: builds the node, then pushes the conversion of each child in turn. */
  method XmlToJson(e: Element) returns (n: Node)
    decreases e
    ensures n == ToTree(e)
  {
    var children: seq<Node> := [];
    for i := 0 to |e.children|
      invariant |children| == i
      invariant forall k :: 0 <= k < i ==> children[k] == ToTree(e.children[k])
    {
      var child := XmlToJson(e.children[i]);
      children := children + [child];
    }
    n := Node(Label(e), children);
  }

  /** `loadXMLFiles` once every file has been fetched and parsed: converts each
      document element in turn and groups the results under the "OSS" root. */
  method LoadXmlFiles(documents: seq<Element>) returns (combined: Node)
    ensures combined.name == RootLabel
    ensures |combined.children| == |documents|
    ensures forall i :: 0 <= i < |documents| ==> combined.children[i] == ToTree(documents[i])
    ensures combined == Combine(documents)
  {
    var trees: seq<Node> := [];
    for i := 0 to |documents|
      invariant |trees| == i
      invariant forall k :: 0 <= k < i ==> trees[k] == ToTree(documents[k])
    {
      var tree := XmlToJson(documents[i]);
      trees := trees + [tree];
    }
    combined := Node(RootLabel, trees);
  }

  // ---------------------------------------------------------------------------
  // Shape: the converted tree has a node wherever the element tree has an element

  /** The element reached from `e` by following the child indices `p`, if any. */
  function ElementAt(e: Element, p: seq<nat>): (r: Option<Element>)
    decreases |p|
  {
    if p == [] then Some(e)
    else if p[0] < |e.children| then ElementAt(e.children[p[0]], p[1..])
    else None
  }

  /** The node reached from `n` by following the child indices `p`, if any. */
  function NodeAt(n: Node, p: seq<nat>): (r: Option<Node>)
    decreases |p|
  {
    if p == [] then Some(n)
    else if p[0] < |n.children| then NodeAt(n.children[p[0]], p[1..])
    else None
  }

  /** Every path of child indices leads to an element exactly when it leads to
      a node of the conversion; that node is labelled by the element's label
      rule and has as many children as the element. */
  lemma {:induction false} ShapeAt(e: Element, p: seq<nat>)
    decreases |p|
    ensures ElementAt(e, p).Some? <==> NodeAt(ToTree(e), p).Some?
    ensures ElementAt(e, p).Some? ==>
      && NodeAt(ToTree(e), p).value.name == Label(ElementAt(e, p).value)
      && |NodeAt(ToTree(e), p).value.children| == |ElementAt(e, p).value.children|
  {
    if p != [] && p[0] < |e.children| {
      ShapeAt(e.children[p[0]], p[1..]);
    }
  }

  // ---------------------------------------------------------------------------
  // Size and height

  function Sum(s: seq<nat>): (total: nat)
  {
    if s == [] then 0 else s[0] + Sum(s[1..])
  }

  function Max(s: seq<nat>): (m: nat)
  {
    if s == [] then 0 else var m := Max(s[1..]); if s[0] > m then s[0] else m
  }

  /** The number of elements in the subtree rooted at `e`. */
  function ElementCount(e: Element): (count: nat)
    decreases e
  {
    1 + Sum(seq(|e.children|, i requires 0 <= i < |e.children| => ElementCount(e.children[i])))
  }

  /** The number of nodes in a tree. */
  function NodeCount(n: Node): (count: nat)
    decreases n
  {
    1 + Sum(seq(|n.children|, i requires 0 <= i < |n.children| => NodeCount(n.children[i])))
  }

  /** Length of the longest downward path from `e` to a leaf (a leaf has height 0). */
  function ElementHeight(e: Element): (h: nat)
    decreases e
  {
    if e.children == [] then 0
    else 1 + Max(seq(|e.children|, i requires 0 <= i < |e.children| => ElementHeight(e.children[i])))
  }

  /** Length of the longest downward path of a tree: d3's `root.height`. */
  function NodeHeight(n: Node): (h: nat)
    decreases n
  {
    if n.children == [] then 0
    else 1 + Max(seq(|n.children|, i requires 0 <= i < |n.children| => NodeHeight(n.children[i])))
  }

  /** The sum of the element counts of several documents. */
  function TotalElementCount(documents: seq<Element>): (total: nat)
  {
    Sum(seq(|documents|, i requires 0 <= i < |documents| => ElementCount(documents[i])))
  }

  /** Converting an element tree neither adds nor drops an element. */
  lemma {:induction false} ToTreeCount(e: Element)
    decreases e
    ensures NodeCount(ToTree(e)) == ElementCount(e)
  {
    var n := ToTree(e);
    forall i | 0 <= i < |e.children|
      ensures NodeCount(n.children[i]) == ElementCount(e.children[i])
    {
      ToTreeCount(e.children[i]);
    }
    assert seq(|n.children|, i requires 0 <= i < |n.children| => NodeCount(n.children[i]))
        == seq(|e.children|, i requires 0 <= i < |e.children| => ElementCount(e.children[i]));
  }

  /** Converting an element tree keeps its height. */
  lemma {:induction false} ToTreeHeight(e: Element)
    decreases e
    ensures NodeHeight(ToTree(e)) == ElementHeight(e)
  {
    var n := ToTree(e);
    forall i | 0 <= i < |e.children|
      ensures NodeHeight(n.children[i]) == ElementHeight(e.children[i])
    {
      ToTreeHeight(e.children[i]);
    }
    assert seq(|n.children|, i requires 0 <= i < |n.children| => NodeHeight(n.children[i]))
        == seq(|e.children|, i requires 0 <= i < |e.children| => ElementHeight(e.children[i]));
  }

  /** The combined tree holds every element of every document, plus its root. */
  lemma CombineCount(documents: seq<Element>)
    ensures NodeCount(Combine(documents)) == TotalElementCount(documents) + 1
  {
    var t := Combine(documents);
    forall i | 0 <= i < |documents|
      ensures NodeCount(t.children[i]) == ElementCount(documents[i])
    {
      ToTreeCount(documents[i]);
    }
    assert seq(|t.children|, i requires 0 <= i < |t.children| => NodeCount(t.children[i]))
        == seq(|documents|, i requires 0 <= i < |documents| => ElementCount(documents[i]));
  }

  /** The combined tree is one level taller than its tallest document, and a leaf
      when no document was loaded. */
  lemma CombineHeight(documents: seq<Element>)
    ensures documents == [] ==> NodeHeight(Combine(documents)) == 0
    ensures documents != [] ==>
      NodeHeight(Combine(documents)) ==
        1 + Max(seq(|documents|, i requires 0 <= i < |documents| => ElementHeight(documents[i])))
  {
    var t := Combine(documents);
    forall i | 0 <= i < |documents|
      ensures NodeHeight(t.children[i]) == ElementHeight(documents[i])
    {
      ToTreeHeight(documents[i]);
    }
    assert seq(|t.children|, i requires 0 <= i < |t.children| => NodeHeight(t.children[i]))
        == seq(|documents|, i requires 0 <= i < |documents| => ElementHeight(documents[i]));
  }

  // ---------------------------------------------------------------------------
  // Two example inputs

  /** `<Root name="A"><Child name="B"/><Child name="C"/></Root>` becomes
      OSS -> A -> [B, C]. */
  lemma NestedDocumentScenario()
    ensures Combine([Element("Root", Some("A"), [Element("Child", Some("B"), []), Element("Child", Some("C"), [])])])
         == Node("OSS", [Node("A", [Node("B", []), Node("C", [])])])
  {
    var b, c := Element("Child", Some("B"), []), Element("Child", Some("C"), []);
    assert ToTree(b) == Node("B", []);
    assert ToTree(c) == Node("C", []);
    assert ToTree(Element("Root", Some("A"), [b, c])) == Node("A", [Node("B", []), Node("C", [])]);
  }

  /** An element whose `name` is empty or absent is labelled with its tag. */
  lemma FallbackScenario()
    ensures Combine([Element("P", Some(""), []), Element("Q", None, [])])
         == Node("OSS", [Node("P", []), Node("Q", [])])
  {
    assert ToTree(Element("P", Some(""), [])) == Node("P", []);
    assert ToTree(Element("Q", None, [])) == Node("Q", []);
  }
}
