# xml-visualizer core, modelled in Dafny

The viewer loads one or more XML files, turns each document element into a
labelled tree `{ name, children }`, groups the trees under a synthetic root
labelled `"OSS"`, and draws the result as a d3 node-link diagram. Clicking a
node highlights the links on its path up to the root. This project models the
parts of `script.js` that hold the viewer's own logic:

- `XmlTree` (`xml_tree.dfy`): the element tree (`Element`), the output tree
  (`Node`), the label rule `getAttribute("name") || nodeName`, the recursive
  conversion `xmlToJSON`, and the combining loop of `loadXMLFiles`. The label
  rule is one function, `Label`. The conversion and the combination are each a
  defining function (`ToTree`, `Combine`) plus a method (`XmlToJson`,
  `LoadXmlFiles`) that follows the source's push loops and is proved equal to
  it. Lemmas prove that the conversion keeps the element count and the
  height, and that every path of child indices reaches an element exactly when
  it reaches a node of the conversion, with that element's label and child
  count (`ShapeAt`). For the combined tree
  they prove the node count (sum of the documents' element counts, plus one)
  and the height.
- `Highlight` (`highlight.dfy`): `highlightPath`. The laid-out d3 hierarchy is
  a sequence of parent indices in `root.descendants()` order, which is
  breadth-first: node 0 is the root, with parent `-1`, and every other node's
  parent comes before it. The links are `root.links()`: one link per non-root
  node, from its parent to it. A `Diagram` class holds one highlighted flag
  per link in an array. `HighlightPath` resets every flag, then walks parent
  pointers in a `while` loop. At each step, an inner loop (the `filter`)
  highlights the links whose target is the current node. The method is proved
  to leave exactly the links into the nodes on the path to the root (root
  excluded) highlighted, and to take `Depth(selected)` iterations. Lemmas
  prove that the number of highlighted links equals the depth, so selecting
  the root highlights nothing. Because the final state is a function of the
  last selection alone, clicking twice is the same as clicking once.
- `Canvas` (`canvas.dfy`): the width, height and tree-layout extents chosen
  from the orientation flag and d3's `root.height`.
- `Wrappers` (`wrappers.dfy`): an `Option` type for the possibly absent
  `name` attribute.

## What the code does not do

- `script.js` keeps no collapse/expand state: every node of the tree is drawn,
  and nothing toggles.
- The code highlights links, not nodes. The root has no incoming link, so the
  root is never highlighted: the model highlights the links into the nodes on
  the path except the root. `PathToRoot` gives the full node path, root
  included, of length depth + 1.
- The code has no error path for malformed XML. `parseFromString` reports a
  parse error by returning a document whose element is a `parsererror`
  element. The code converts and draws that element like any other, and so does
  the model: it is an ordinary `Element` input to `LoadXmlFiles`.
- The code never checks for a null `documentElement`. `xmlToJSON(null)` would
  throw at script.js:17, and that path is not modelled.
- Only the exact string `"horizontal"` selects the horizontal layout; any
  other orientation takes the vertical branch, as the code's `===`
  comparisons do.

## Model

| member | source | states |
|---|---|---|
| XmlTree.Label | script.js:17 | the label is the `name` attribute when it is present and non-empty; when it is absent or empty, it is the tag name |
| XmlTree.XmlToJson | script.js:16-25 | the node built by pushing the converted element children one by one equals the conversion `ToTree` of the element |
| XmlTree.ShapeAt | script.js:16-25 | a path of child indices leads to an element of the source tree if and only if it leads to a node of the converted tree; that node carries the element's label (name attribute, else tag) and has exactly as many children as the element |
| XmlTree.ToTreeCount | script.js:16-25 | the converted tree has exactly as many nodes as the element subtree has elements |
| XmlTree.ToTreeHeight | script.js:16-25 | the converted tree has the same height as the element subtree |
| XmlTree.LoadXmlFiles | script.js:3-12 | the combined tree is labelled "OSS" and has one child per document; child i is the conversion of document i, in input order |
| XmlTree.CombineCount | script.js:3-12 | the combined tree has one node more (the "OSS" root) than the documents have elements in total |
| XmlTree.CombineHeight | script.js:12 | the combined tree is a leaf when no document is loaded, and otherwise is one level taller than its tallest document |
| XmlTree.NestedDocumentScenario | script.js:3-25 | `<Root name="A"><Child name="B"/><Child name="C"/></Root>` becomes OSS -> A -> [B, C] |
| XmlTree.FallbackScenario | script.js:17 | elements with an empty or absent `name` attribute are labelled by their tag, in input order under "OSS" |
| Highlight.PathToRoot | script.js:75-79 | the parent walk from a node visits depth + 1 nodes; it starts at the node, ends at the root, and each step goes to the parent |
| Highlight.Diagram.constructor | script.js:49-58 | the diagram draws `root.links()`, one link per non-root node, and none of them highlighted |
| Highlight.Diagram.HighlightPath | script.js:70-81 | after the reset and the walk, link k is highlighted exactly when its target lies on the path to the root, the root excluded; the walk takes depth(selected) iterations and so terminates |
| Highlight.ClickTwice | script.js:70-80 | after two clicks the styles are those of the second click alone: the state depends only on the current selection, and clicking the same node twice equals clicking it once; as many links stay highlighted as the second node is deep |
| Highlight.MarkedBounds | script.js:76-79 | every node the walk highlights into is a non-root node no later than the selection in descendants order |
| Highlight.MarkedIsPathWithoutRoot | script.js:75-79 | a node is marked by the walk if and only if it is on the path to the root and is not the root |
| Highlight.MarkedSize | script.js:76-79 | the walk marks as many distinct nodes as the selection is deep |
| Highlight.HighlightCount | script.js:75-80 | with the links of `root.links()`, the number of highlighted links equals the selection's depth, and selecting the root highlights none |
| Highlight.HighlightedIffOnPath | script.js:76-78 | a link is highlighted if and only if its target is on the selection's path to the root and is not the root |
| Canvas.Size | script.js:30-45 | the height is 600; the width is 960 in vertical mode and max(960, 200 * height) in horizontal mode; the layout extents are [height-100, width-200] (horizontal) or [width-100, height-100] (vertical), and both are positive |
| Canvas.WidthGrowsWithHeight | script.js:34 | the width never shrinks as the tree grows, stays 960 up to tree height 4, and is 200 * height beyond that in horizontal mode |
| Canvas.HorizontalRoomPerLevel | script.js:34-42 | in horizontal mode the layout's depth extent is at least 200 * (treeHeight - 1) pixels, and at least 160 pixels for each of the treeHeight levels below the root, with equality at tree height 5 |

## Left out

- `fetch`, `response.text()` and `DOMParser.parseFromString` (script.js:5-8): asynchronous I/O and browser parsing. The parsed document elements are the input of `LoadXmlFiles`.
- Text, comment and other non-element nodes: the code walks the DOM `children` collection, which holds elements only, so `Element.children` holds elements only.
- `d3.hierarchy`, `d3.tree` and `treeLayout(root)` (script.js:32, 42-47): a foreign library whose coordinates are floating point. The hierarchy's parent indices and `root.height` are inputs. The model does not derive them from the `Node` tree.
- SVG construction, coordinate attributes, transforms, circles, text and click wiring (script.js:28, 37-38, 49-68): presentation. A link's style is reduced to a highlighted flag, not colours and stroke widths.
- `renderTree`'s removal of the previous drawing (script.js:28): the DOM is not modelled. Each `Diagram` stands for one rendering.
- A null `documentElement`: `xmlToJSON(null)` would throw a TypeError at script.js:17, and that path is not modelled. A parse error is not this case: it yields a `parsererror` element, which the model converts like any other element.
