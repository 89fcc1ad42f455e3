/** The element nodes the handler builds (XMLNode, filemaker.py:127-132). */
module Nodes {
  import opened Wrappers

  class XMLNode {
    const name: string
    const attrs: map<string, string>
    var text: string
    var children: seq<XMLNode>

    /** `XMLNode(name, attrs)`: no text and no children yet. */
    constructor (name: string, attrs: map<string, string>)
      ensures this.name == name && this.attrs == attrs && text == "" && children == []
    {
      this.name := name;
      this.attrs := attrs;
      this.text := "";
      this.children := [];
    }
  }

  /** The node's last child, if it has children. */
  function LastChild(n: XMLNode): (r: Option<XMLNode>)
    reads n
    ensures r.None? <==> n.children == []
    ensures r.Some? ==> r.value in n.children && r.value == n.children[|n.children| - 1]
  {
    if n.children == [] then None else Some(n.children[|n.children| - 1])
  }

  /** The texts of the given nodes, in order. */
  function Texts(nodes: seq<XMLNode>): (r: seq<string>)
    reads set n | n in nodes
    ensures |r| == |nodes| && forall i :: 0 <= i < |nodes| ==> r[i] == nodes[i].text
  {
    if nodes == [] then [] else Texts(nodes[..|nodes| - 1]) + [nodes[|nodes| - 1].text]
  }

  /**
   * `[data.text for col in node.children for data in col.children]`: the texts of the children of
   * every column, column after column.
   */
  function DataTexts(cols: seq<XMLNode>): (r: seq<string>)
    reads (set c | c in cols), (set c, d | c in cols && d in c.children :: d)
    ensures forall i :: 0 <= i < |r| ==> exists c, d :: c in cols && d in c.children && r[i] == d.text
  {
    if cols == [] then []
    else
      var last := cols[|cols| - 1];
      DataTexts(cols[..|cols| - 1]) + Texts(last.children)
  }

  /**
   * The flattening keeps document order: the texts of a run of columns followed by another run are
   * the texts of the first run followed by those of the second, and one column gives its children's texts.
   */
  lemma {:induction false} DataTextsAppend(a: seq<XMLNode>, b: seq<XMLNode>)
    ensures DataTexts(a + b) == DataTexts(a) + DataTexts(b)
    decreases |b|
  {
    if b == [] {
      assert a + b == a;
    } else {
      var init, last := b[..|b| - 1], b[|b| - 1];
      assert (a + b)[..|a + b| - 1] == a + init;
      DataTextsAppend(a, init);
    }
  }

  lemma DataTextsSingle(c: XMLNode)
    ensures DataTexts([c]) == Texts(c.children)
  {
    assert [c][..0] == [];
  }
}
