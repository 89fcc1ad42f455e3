/**
 * The SAX content handler (FMPXMLHandler, filemaker.py:140-190): a stack of the open elements, each new
 * element appended to the children of the element below it; FIELD and ROW ends handed to the importer.
 */
module Handler {
  import opened Wrappers
  import opened OrderedMaps
  import opened Nodes
  import opened Coercion
  import opened Importer

  /** The element names whose character data is kept. */
  predicate KeepsText(name: string) {
    name == "ROW" || name == "COL" || name == "DATA"
  }

  /** The SAX events the handler receives. */
  datatype Event = Start(name: string, attrs: map<string, string>) | End(name: string) | CharData(content: string)

  /** What one event does to the number of open elements. */
  function Delta(e: Event): int {
    if e.Start? then 1 else if e.End? then -1 else 0
  }

  /** Elements opened minus elements closed. */
  function Balance(events: seq<Event>): int {
    if events == [] then 0 else Balance(events[..|events| - 1]) + Delta(events[|events| - 1])
  }

  // ---------------------------------------------------------------------------
  // The callbacks on values: what the importer ends up with, apart from the texts
  // ---------------------------------------------------------------------------

  /** An open element as the callbacks see it: its tag name and its attributes. */
  datatype Element = Element(name: string, attrs: map<string, string>)

  /** The open elements, the field registry, and the attributes of the rows handed to `import_node`. */
  datatype Run = Run(open: seq<Element>, fields: OrderedMap<FieldDef>, rows: seq<map<string, string>>)

  /** One callback on values, with the exception it raises. */
  function Step(s: Run, e: Event): (Run, Option<ImportError>) {
    match e
    case Start(name, attrs) => StartStep(s, name, attrs)
    case CharData(_) => CharDataStep(s)
    case End(name) => EndStep(s, name)
  }

  /** startElement opens an element. */
  function StartStep(s: Run, name: string, attrs: map<string, string>): (Run, Option<ImportError>) {
    (s.(open := s.open + [Element(name, attrs)]), None)
  }

  /** characters needs an open element. */
  function CharDataStep(s: Run): (Run, Option<ImportError>) {
    (s, if s.open == [] then Some(NoCurrentNode) else None)
  }

  /**
   * endElement closes an element, registers a FIELD, and hands a ROW to import_node before it
   * looks up the ROW's parent.
   */
  function EndStep(s: Run, name: string): (Run, Option<ImportError>) {
    if s.open == [] then (s, Some(EmptyStack))
    else
      var top := s.open[|s.open| - 1];
      var popped := s.(open := s.open[..|s.open| - 1]);
      if name == "FIELD" then
        match FieldFromAttributes(top.attrs)
        case Err(err) => (popped, Some(err))
        case Ok(f) => (popped.(fields := popped.fields.Put(f.name, f)), None)
      else if name == "ROW" then
        var handed := popped.(rows := popped.rows + [top.attrs]);
        if "RECORDID" !in top.attrs then (handed, Some(MissingAttribute("RECORDID")))
        else if popped.open == [] then (handed, Some(NoCurrentNode))
        else (handed, None)
      else (popped, None)
  }

  /** The events delivered in order; the first exception ends the parse, with the state it left. */
  function Replay(s: Run, events: seq<Event>): (Run, Option<ImportError>) {
    if events == [] then (s, None)
    else
      var prev := Replay(s, events[..|events| - 1]);
      if prev.1.Some? then prev else Step(prev.0, events[|events| - 1])
  }

  /** Once an exception is raised, later events change nothing. */
  lemma {:induction false} ReplayErrorPersists(s: Run, events: seq<Event>, n: nat)
    requires n <= |events| && Replay(s, events[..n]).1.Some?
    ensures Replay(s, events) == Replay(s, events[..n])
    decreases |events| - n
  {
    if n < |events| {
      assert events[..n + 1][..n] == events[..n];
      ReplayErrorPersists(s, events, n + 1);
    } else {
      assert events[..n] == events;
    }
  }

  /** A parse that raises nothing leaves one open element more per start than per end. */
  lemma {:induction false} ReplayBalance(s: Run, events: seq<Event>)
    requires Replay(s, events).1.None?
    ensures |Replay(s, events).0.open| == |s.open| + Balance(events)
  {
    if events != [] {
      var init := events[..|events| - 1];
      assert Replay(s, init).1.None?;
      ReplayBalance(s, init);
    }
  }

  /** The name and attributes of each node. */
  function Elements(nodes: seq<XMLNode>): (r: seq<Element>)
    ensures |r| == |nodes| && forall i :: 0 <= i < |nodes| ==> r[i] == Element(nodes[i].name, nodes[i].attrs)
  {
    if nodes == [] then [] else Elements(nodes[..|nodes| - 1]) + [Element(nodes[|nodes| - 1].name, nodes[|nodes| - 1].attrs)]
  }

  /** The attributes of each node. */
  function AttrsOf(nodes: seq<XMLNode>): (r: seq<map<string, string>>)
    ensures |r| == |nodes| && forall i :: 0 <= i < |nodes| ==> r[i] == nodes[i].attrs
  {
    if nodes == [] then [] else AttrsOf(nodes[..|nodes| - 1]) + [nodes[|nodes| - 1].attrs]
  }

  /** A start event on values: the new node, with the given name and attributes, is pushed. */
  lemma StartAgrees(name: string, attrs: map<string, string>, fields: OrderedMap<FieldDef>, rows: seq<XMLNode>,
                    open: seq<XMLNode>, node: XMLNode, open': seq<XMLNode>)
    requires open' == open + [node] && node.name == name && node.attrs == attrs
    ensures Step(Run(Elements(open), fields, AttrsOf(rows)), Start(name, attrs)) == (Run(Elements(open'), fields, AttrsOf(rows)), None)
  {
    ElementsAppend(open, node);
  }

  /** Character data on values: an error without an open element, and otherwise no change. */
  lemma CharDataAgrees(content: string, r: Result<(), ImportError>, fields: OrderedMap<FieldDef>, rows: seq<XMLNode>,
                       open: seq<XMLNode>)
    requires (r.Err? <==> open == []) && (r.Err? ==> r.error == NoCurrentNode)
    ensures Step(Run(Elements(open), fields, AttrsOf(rows)), CharData(content)) == (Run(Elements(open), fields, AttrsOf(rows)), ErrorOf(r))
  {
  }

  /**
   * An end event on values: what endElement's contract says about the stack `open` before and
   * `open'` after, the registry and the rows handed over, is what `Step` computes.
   */
  lemma EndAgrees(name: string, r: Result<(), ImportError>,
                  open: seq<XMLNode>, fields: OrderedMap<FieldDef>, rows: seq<XMLNode>,
                  open': seq<XMLNode>, fields': OrderedMap<FieldDef>, rows': seq<XMLNode>)
    requires open == [] ==> r == Err(EmptyStack) && open' == [] && fields' == fields && rows' == rows
    requires open != [] ==> open' == open[..|open| - 1]
    requires open != [] && name == "FIELD" ==>
               var field := FieldFromAttributes(open[|open| - 1].attrs);
               (r.Err? <==> field.Err?) && (r.Err? ==> r.error == field.error && fields' == fields) &&
               (r.Ok? ==> fields' == fields.Put(field.value.name, field.value))
    requires name != "FIELD" ==> fields' == fields
    requires open != [] && name == "ROW" ==> rows' == rows + [open[|open| - 1]]
    requires name != "ROW" ==> rows' == rows
    requires open != [] && name == "ROW" ==>
               r == if ImportNode(open[|open| - 1].attrs).Err? then ImportNode(open[|open| - 1].attrs)
                    else if |open| < 2 then Err(NoCurrentNode) else Ok(())
    requires open != [] && name != "FIELD" && name != "ROW" ==> r == Ok(())
    ensures Step(Run(Elements(open), fields, AttrsOf(rows)), End(name)) == (Run(Elements(open'), fields', AttrsOf(rows')), ErrorOf(r))
  {
    if open != [] {
      var top := open[|open| - 1];
      var s := Run(Elements(open), fields, AttrsOf(rows));
      ElementsPrefix(open, |open| - 1);
      assert s.open[|s.open| - 1] == Element(top.name, top.attrs);
      var popped := s.(open := Elements(open'));
      if name == "FIELD" {
        assert rows' == rows;
        var field := FieldFromAttributes(top.attrs);
        assert EndStep(s, name) == if field.Err? then (popped, Some(field.error))
                                     else (popped.(fields := fields.Put(field.value.name, field.value)), None);
      } else if name == "ROW" {
        AttrsOfAppend(rows, top);
        assert EndStep(s, name) == (popped.(rows := AttrsOf(rows')), ErrorOf(r));
      } else {
        assert EndStep(s, name) == (popped, None);
      }
    }
  }

  lemma ElementsPrefix(nodes: seq<XMLNode>, n: nat)
    requires n <= |nodes|
    ensures Elements(nodes[..n]) == Elements(nodes)[..n]
  {
  }

  lemma ElementsAppend(nodes: seq<XMLNode>, node: XMLNode)
    ensures Elements(nodes + [node]) == Elements(nodes) + [Element(node.name, node.attrs)]
  {
  }

  lemma AttrsOfAppend(nodes: seq<XMLNode>, node: XMLNode)
    ensures AttrsOf(nodes + [node]) == AttrsOf(nodes) + [node.attrs]
  {
  }

  /** The node's text has grown by the content when the node keeps text, and is as it was otherwise. */
  twostate predicate TextGrown(node: XMLNode, content: string)
    reads node
  {
    node.text == old(node.text) + (if KeepsText(node.name) then content else "")
  }

  /**
   * A start event's effect on the tree: the node is new, with no text and no children, and is the
   * parent's last child, after the children it had.
   */
  twostate predicate Opened(parent: Option<XMLNode>, new node: XMLNode)
    reads node, if parent.Some? then {parent.value} else {}
  {
    fresh(node) && node.text == "" && node.children == [] &&
    (parent.Some? ==> parent.value.children == old(parent.value.children) + [node])
  }

  /**
   * An end event's effect on the tree: a row that was handed over leaves its parent with the children
   * it had before the row started; any other end leaves the parent's children as they were.
   */
  twostate predicate Closed(parent: XMLNode, rowTaken: bool, siblings: seq<XMLNode>)
    reads parent
  {
    parent.children == if rowTaken then siblings else old(parent.children)
  }

  function ErrorOf(r: Result<(), ImportError>): Option<ImportError> {
    if r.Err? then Some(r.error) else None
  }

  class FMPXMLHandler {
    const importer: FMPImporter
    /** `_depth`: the open elements, outermost first. */
    var depth: seq<XMLNode>
    /** For each open element but the outermost, its parent's children as they were just before it was appended. */
    ghost var before: seq<seq<XMLNode>>
    /** The rows handed to `import_node`, in order. */
    ghost var imported: seq<XMLNode>

    /** The open elements are distinct, and each is the last child of the element below it. */
    ghost predicate Valid()
      reads this, importer, set n | n in depth
    {
      importer.Valid() &&
      |before| == |depth| &&
      (forall i, j :: 0 <= i < j < |depth| ==> depth[i] != depth[j]) &&
      (forall i :: 1 <= i < |depth| ==> depth[i - 1].children == before[i] + [depth[i]])
    }

    /** The handler's state on values. */
    ghost function State(): Run
      reads this, importer
    {
      Run(Elements(depth), importer.fields, AttrsOf(imported))
    }

    /** `FMPXMLHandler(importer)`: an empty stack; without an importer, a new one with the default date format. */
    constructor (importer: Option<FMPImporter>, strptime: DateParser)
      requires importer.Some? ==> importer.value.Valid()
      ensures Valid() && depth == [] && imported == []
      ensures importer.Some? ==> this.importer == importer.value
      ensures importer.None? ==> fresh(this.importer) && this.importer.fields.keys == [] &&
                                 this.importer.datefmt == DefaultDateFormat && this.importer.strptime == strptime
    {
      if importer.Some? {
        this.importer := importer.value;
      } else {
        this.importer := new FMPImporter(None, strptime);
      }
      depth := [];
      before := [];
      imported := [];
    }

    /** `current_node`: the innermost open element, or nothing when none is open. */
    function CurrentNode(): (r: Option<XMLNode>)
      reads this
      ensures r.None? <==> depth == []
      ensures r.Some? ==> r.value == depth[|depth| - 1] && r.value in depth
    {
      if depth == [] then None else Some(depth[|depth| - 1])
    }

    /**
     * `push_node(node)`: appends the node to the current element's children, when there is one, and
     * makes it the current element. Every open element stays the last child of the one below it.
     * Nothing but the current element's children changes in the tree.
     */
    method PushNode(node: XMLNode)
      requires Valid() && node !in depth
      modifies this, (if depth == [] then {} else {depth[|depth| - 1]})`children
      ensures Valid()
      ensures depth == old(depth) + [node] && imported == old(imported)
      ensures old(depth) != [] ==> old(depth[|depth| - 1]).children == old(depth[|depth| - 1].children) + [node]
      ensures before == old(before) + [if old(depth) == [] then [] else old(depth[|depth| - 1].children)]
      ensures forall i :: 0 <= i < |depth| - 1 ==> LastChild(depth[i]) == Some(depth[i + 1])
    {
      var parent := CurrentNode();
      var siblings := if parent.Some? then parent.value.children else [];
      if parent.Some? {
        parent.value.children := parent.value.children + [node];
      }
      depth := depth + [node];
      before := before + [siblings];
    }

    /** `startElement(name, attrs)`: a new element with no text and no children, pushed. */
    method StartElement(name: string, attrs: map<string, string>) returns (node: XMLNode)
      requires Valid()
      modifies this, (if depth == [] then {} else {depth[|depth| - 1]})`children
      ensures Valid() && fresh(node)
      ensures node.name == name && node.attrs == attrs && node.text == "" && node.children == []
      ensures depth == old(depth) + [node] && imported == old(imported)
      ensures old(depth) != [] ==> old(depth[|depth| - 1]).children == old(depth[|depth| - 1].children) + [node]
      ensures before == old(before) + [if old(depth) == [] then [] else old(depth[|depth| - 1].children)]
    {
      node := new XMLNode(name, attrs);
      PushNode(node);
    }

    /**
     * `characters(content)`: the content is added to the current element's text when it is a ROW,
     * COL or DATA; no other text, and no children, change.
     */
    method Characters(content: string) returns (r: Result<(), ImportError>)
      requires Valid()
      modifies (if depth == [] then {} else {depth[|depth| - 1]})`text
      ensures Valid()
      ensures r.Err? <==> depth == []
      ensures r.Err? ==> r.error == NoCurrentNode
      ensures r.Ok? ==> TextGrown(depth[|depth| - 1], content)
    {
      var node := CurrentNode();
      if node.None? {
        return Err(NoCurrentNode);
      }
      if KeepsText(node.value.name) {
        node.value.text := node.value.text + content;
      }
      r := Ok(());
    }

    /** `pop_node()`: removes and returns the current element; an empty stack is an error. */
    method PopNode() returns (r: Result<XMLNode, ImportError>)
      requires Valid()
      modifies this
      ensures Valid() && imported == old(imported)
      ensures r.Err? <==> old(depth) == []
      ensures r.Err? ==> r.error == EmptyStack && depth == old(depth)
      ensures r.Ok? ==> r.value == old(depth[|depth| - 1]) && depth == old(depth[..|depth| - 1]) &&
                        before == old(before[..|before| - 1])
    {
      if depth == [] {
        return Err(EmptyStack);
      }
      r := Ok(depth[|depth| - 1]);
      depth := depth[..|depth| - 1];
      before := before[..|before| - 1];
    }

    /**
     * `endElement(name)`: pops the current element; a FIELD is registered with the importer; a ROW is
     * handed to `import_node` and then dropped from its parent's children, which are left exactly as they
     * were before the ROW started. The element name tested is the one given, not the popped element's.
     * Only the parent's children can change in the tree.
     */
    method EndElement(name: string) returns (r: Result<(), ImportError>)
      requires Valid()
      modifies this, importer, (if |depth| < 2 then {} else {depth[|depth| - 2]})`children
      ensures Valid()
      ensures old(depth) == [] ==>
                r == Err(EmptyStack) && depth == [] && importer.fields == old(importer.fields) && imported == old(imported)
      ensures old(depth) != [] ==> depth == old(depth[..|depth| - 1])
      ensures old(depth) != [] && name == "FIELD" ==>
                var field := FieldFromAttributes(old(depth[|depth| - 1].attrs));
                (r.Err? <==> field.Err?) && (r.Err? ==> r.error == field.error && importer.fields == old(importer.fields)) &&
                (r.Ok? ==> importer.fields == old(importer.fields).Put(field.value.name, field.value))
      ensures name != "FIELD" ==> importer.fields == old(importer.fields)
      ensures old(depth) != [] && name == "ROW" ==> imported == old(imported) + [old(depth[|depth| - 1])]
      ensures name != "ROW" ==> imported == old(imported)
      ensures old(depth) != [] && name == "ROW" && r.Ok? ==> |old(depth)| >= 2
      ensures old(depth) != [] && name == "ROW" ==>
                r == if ImportNode(old(depth[|depth| - 1].attrs)).Err? then ImportNode(old(depth[|depth| - 1].attrs))
                     else if |old(depth)| < 2 then Err(NoCurrentNode) else Ok(())
      ensures |old(depth)| >= 2 && name == "ROW" && r.Ok? ==>
                old(depth[|depth| - 2]).children == old(before[|before| - 1])
      ensures |old(depth)| >= 2 && !(name == "ROW" && r.Ok?) ==>
                old(depth[|depth| - 2]).children == old(depth[|depth| - 2].children)
      ensures old(depth) != [] && name != "FIELD" && name != "ROW" ==> r == Ok(())
    {
      ghost var top := |before| - 1;
      ghost var siblings := if top >= 1 then before[top] else [];
      var popped := PopNode();
      if popped.Err? {
        return Err(popped.error);
      }
      var node := popped.value;
      if name == "FIELD" {
        r := importer.AddField(node.attrs);
      } else if name == "ROW" {
        imported := imported + [node];
        r := ImportNode(node.attrs);
        if r.Err? {
          return;
        }
        var parent := CurrentNode();
        if parent.None? {
          return Err(NoCurrentNode);
        }
        var children := parent.value.children;
        assert children == siblings + [node];
        parent.value.children := children[..|children| - 1];
        assert children[..|children| - 1] == siblings;
      } else {
        r := Ok(());
      }
    }

    /**
     * One SAX callback: the event handed to the method that handles it. On values it does what
     * `Step` says; in the tree, a start appends a new empty node to the current node's children,
     * character data grows the current node's text when the node keeps text, and a ROW end takes
     * the row back out of its parent's children.
     */
    method Deliver(e: Event) returns (r: Result<(), ImportError>)
      requires Valid()
      modifies this, importer
      modifies (if e.Start? && depth != [] then {depth[|depth| - 1]}
                else if e.End? && |depth| >= 2 then {depth[|depth| - 2]} else {})`children
      modifies (if e.CharData? && depth != [] then {depth[|depth| - 1]} else {})`text
      ensures Valid()
      ensures (State(), ErrorOf(r)) == Step(old(State()), e)
      ensures forall n :: n in depth ==> n in old(depth) || fresh(n)
      ensures e.Start? ==>
                |depth| == |old(depth)| + 1 && depth[..|depth| - 1] == old(depth) &&
                before == old(before) + [if old(depth) == [] then [] else old(depth[|depth| - 1].children)] &&
                Opened(if old(depth) == [] then None else Some(old(depth)[|old(depth)| - 1]), depth[|depth| - 1])
      ensures e.End? ==> depth == if old(depth) == [] then [] else old(depth)[..|old(depth)| - 1]
      ensures e.End? && |old(depth)| >= 2 ==>
                Closed(old(depth)[|old(depth)| - 2], e.name == "ROW" && r.Ok?, old(before)[|old(before)| - 1])
      ensures e.CharData? ==> depth == old(depth) && before == old(before)
      ensures e.CharData? && r.Ok? ==> TextGrown(depth[|depth| - 1], e.content)
    {
      match e {
        case Start(name, attrs) => r := DeliverStart(name, attrs);
        case End(name) => r := DeliverEnd(name);
        case CharData(content) => r := DeliverCharData(content);
      }
    }

    /** An element's start tag: on values, and in the tree. */
    method DeliverStart(name: string, attrs: map<string, string>) returns (r: Result<(), ImportError>)
      requires Valid()
      modifies this, (if depth == [] then {} else {depth[|depth| - 1]})`children
      ensures Valid()
      ensures (State(), ErrorOf(r)) == Step(old(State()), Start(name, attrs))
      ensures forall n :: n in depth ==> n in old(depth) || fresh(n)
      ensures |depth| == |old(depth)| + 1 && depth[..|depth| - 1] == old(depth)
      ensures before == old(before) + [if old(depth) == [] then [] else old(depth[|depth| - 1].children)]
      ensures Opened(if old(depth) == [] then None else Some(old(depth)[|old(depth)| - 1]), depth[|depth| - 1])
    {
      var node := StartElement(name, attrs);
      StartAgrees(name, attrs, importer.fields, imported, old(depth), node, depth);
      r := Ok(());
    }

    /** An element's end tag: on values, and in the tree. */
    method DeliverEnd(name: string) returns (r: Result<(), ImportError>)
      requires Valid()
      modifies this, importer, (if |depth| < 2 then {} else {depth[|depth| - 2]})`children
      ensures Valid()
      ensures (State(), ErrorOf(r)) == Step(old(State()), End(name))
      ensures forall n :: n in depth ==> n in old(depth)
      ensures depth == if old(depth) == [] then [] else old(depth)[..|old(depth)| - 1]
      ensures |old(depth)| >= 2 ==> Closed(old(depth)[|old(depth)| - 2], name == "ROW" && r.Ok?, old(before)[|old(before)| - 1])
    {
      r := EndElement(name);
      EndAgrees(name, r, old(depth), old(importer.fields), old(imported), depth, importer.fields, imported);
    }

    /** Character data: on values, and in the current element's text. */
    method DeliverCharData(content: string) returns (r: Result<(), ImportError>)
      requires Valid()
      modifies (if depth == [] then {} else {depth[|depth| - 1]})`text
      ensures Valid()
      ensures (State(), ErrorOf(r)) == Step(old(State()), CharData(content))
      ensures depth == old(depth) && before == old(before)
      ensures r.Ok? ==> TextGrown(depth[|depth| - 1], content)
    {
      r := Characters(content);
      CharDataAgrees(content, r, importer.fields, imported, depth);
    }

    /**
     * The parser's side of `xml.sax.parse`: the events are delivered in order, and the first exception
     * ends the parse. On values the parse does what `Replay` says; the tree stays well formed, and a
     * completed parse leaves one open element per element opened and not closed.
     */
    method Parse(events: seq<Event>) returns (r: Result<(), ImportError>)
      requires Valid()
      modifies this, importer, set n | n in depth
      ensures Valid()
      ensures (State(), ErrorOf(r)) == Replay(old(State()), events)
      ensures r.Ok? ==> |depth| == |old(depth)| + Balance(events)
    {
      ghost var start := State();
      var i := 0;
      while i < |events|
        invariant 0 <= i <= |events| && Valid()
        invariant Replay(start, events[..i]) == (State(), None)
        invariant forall n :: n in depth ==> n in old(depth) || fresh(n)
      {
        assert events[..i + 1][..i] == events[..i];
        r := Deliver(events[i]);
        if r.Err? {
          ReplayErrorPersists(start, events, i + 1);
          return;
        }
        i := i + 1;
      }
      assert events[..i] == events;
      ReplayBalance(start, events);
      r := Ok(());
    }
  }
}
