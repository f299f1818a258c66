/**
 * The text format of presemd's `@diagram` code blocks (`parse_diagram` and
 * `strip_trailing_parens` in `render/text.rs`): one node or edge per line, `a -> b: label` for an
 * edge, `name: label` for a node, a bare `name` for a node labelled with its name, an optional
 * list prefix and an optional trailing `(metadata)` that is ignored.
 */
module Diagram {
  import opened Wrappers
  import opened Strings

  /** A node; `caption` is the source's `label` (a reserved word here). */
  datatype Node = Node(name: string, caption: string)
  datatype Edge = Edge(from: string, to: string, caption: string)

  // ---------------------------------------------------------------------------------------
  // One line
  // ---------------------------------------------------------------------------------------

  /** `strip_trailing_parens`: drop a final `(...)` that follows a space. */
  function StripTrailingParens(s: string): string {
    var t := TrimEnd(s);
    if EndsWith(t, ")") then
      match RFindChar(t, '(')
      case Some(p) => if p > 0 && t[p - 1] == ' ' then TrimEnd(t[..p]) else t
      case None => t
    else t
  }

  /** `t` ends with `)` and its last `(` sits at `p`, after a space: metadata starts at `p`. */
  predicate MetadataAt(t: string, p: nat) {
    0 < p < |t| && t[|t| - 1] == ')' && t[p] == '(' && t[p - 1] == ' ' && '(' !in t[p + 1..]
  }

  lemma LastOpenParen(t: string, p: nat, q: nat)
    requires p < |t| && t[p] == '(' && '(' !in t[p + 1..]
    requires q < |t| && t[q] == '(' && '(' !in t[q + 1..]
    ensures p == q
  {
  }

  /**
   * The result is the right-trimmed line when there is no metadata, and the text before the
   * metadata, right-trimmed, when there is; either way a prefix with no trailing whitespace.
   */
  lemma StripParensSpec(s: string)
    ensures var t := TrimEnd(s);
      && (forall p: nat :: MetadataAt(t, p) ==> StripTrailingParens(s) == TrimEnd(t[..p]))
      && ((forall p: nat :: !MetadataAt(t, p)) ==> StripTrailingParens(s) == t)
    ensures var r := StripTrailingParens(s);
      && r == s[..|r|]
      && (r == [] || !IsWhitespace(r[|r| - 1]))
  {
    StripParensByMetadata(s);
    StripParensPrefix(s);
  }

  lemma StripParensByMetadata(s: string)
    ensures var t := TrimEnd(s);
      && (forall p: nat :: MetadataAt(t, p) ==> StripTrailingParens(s) == TrimEnd(t[..p]))
      && ((forall p: nat :: !MetadataAt(t, p)) ==> StripTrailingParens(s) == t)
  {
    var t := TrimEnd(s);
    forall p: nat | MetadataAt(t, p) ensures StripTrailingParens(s) == TrimEnd(t[..p]) {
      LastOpenParen(t, p, RFindChar(t, '(').value);
    }
    if StripTrailingParens(s) != t {
      assert MetadataAt(t, RFindChar(t, '(').value);
    }
  }

  lemma StripParensPrefix(s: string)
    ensures var r := StripTrailingParens(s);
      && r == s[..|r|]
      && (r == [] || !IsWhitespace(r[|r| - 1]))
  {
    var t := TrimEnd(s);
    TrimEndShape(s);
    var r := StripTrailingParens(s);
    if r != t {
      var p := RFindChar(t, '(').value;
      TrimEndShape(t[..p]);
    }
  }

  /** Metadata is stripped exactly when there is some, and stripping shortens the line. */
  lemma StripParensIff(s: string)
    ensures |StripTrailingParens(s)| < |TrimEnd(s)| <==> exists p: nat :: MetadataAt(TrimEnd(s), p)
  {
    var t := TrimEnd(s);
    StripParensSpec(s);
    if exists p: nat :: MetadataAt(t, p) {
      var p: nat :| MetadataAt(t, p);
      assert |TrimEnd(t[..p])| <= p;
    }
  }

  /** A node with metadata keeps only its name. */
  lemma MetadataStripped()
    ensures StripTrailingParens("db (x)") == "db"
  {
    var t := "db (x)";
    assert TrimEnd(t) == t;
    assert MetadataAt(t, 3);
    StripParensSpec(t);
    assert t[..3] == "db ";
    assert TrimEnd("db ") == "db";
  }

  /** Parentheses not preceded by a space are part of the name. */
  lemma CallKept()
    ensures StripTrailingParens("f(x)") == "f(x)"
  {
    var t := "f(x)";
    assert TrimEnd(t) == t;
    assert RFindChar(t, '(') == Some(1);
  }

  /** `- `, `+ ` or `* ` in front of a diagram line is ignored (the three prefixes are tried in turn). */
  function StripListPrefix(t: string): (r: string)
    ensures r == t || (|t| >= 2 && t[1] == ' ' && t[0] in "-+*" && r == t[2..])
  {
    match StripPrefix(t, "- ")
    case Some(r) => r
    case None =>
      match StripPrefix(t, "+ ")
      case Some(r) => r
      case None =>
        match StripPrefix(t, "* ")
        case Some(r) => r
        case None => t
  }

  /** What one line of a diagram declares. */
  datatype LineKind =
    | Blank
    | Arrow(from: string, to: string, caption: string)
    | Labeled(name: string, caption: string)
    | Bare(name: string)

  /**
   * The branches of the loop body of `parse_diagram`: metadata is removed first, then ` -> `
   * makes an edge (with an optional `: label` after the target), else `: ` makes a labelled node,
   * else the line is a bare node name.
   */
  function Classify(line: string): (k: LineKind) {
    var t0 := StripListPrefix(Trim(line));
    if t0 == [] then Blank else Declared(StripTrailingParens(t0))
  }

  /** A non-empty line without its metadata: an edge, a labelled node or a bare node. */
  function Declared(t: string): LineKind {
    match Find(t, " -> ")
    case Some(a) => EdgeTo(Trim(t[..a]), t[a + 4..])
    case None => NodeLine(t)
  }

  /** A line without an arrow: `name: label`, or a bare name. */
  function NodeLine(t: string): LineKind {
    match Find(t, ": ")
    case Some(c) => Labeled(Trim(t[..c]), Trim(t[c + 2..]))
    case None => Bare(Trim(t))
  }

  /** The edge from `from` to what follows ` -> `, with an optional `: label`. */
  function EdgeTo(from: string, rest: string): LineKind {
    match Find(rest, ": ")
    case Some(c) => Arrow(from, Trim(rest[..c]), Trim(rest[c + 2..]))
    case None => Arrow(from, Trim(rest), [])
  }

  /** Every name and label a line yields is trimmed. */
  lemma ClassifyTrimmed(line: string)
    ensures Classify(line).Arrow? ==> var k := Classify(line);
      Trim(k.from) == k.from && Trim(k.to) == k.to && Trim(k.caption) == k.caption
    ensures Classify(line).Labeled? ==> var k := Classify(line);
      Trim(k.name) == k.name && Trim(k.caption) == k.caption
    ensures Classify(line).Bare? ==> Trim(Classify(line).name) == Classify(line).name
  {
    var t0 := StripListPrefix(Trim(line));
    if t0 != [] {
      DeclaredTrimmed(StripTrailingParens(t0));
    }
  }

  lemma DeclaredTrimmed(t: string)
    ensures Declared(t).Arrow? ==> var k := Declared(t);
      Trim(k.from) == k.from && Trim(k.to) == k.to && Trim(k.caption) == k.caption
    ensures Declared(t).Labeled? ==> var k := Declared(t);
      Trim(k.name) == k.name && Trim(k.caption) == k.caption
    ensures Declared(t).Bare? ==> Trim(Declared(t).name) == Declared(t).name
  {
    match Find(t, " -> ")
    case Some(a) =>
      EdgeToTrimmed(t[..a], t[a + 4..]);
    case None =>
      NodeLineTrimmed(t);
  }

  lemma NodeLineTrimmed(t: string)
    ensures var k := NodeLine(t);
      (k.Labeled? && Trim(k.name) == k.name && Trim(k.caption) == k.caption) || (k.Bare? && Trim(k.name) == k.name)
  {
    match Find(t, ": ") {
      case Some(c) =>
        TrimIdempotent(t[..c]);
        TrimIdempotent(t[c + 2..]);
      case None =>
        TrimIdempotent(t);
    }
  }

  lemma EdgeToTrimmed(head: string, rest: string)
    ensures var k := EdgeTo(Trim(head), rest);
      k.Arrow? && Trim(k.from) == k.from && Trim(k.to) == k.to && Trim(k.caption) == k.caption
  {
    TrimIdempotent(head);
    match Find(rest, ": ") {
      case Some(c) =>
        TrimIdempotent(rest[..c]);
        TrimIdempotent(rest[c + 2..]);
      case None =>
        TrimIdempotent(rest);
    }
  }

  // ---------------------------------------------------------------------------------------
  // The graph a diagram declares
  // ---------------------------------------------------------------------------------------

  datatype Graph = Graph(nodes: seq<Node>, edges: seq<Edge>)

  /** Position of the node called `name`. */
  function IndexOf(nodes: seq<Node>, name: string): (r: Option<nat>)
    ensures r.Some? ==> r.value < |nodes| && nodes[r.value].name == name
    ensures r.None? ==> forall i :: 0 <= i < |nodes| ==> nodes[i].name != name
  {
    if nodes == [] then None
    else if nodes[0].name == name then Some(0)
    else match IndexOf(nodes[1..], name)
      case None => None
      case Some(i) => Some(i + 1)
  }

  predicate HasNode(nodes: seq<Node>, name: string) {
    IndexOf(nodes, name).Some?
  }

  function LabelOf(nodes: seq<Node>, name: string): Option<string> {
    match IndexOf(nodes, name)
    case None => None
    case Some(i) => Some(nodes[i].caption)
  }

  /** No two nodes share a name. */
  predicate Distinct(nodes: seq<Node>) {
    forall i, j :: 0 <= i < j < |nodes| ==> nodes[i].name != nodes[j].name
  }

  /** `b` keeps the nodes of `a`, in place and under the same names. */
  predicate Grows(a: seq<Node>, b: seq<Node>) {
    |a| <= |b| && forall i :: 0 <= i < |a| ==> b[i].name == a[i].name
  }

  /** A node is added only under a new name. */
  function AddNode(nodes: seq<Node>, name: string, caption: string): seq<Node> {
    if HasNode(nodes, name) then nodes else nodes + [Node(name, caption)]
  }

  /** A `name: label` line relabels the node or adds it. */
  function SetLabel(nodes: seq<Node>, name: string, caption: string): seq<Node> {
    match IndexOf(nodes, name)
    case Some(i) => nodes[i := Node(name, caption)]
    case None => nodes + [Node(name, caption)]
  }

  function Step(g: Graph, line: string): Graph {
    match Classify(line)
    case Blank => g
    case Arrow(from, to, caption) => Graph(AddNode(AddNode(g.nodes, from, from), to, to), g.edges + [Edge(from, to, caption)])
    case Labeled(name, caption) => Graph(SetLabel(g.nodes, name, caption), g.edges)
    case Bare(name) => if name == [] then g else Graph(AddNode(g.nodes, name, name), g.edges)
  }

  /** The graph the lines declare, read top to bottom. */
  function GraphOf(lines: seq<string>): Graph {
    if lines == [] then Graph([], [])
    else Step(GraphOf(lines[..|lines| - 1]), lines[|lines| - 1])
  }

  lemma DistinctIndex(nodes: seq<Node>, name: string, i: nat)
    requires Distinct(nodes) && i < |nodes| && nodes[i].name == name
    ensures IndexOf(nodes, name) == Some(i)
  {
  }

  lemma AddNodeProps(nodes: seq<Node>, name: string, caption: string)
    requires Distinct(nodes)
    ensures var r := AddNode(nodes, name, caption);
      Distinct(r) && Grows(nodes, r) && HasNode(r, name)
    ensures forall n :: HasNode(nodes, n) ==> LabelOf(AddNode(nodes, name, caption), n) == LabelOf(nodes, n)
  {
    var r := AddNode(nodes, name, caption);
    if !HasNode(nodes, name) {
      DistinctIndex(r, name, |nodes|);
      forall n | HasNode(nodes, n) ensures LabelOf(r, n) == LabelOf(nodes, n) {
        DistinctIndex(r, n, IndexOf(nodes, n).value);
      }
    }
  }

  /** After `name: label` the node called `name` has that label, and every other node keeps its own. */
  lemma SetLabelProps(nodes: seq<Node>, name: string, caption: string)
    requires Distinct(nodes)
    ensures var r := SetLabel(nodes, name, caption);
      Distinct(r) && Grows(nodes, r) && LabelOf(r, name) == Some(caption)
    ensures forall n :: n != name ==> LabelOf(SetLabel(nodes, name, caption), n) == LabelOf(nodes, n)
  {
    var r := SetLabel(nodes, name, caption);
    var i := if HasNode(nodes, name) then IndexOf(nodes, name).value else |nodes|;
    assert r[i] == Node(name, caption);
    DistinctIndex(r, name, i);
    forall n | n != name ensures LabelOf(r, n) == LabelOf(nodes, n) {
      if HasNode(nodes, n) {
        DistinctIndex(r, n, IndexOf(nodes, n).value);
      } else {
        assert forall j :: 0 <= j < |r| ==> r[j].name != n;
      }
    }
  }

  lemma GrowsTrans(a: seq<Node>, b: seq<Node>, c: seq<Node>)
    requires Grows(a, b) && Grows(b, c)
    ensures Grows(a, c)
  {
  }

  lemma GrowsHas(a: seq<Node>, b: seq<Node>, name: string)
    requires Grows(a, b) && HasNode(a, name)
    ensures HasNode(b, name)
  {
    assert b[IndexOf(a, name).value].name == name;
  }

  /** One line keeps every node, adds only new names, and adds at most the one edge it declares. */
  lemma StepProps(g: Graph, line: string)
    requires Distinct(g.nodes)
    ensures Distinct(Step(g, line).nodes) && Grows(g.nodes, Step(g, line).nodes)
    ensures Step(g, line).edges == g.edges + (if Classify(line).Arrow? then
      [Edge(Classify(line).from, Classify(line).to, Classify(line).caption)] else [])
    ensures Classify(line).Arrow? ==>
      HasNode(Step(g, line).nodes, Classify(line).from) && HasNode(Step(g, line).nodes, Classify(line).to)
  {
    match Classify(line)
    case Blank =>
    case Arrow(from, to, caption) =>
      AddNodeProps(g.nodes, from, from);
      var n1 := AddNode(g.nodes, from, from);
      AddNodeProps(n1, to, to);
      GrowsTrans(g.nodes, n1, AddNode(n1, to, to));
      GrowsHas(n1, AddNode(n1, to, to), from);
    case Labeled(name, caption) =>
      SetLabelProps(g.nodes, name, caption);
    case Bare(name) =>
      if name != [] {
        AddNodeProps(g.nodes, name, name);
      }
  }

  /** Node names are unique: a name that appears again refers to the same node. */
  lemma {:induction false} NamesDistinct(lines: seq<string>)
    ensures Distinct(GraphOf(lines).nodes)
  {
    if lines != [] {
      NamesDistinct(lines[..|lines| - 1]);
      StepProps(GraphOf(lines[..|lines| - 1]), lines[|lines| - 1]);
    }
  }

  /** Later lines never remove or rename a node: the node list only grows at its end. */
  lemma {:induction false} NodesGrow(lines: seq<string>, k: nat)
    requires k <= |lines|
    ensures Grows(GraphOf(lines[..k]).nodes, GraphOf(lines).nodes)
    decreases |lines|
  {
    if k < |lines| {
      var init := lines[..|lines| - 1];
      assert init[..k] == lines[..k];
      NodesGrow(init, k);
      NamesDistinct(init);
      StepProps(GraphOf(init), lines[|lines| - 1]);
      GrowsTrans(GraphOf(lines[..k]).nodes, GraphOf(init).nodes, GraphOf(lines).nodes);
    } else {
      assert lines[..k] == lines;
    }
  }

  /** The edges, one per arrow line, in line order. */
  function ArrowEdges(lines: seq<string>): seq<Edge> {
    if lines == [] then []
    else
      var k := Classify(lines[|lines| - 1]);
      ArrowEdges(lines[..|lines| - 1]) + (if k.Arrow? then [Edge(k.from, k.to, k.caption)] else [])
  }

  /** The edges of a diagram are exactly its arrow lines, in order. */
  lemma {:induction false} EdgesAreArrows(lines: seq<string>)
    ensures GraphOf(lines).edges == ArrowEdges(lines)
  {
    if lines != [] {
      EdgesAreArrows(lines[..|lines| - 1]);
      NamesDistinct(lines[..|lines| - 1]);
      StepProps(GraphOf(lines[..|lines| - 1]), lines[|lines| - 1]);
    }
  }

  /** An edge never dangles: both its ends are nodes, created on the spot when needed. */
  lemma {:induction false} EdgeEndsAreNodes(lines: seq<string>)
    ensures var g := GraphOf(lines);
      forall e :: e in g.edges ==> HasNode(g.nodes, e.from) && HasNode(g.nodes, e.to)
  {
    if lines != [] {
      var init := lines[..|lines| - 1];
      var g0 := GraphOf(init);
      var g := GraphOf(lines);
      EdgeEndsAreNodes(init);
      NamesDistinct(init);
      StepProps(g0, lines[|lines| - 1]);
      forall e | e in g.edges ensures HasNode(g.nodes, e.from) && HasNode(g.nodes, e.to) {
        if e in g0.edges {
          GrowsHas(g0.nodes, g.nodes, e.from);
          GrowsHas(g0.nodes, g.nodes, e.to);
        }
      }
    }
  }

  /** A `name: label` line gives the node that label, whether it is new or was seen before. */
  lemma LabelLineSets(g: Graph, line: string)
    requires Distinct(g.nodes) && Classify(line).Labeled?
    ensures LabelOf(Step(g, line).nodes, Classify(line).name) == Some(Classify(line).caption)
  {
    SetLabelProps(g.nodes, Classify(line).name, Classify(line).caption);
  }

  /** An arrow or a bare name never relabels a node that already exists. */
  lemma OtherLinesKeepLabels(g: Graph, line: string, name: string)
    requires Distinct(g.nodes) && !Classify(line).Labeled? && HasNode(g.nodes, name)
    ensures LabelOf(Step(g, line).nodes, name) == LabelOf(g.nodes, name)
  {
    match Classify(line)
    case Blank =>
    case Arrow(from, to, caption) =>
      AddNodeProps(g.nodes, from, from);
      var n1 := AddNode(g.nodes, from, from);
      GrowsHas(g.nodes, n1, name);
      AddNodeProps(n1, to, to);
    case Bare(b) =>
      if b != [] {
        AddNodeProps(g.nodes, b, b);
      }
  }

  // ---------------------------------------------------------------------------------------
  // `parse_diagram`
  // ---------------------------------------------------------------------------------------

  /** `seen_nodes` maps each node name to its position in `nodes`, and knows every node. */
  predicate SeenIndex(seen: map<string, nat>, nodes: seq<Node>) {
    && (forall n :: n in seen ==> seen[n] < |nodes| && nodes[seen[n]].name == n)
    && (forall i :: 0 <= i < |nodes| ==> nodes[i].name in seen)
  }

  lemma SeenLookup(seen: map<string, nat>, nodes: seq<Node>, name: string)
    requires SeenIndex(seen, nodes) && Distinct(nodes)
    ensures IndexOf(nodes, name) == if name in seen then Some(seen[name]) else None
  {
    if name in seen {
      DistinctIndex(nodes, name, seen[name]);
    }
  }

  lemma SeenAdd(seen: map<string, nat>, nodes: seq<Node>, name: string, caption: string)
    requires SeenIndex(seen, nodes) && Distinct(nodes) && name !in seen
    ensures SeenIndex(seen[name := |nodes|], nodes + [Node(name, caption)])
    ensures AddNode(nodes, name, caption) == nodes + [Node(name, caption)]
    ensures Distinct(nodes + [Node(name, caption)])
  {
    SeenLookup(seen, nodes, name);
    var r := nodes + [Node(name, caption)];
    forall i | 0 <= i < |r| ensures r[i].name in seen[name := |nodes|] {
      if i < |nodes| {
        assert r[i] == nodes[i];
      }
    }
  }

  lemma SeenKnown(seen: map<string, nat>, nodes: seq<Node>, name: string)
    requires SeenIndex(seen, nodes) && Distinct(nodes) && name in seen
    ensures AddNode(nodes, name, name) == nodes
  {
    SeenLookup(seen, nodes, name);
  }

  lemma SeenRelabel(seen: map<string, nat>, nodes: seq<Node>, name: string, caption: string)
    requires SeenIndex(seen, nodes) && Distinct(nodes) && name in seen
    ensures SeenIndex(seen, nodes[seen[name] := nodes[seen[name]].(caption := caption)])
    ensures SetLabel(nodes, name, caption) == nodes[seen[name] := nodes[seen[name]].(caption := caption)]
    ensures Distinct(nodes[seen[name] := nodes[seen[name]].(caption := caption)])
  {
    SeenLookup(seen, nodes, name);
  }

  /** A name seen for the first time is appended as a node and remembered at its position. */
  method Remember(name: string, caption: string, nodes: seq<Node>, seen: map<string, nat>)
    returns (nodes': seq<Node>, seen': map<string, nat>)
    requires SeenIndex(seen, nodes) && Distinct(nodes)
    ensures nodes' == AddNode(nodes, name, caption)
    ensures SeenIndex(seen', nodes') && Distinct(nodes')
  {
    if name !in seen {
      SeenAdd(seen, nodes, name, caption);
      seen' := seen[name := |nodes|];
      nodes' := nodes + [Node(name, caption)];
    } else {
      SeenLookup(seen, nodes, name);
      nodes', seen' := nodes, seen;
    }
  }

  /** The loop body of `parse_diagram`: what one line adds to the graph. */
  method ReadLine(line: string, nodes: seq<Node>, edges: seq<Edge>, seen: map<string, nat>)
    returns (nodes': seq<Node>, edges': seq<Edge>, seen': map<string, nat>)
    requires SeenIndex(seen, nodes) && Distinct(nodes)
    ensures Graph(nodes', edges') == Step(Graph(nodes, edges), line)
    ensures SeenIndex(seen', nodes')
  {
    nodes', edges', seen' := nodes, edges, seen;
    match Classify(line) {
      case Blank =>
      case Arrow(from, to, caption) =>
        nodes', seen' := Remember(from, from, nodes', seen');
        nodes', seen' := Remember(to, to, nodes', seen');
        edges' := edges + [Edge(from, to, caption)];
      case Labeled(name, caption) =>
        if name in seen {
          SeenRelabel(seen, nodes, name, caption);
          var idx := seen[name];
          nodes' := nodes[idx := nodes[idx].(caption := caption)];
        } else {
          SeenLookup(seen, nodes, name);
          SeenAdd(seen, nodes, name, caption);
          seen' := seen[name := |nodes|];
          nodes' := nodes + [Node(name, caption)];
        }
      case Bare(name) =>
        if name != [] {
          nodes', seen' := Remember(name, name, nodes', seen');
        }
    }
  }

  /** `parse_diagram`: one pass over the lines, with `seen` standing in for the name lookup. */
  method ParseDiagram(content: string) returns (nodes: seq<Node>, edges: seq<Edge>)
    ensures Graph(nodes, edges) == GraphOf(Lines(content))
  {
    nodes := [];
    edges := [];
    var seen: map<string, nat> := map[];
    var lines := Lines(content);
    for k := 0 to |lines|
      invariant Graph(nodes, edges) == GraphOf(lines[..k])
      invariant SeenIndex(seen, nodes)
    {
      NamesDistinct(lines[..k]);
      GraphOfSnoc(lines, k);
      nodes, edges, seen := ReadLine(lines[k], nodes, edges, seen);
    }
    assert lines[..|lines|] == lines;
  }

  lemma GraphOfSnoc(lines: seq<string>, k: nat)
    requires k < |lines|
    ensures GraphOf(lines[..k + 1]) == Step(GraphOf(lines[..k]), lines[k])
  {
    assert lines[..k + 1][..k] == lines[..k];
  }
}
